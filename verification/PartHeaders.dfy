/**
 The two header scanners of the reader: the boundary a `Content-Type` declares
 and the form-field name a part's header block declares. Text is latin-1, so a
 character is a byte.
 */
module PartHeaders {
  import opened ByteStrings
  import opened Options
  import opened Stripping

  /** What `bytes.strip()` removes. */
  const BYTE_SPACES: set<Byte> := {9, 10, 11, 12, 13, 32}

  /** What `str.strip()` removes from latin-1 text. */
  const TEXT_SPACES: set<Byte> := {9, 10, 11, 12, 13, 28, 29, 30, 31, 32, 0x85, 0xA0}

  function LowerByte(b: Byte): Byte {
    if 65 <= b <= 90 then b + 32 else b
  }

  function Lower(s: Bytes): Bytes {
    seq(|s|, i requires 0 <= i < |s| => LowerByte(s[i]))
  }

  /** `s.split(sep)` for a one-byte separator. */
  function Split(s: Bytes, sep: Byte): (parts: seq<Bytes>)
    ensures |parts| > 0
  {
    var i := Find(s, [sep]);
    if i < 0 then [s] else [s[..i]] + Split(s[i + 1..], sep)
  }

  /** `s.partition(sep)`: head, whether the separator was found, tail. */
  function Partition(s: Bytes, sep: Byte): (Bytes, bool, Bytes) {
    var i := Find(s, [sep]);
    if i < 0 then (s, false, []) else (s[..i], true, s[i + 1..])
  }

  /** The value of one `key=value` parameter when its key is `key`, quotes removed. */
  function Parameter(param: Bytes, key: Bytes, spaces: set<Byte>): Option<Bytes> {
    var (name, found, value) := Partition(Strip(param, spaces), EQUALS);
    if found && Lower(Strip(name, spaces)) == key
    then Some(Strip(Strip(value, spaces), {QUOTE}))
    else None
  }

  const BOUNDARY_KEY: Bytes := [98, 111, 117, 110, 100, 97, 114, 121]  // boundary
  const NAME_KEY: Bytes := [110, 97, 109, 101]  // name
  const FILE_NAME: Bytes := [102, 105, 108, 101]  // file
  // content-disposition
  const DISPOSITION_KEY: Bytes :=
    [99, 111, 110, 116, 101, 110, 116, 45, 100, 105, 115, 112, 111, 115, 105, 116, 105, 111, 110]

  /** First non-empty `boundary` among the parameters; an empty one is passed over. */
  function FirstBoundary(params: seq<Bytes>): Option<Bytes> {
    if params == [] then None
    else
      var value := Parameter(params[0], BOUNDARY_KEY, TEXT_SPACES);
      if value.Some? && value.value != [] then value else FirstBoundary(params[1..])
  }

  /** `boundary_from_content_type`; `None` is the refusal "multipart sin boundary". */
  function BoundaryFromContentType(contentType: Bytes): Option<Bytes> {
    FirstBoundary(Split(Partition(contentType, SEMICOLON).2, SEMICOLON))
  }

  function FirstName(params: seq<Bytes>): Option<Bytes> {
    if params == [] then None
    else
      var value := Parameter(params[0], NAME_KEY, BYTE_SPACES);
      if value.Some? then value else FirstName(params[1..])
  }

  /** The `name` one header line declares, when it is a content-disposition line. */
  function NameInLine(raw: Bytes): Option<Bytes> {
    var (key, found, value) := Partition(Strip(raw, BYTE_SPACES), COLON);
    if found && Lower(Strip(key, BYTE_SPACES)) == DISPOSITION_KEY
    then FirstName(Split(value, SEMICOLON))
    else None
  }

  function NameInLines(lines: seq<Bytes>): Option<Bytes> {
    if lines == [] then None
    else
      var name := NameInLine(lines[0]);
      if name.Some? then name else NameInLines(lines[1..])
  }

  /** `_part_name`. */
  function PartName(headers: Bytes): Option<Bytes> {
    NameInLines(Split(headers, LF))
  }

  predicate IsFile(headers: Bytes) {
    PartName(headers) == Some(FILE_NAME)
  }
}
