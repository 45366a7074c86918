/**
 What a multipart body means, stated on the whole body at once: no buffer, no
 state and no pruning. Delimiters follow section 5.1.1 of RFC 2046 with the
 reader's own choices: padding after a delimiter is refused, LF-only line ends
 are accepted, the first marker may stand anywhere in the preamble, and a
 boundary matches as a prefix.

 The delivery of the body shows in one place only, the header cap, so the
 meaning takes `cuts`, the offsets at which a chunk ended.
 */
module MultipartSpec {
  import opened ByteStrings
  import opened PartHeaders

  /** The largest offset at which a part's header block may end. */
  const HEADER_CAP: nat := 16 * 1024

  const CRLFCRLF: Bytes := [CR, LF, CR, LF]
  const LFLF: Bytes := [LF, LF]

  /** What one upload is framed by: its boundary and the size limit of the file. */
  datatype Frame = Frame(boundary: Bytes, maxBytes: nat) {
    function Marker(): (m: Bytes)
      ensures |m| >= 2
    {
      [DASH, DASH] + boundary
    }

    function Delimiter(): (d: Bytes)
      ensures |d| >= 3 && d[0] == LF
    {
      [LF] + Marker()
    }
  }

  datatype Error = MissingField | EmptyFile | Malformed | HeadersTooLarge | Oversized

  datatype Outcome = Done(content: Bytes) | Failed(error: Error)

  datatype HeaderEnd = Unterminated | EndsAt(start: nat, separator: nat)

  /** Where the header block ends: at the first blank line, CRLF or LF. */
  function FindHeaderEnd(s: Bytes): (e: HeaderEnd)
    ensures e.EndsAt? ==>
              && e.start + e.separator <= |s| && (e.separator == 2 || e.separator == 4)
              && s[e.start..e.start + e.separator] == (if e.separator == 4 then CRLFCRLF else LFLF)
  {
    var crlf := Find(s, CRLFCRLF);
    var lf := Find(s, LFLF);
    if crlf < 0 && lf < 0 then Unterminated
    else if lf < 0 || (0 <= crlf && crlf < lf) then EndsAt(crlf, 4)
    else EndsAt(lf, 2)
  }

  /** Where the content ends when the delimiter that closes it stands at `i`: a CR before it goes too. */
  function ContentEnd(s: Bytes, i: int): (end: int)
    requires 0 <= i <= |s|
    ensures 0 <= end <= i
  {
    if i > 0 && s[i - 1] == CR then i - 1 else i
  }

  /** The outcome of the file part whose content starts `s`. */
  ghost function FileContent(f: Frame, s: Bytes): Outcome {
    var i := Find(s, f.Delimiter());
    if i < 0 then
      if |s| > f.maxBytes + |f.Delimiter()| then Failed(Oversized) else Failed(Malformed)
    else
      var end := ContentEnd(s, i);
      if end > f.maxBytes then Failed(Oversized)
      else if end == 0 then Failed(EmptyFile)
      else Done(s[..end])
  }

  ghost predicate CutWithin(cuts: set<nat>, lo: int, hi: int) {
    exists p :: p in cuts && lo <= p < hi
  }

  /** A header block that starts at offset `at` and ends as `e` says is let through. */
  ghost predicate HeadersPass(e: HeaderEnd, at: nat, cuts: set<nat>)
    requires e.EndsAt?
  {
    e.start <= HEADER_CAP && !CutWithin(cuts, at + HEADER_CAP + 1, at + e.start + e.separator)
  }

  /** The outcome of a body whose unread rest `s`, at offset `at`, follows a line break after a marker. */
  ghost function Part(f: Frame, s: Bytes, at: nat, cuts: set<nat>): Outcome
    decreases |s|, 0
  {
    match FindHeaderEnd(s)
    case Unterminated =>
      if |s| > HEADER_CAP then Failed(HeadersTooLarge) else Failed(Malformed)
    case EndsAt(start, separator) =>
      if !HeadersPass(EndsAt(start, separator), at, cuts) then Failed(HeadersTooLarge)
      else if IsFile(s[..start]) then FileContent(f, s[start + separator..])
      else SkipPart(f, s[start + separator..], at + start + separator, cuts)
  }

  /** As `Part`, inside the content of a part that is not the file. */
  ghost function SkipPart(f: Frame, s: Bytes, at: nat, cuts: set<nat>): Outcome
    decreases |s|, 0
  {
    var i := Find(s, f.Delimiter());
    if i < 0 then Failed(Malformed)
    else
      var next := i + |f.Delimiter()|;
      AfterMarker(f, s[next..], at + next, cuts)
  }

  /** As `Part`, right after a marker. */
  ghost function AfterMarker(f: Frame, s: Bytes, at: nat, cuts: set<nat>): Outcome
    decreases |s|, 1
  {
    if s == [] then Failed(Malformed)
    else if s[0] == DASH then
      if |s| >= 2 && s[1] == DASH then Failed(MissingField) else Failed(Malformed)
    else if s[0] == CR then
      if |s| >= 2 && s[1] == LF then Part(f, s[2..], at + 2, cuts) else Failed(Malformed)
    else if s[0] == LF then Part(f, s[1..], at + 1, cuts)
    else Failed(Malformed)
  }

  /** As `Part`, before the first marker. */
  ghost function Preamble(f: Frame, s: Bytes, at: nat, cuts: set<nat>): Outcome {
    var i := Find(s, f.Marker());
    if i < 0 then Failed(Malformed)
    else
      var next := i + |f.Marker()|;
      AfterMarker(f, s[next..], at + next, cuts)
  }

  /** The meaning of `body` delivered in chunks that end at `cuts`. */
  ghost function Parse(f: Frame, body: Bytes, cuts: set<nat>): Outcome {
    Preamble(f, body, 0, cuts)
  }

  /** The meaning of `body` delivered whole. */
  ghost function ParseWhole(f: Frame, body: Bytes): Outcome {
    Parse(f, body, {})
  }

  function Concat(chunks: seq<Bytes>): Bytes {
    if chunks == [] then [] else chunks[0] + Concat(chunks[1..])
  }

  /** The offsets at which the chunks end, the first chunk starting at `at`. */
  function CutsFrom(at: nat, chunks: seq<Bytes>): set<nat>
    decreases |chunks|
  {
    if chunks == [] then {} else {at + |chunks[0]|} + CutsFrom(at + |chunks[0]|, chunks[1..])
  }

  function Cuts(chunks: seq<Bytes>): set<nat> {
    CutsFrom(0, chunks)
  }

  // Where a header block ends is fixed by the bytes up to its end.

  /** The two blank lines cannot overlap by one byte: a CR is not an LF. */
  lemma BlankLinesApart(s: Bytes, crlf: nat, lf: nat)
    requires OccursAt(s, CRLFCRLF, crlf) && OccursAt(s, LFLF, lf)
    ensures lf != crlf + 1
  {
    assert CRLFCRLF[2] == s[crlf..crlf + 4][2] == s[crlf + 2];
    assert LFLF[1] == s[lf..lf + 2][1] == s[lf + 1];
  }

  lemma HeaderEndStable(s: Bytes, t: Bytes)
    requires FindHeaderEnd(s).EndsAt?
    ensures FindHeaderEnd(s + t) == FindHeaderEnd(s)
  {
    var crlf, lf := Find(s, CRLFCRLF), Find(s, LFLF);
    if crlf >= 0 { FindStable(s, t, CRLFCRLF); } else { FindLate(s, t, CRLFCRLF); }
    if lf >= 0 { FindStable(s, t, LFLF); } else { FindLate(s, t, LFLF); }
    var crlf', lf' := Find(s + t, CRLFCRLF), Find(s + t, LFLF);
    if crlf' >= 0 && lf' >= 0 {
      BlankLinesApart(s + t, crlf', lf');
    }
  }

  lemma HeaderEndLate(s: Bytes, t: Bytes)
    requires FindHeaderEnd(s).Unterminated?
    ensures FindHeaderEnd(s + t).Unterminated?
            || FindHeaderEnd(s + t).start + FindHeaderEnd(s + t).separator > |s|
  {
    FindLate(s, t, CRLFCRLF);
    FindLate(s, t, LFLF);
  }
}
