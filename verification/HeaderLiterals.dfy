/**
 Header lines spelled out: the constants of the scanners as text, and the lines
 that clients write.
 */
module HeaderLiterals {
  import opened ByteStrings
  import opened Options
  import opened PartHeaders
  import opened Stripping
  import opened HeaderNames
  import opened MultipartSpec
  import opened MultipartStream
  import opened MultipartGrammar
  import opened MultipartPrinter

  /** Text as the bytes of its latin-1 encoding. */
  function Latin1(s: string): (b: Bytes)
    requires forall i :: 0 <= i < |s| ==> s[i] as int < 256
    ensures |b| == |s| && forall i :: 0 <= i < |s| ==> b[i] as int == s[i] as int
  {
    seq(|s|, i requires 0 <= i < |s| => (s[i] as int) as Byte)
  }

  /** What the scanners look for. */
  lemma KeysSpelled()
    ensures BOUNDARY_KEY == Latin1("boundary") && NAME_KEY == Latin1("name") && FILE_NAME == Latin1("file")
    ensures DISPOSITION_KEY == Latin1("content-disposition")
  {
  }

  // Letter case as clients vary it.

  lemma DispositionCapitalized()
    ensures SameButCase(Latin1("Content-Disposition"), DISPOSITION_KEY)
  {
  }

  lemma NameCapitalized()
    ensures SameButCase(Latin1("Name"), NAME_KEY) && SameButCase(Latin1("NAME"), NAME_KEY)
  {
  }

  lemma BoundaryCapitalized()
    ensures SameButCase(Latin1("Boundary"), BOUNDARY_KEY) && SameButCase(Latin1("BOUNDARY"), BOUNDARY_KEY)
  {
  }

  /** Which bytes the scanners pass over around a parameter. */
  lemma BlanksSpelled(c: Byte)
    ensures c in BYTE_SPACES <==> c in Latin1(" \t\n\r") || c as int in {11, 12}
    ensures c in TEXT_SPACES <==> c in BYTE_SPACES || 28 <= c <= 31 || c as int in {0x85, 0xA0}
  {
    var s := " \t\n\r";
    assert Latin1(s) == [32, 9, 10, 13];
  }

  // A `Content-Disposition` line.

  /** `Content-Disposition: form-data; name="v"`, the two keys in the letter case given. */
  function Disposition(key: Bytes, n: Bytes, v: Bytes): Bytes {
    key + Latin1(": form-data; ") + n + Latin1("=\"") + v + Latin1("\"")
  }

  /** `; filename="file"`, for the end of such a line. */
  function FileName(file: Bytes): Bytes {
    Latin1("; filename=\"") + file + Latin1("\"")
  }

  const FORM_DATA: Param := Bare(Latin1(" form-data"))

  function QuotedParam(key: Bytes, v: Bytes): Param {
    Pair([32], key, [], [], Quoted(v), [])
  }

  /** A key without the separators, blanks and line ends of a header line. */
  predicate ProperKey(key: Bytes) {
    && SEMICOLON !in key && EQUALS !in key && COLON !in key && CR !in key && LF !in key
    && key != [] && Trimmed(key, BYTE_SPACES)
  }

  lemma {:induction false} SameButCaseIsProper(a: Bytes, b: Bytes)
    requires SameButCase(a, b) && ProperKey(b)
    ensures ProperKey(a)
  {
    forall i | 0 <= i < |a| ensures a[i] !in {SEMICOLON, EQUALS, COLON, CR, LF} {
      assert SameLetter(a[i], b[i]) && b[i] in b;
    }
    assert SameLetter(a[0], b[0]) && SameLetter(a[|a| - 1], b[|b| - 1]);
  }

  lemma KeysAreProper()
    ensures ProperKey(DISPOSITION_KEY) && ProperKey(NAME_KEY)
  {
  }

  lemma QuotedParamIsProper(key: Bytes, v: Bytes)
    requires SEMICOLON !in v && ProperKey(key)
    ensures ProperParam(QuotedParam(key, v), BYTE_SPACES)
    ensures PrintParam(QuotedParam(key, v)) == [32] + key + [EQUALS, QUOTE] + v + [QUOTE]
  {
    var empty: Bytes := [];
    assert ([32] + key + empty) == [32] + key;
    assert (empty + Quoted(v) + empty) == Quoted(v);
  }

  lemma FormDataIsProper()
    ensures ProperParam(FORM_DATA, BYTE_SPACES) && PrintParam(FORM_DATA) == Latin1(" form-data")
  {
    assert Latin1(" form-data") == [32, 102, 111, 114, 109, 45, 100, 97, 116, 97];
  }

  lemma PiecesSpelled()
    ensures Latin1(": form-data; ") == [COLON] + Latin1(" form-data") + [SEMICOLON, 32]
    ensures Latin1("=\"") == [EQUALS, QUOTE] && Latin1("\"") == [QUOTE]
  {
  }

  lemma FileNameSpelled()
    ensures Latin1("; filename=\"") == [SEMICOLON, 32] + Latin1("filename") + [EQUALS, QUOTE]
    ensures ProperKey(Latin1("filename")) && !SameButCase(Latin1("filename"), NAME_KEY)
  {
    assert Latin1("filename") == [102, 105, 108, 101, 110, 97, 109, 101];
  }

  /** The parameters of the line. */
  function Params(n: Bytes, v: Bytes): seq<Param> {
    [FORM_DATA, QuotedParam(n, v)]
  }

  lemma PrintTwo(p: Param, q: Param)
    ensures PrintParams([p, q]) == PrintParam(p) + [SEMICOLON] + PrintParam(q)
  {
    assert [p, q][1..] == [q];
  }

  lemma DispositionIsParams(key: Bytes, n: Bytes, v: Bytes)
    requires SEMICOLON !in v && ProperKey(n)
    ensures Disposition(key, n, v) == key + [COLON] + PrintParams(Params(n, v))
  {
    FormDataIsProper();
    QuotedParamIsProper(n, v);
    PiecesSpelled();
    PrintTwo(FORM_DATA, QuotedParam(n, v));
    hide PrintParams, PrintParam, Latin1;
    Regrouped(key, Latin1(" form-data"), n, v);
  }

  lemma Regrouped(key: Bytes, form: Bytes, n: Bytes, v: Bytes)
    ensures key + ([COLON] + form + [SEMICOLON, 32]) + n + [EQUALS, QUOTE] + v + [QUOTE]
            == key + [COLON] + (form + [SEMICOLON] + ([32] + n + [EQUALS, QUOTE] + v + [QUOTE]))
  {
  }

  /** Whatever the letter case of its keys, the line names the field in its quotes. */
  lemma DispositionNames(key: Bytes, n: Bytes, v: Bytes)
    requires SameButCase(key, DISPOSITION_KEY) && SameButCase(n, NAME_KEY)
    requires SEMICOLON !in v && Trimmed(v, {QUOTE})
    ensures NameInLine(Disposition(key, n, v)) == Some(v)
  {
    KeysAreProper();
    SameButCaseIsProper(key, DISPOSITION_KEY);
    SameButCaseIsProper(n, NAME_KEY);
    FormDataIsProper();
    QuotedParamIsProper(n, v);
    DispositionIsParams(key, n, v);
    PrintTwo(FORM_DATA, QuotedParam(n, v));
    var params := Params(n, v);
    var value := PrintParams(params);
    assert value[|value| - 1] == QUOTE;
    BareKey(key, value);
    hide PrintParams, PrintParam, NameInLine, SameButCase, Disposition;
    DispositionReadBack([], key, [], params, []);
    QuotesRemoved(v);
    FirstOfTwo(n, v);
  }

  lemma FirstOfTwo(n: Bytes, v: Bytes)
    requires SameButCase(n, NAME_KEY)
    ensures FirstValue(Params(n, v), NAME_KEY) == Some(Unquoted(Quoted(v)))
  {
    hide Unquoted, SameButCase;
    var params := Params(n, v);
    assert params[1..] == [QuotedParam(n, v)];
  }

  // With a file name after it.

  function FileParams(n: Bytes, v: Bytes, file: Bytes): seq<Param> {
    Params(n, v) + [QuotedParam(Latin1("filename"), file)]
  }

  lemma PrintThird(n: Bytes, v: Bytes, file: Bytes)
    ensures PrintParams(FileParams(n, v, file)) ==
            PrintParams(Params(n, v)) + [SEMICOLON] + PrintParam(QuotedParam(Latin1("filename"), file))
  {
    hide PrintParam, Latin1;
    var p, q, z := FORM_DATA, QuotedParam(n, v), QuotedParam(Latin1("filename"), file);
    assert FileParams(n, v, file) == [p, q, z];
    assert [p, q, z][1..] == [q, z];
    PrintTwo(p, q);
    PrintTwo(q, z);
  }

  lemma FileNameIsParam(file: Bytes)
    requires SEMICOLON !in file
    ensures FileName(file) == [SEMICOLON] + PrintParam(QuotedParam(Latin1("filename"), file))
    ensures ProperParam(QuotedParam(Latin1("filename"), file), BYTE_SPACES)
  {
    FileNameSpelled();
    QuotedParamIsProper(Latin1("filename"), file);
    PiecesSpelled();
  }

  lemma FirstOfThree(n: Bytes, v: Bytes, file: Bytes)
    requires SameButCase(n, NAME_KEY)
    ensures FirstValue(FileParams(n, v, file), NAME_KEY) == Some(Unquoted(Quoted(v)))
  {
    hide Unquoted, SameButCase, Latin1;
    var params := FileParams(n, v, file);
    assert params[1..] == [QuotedParam(n, v), QuotedParam(Latin1("filename"), file)];
  }

  lemma FileLineIsParams(key: Bytes, n: Bytes, v: Bytes, file: Bytes)
    requires SEMICOLON !in v && SEMICOLON !in file && ProperKey(n)
    ensures var value := PrintParams(FileParams(n, v, file));
            && Disposition(key, n, v) + FileName(file) == key + [COLON] + value
            && value != [] && value[|value| - 1] == QUOTE
    ensures ProperParams(FileParams(n, v, file), BYTE_SPACES)
  {
    FormDataIsProper();
    QuotedParamIsProper(n, v);
    FileNameSpelled();
    QuotedParamIsProper(Latin1("filename"), file);
    DispositionIsParams(key, n, v);
    FileNameIsParam(file);
    PrintThird(n, v, file);
    hide PrintParams, PrintParam, Disposition, FileName, Latin1, ProperParam;
    Appended(key + [COLON], PrintParams(Params(n, v)), [SEMICOLON], PrintParam(QuotedParam(Latin1("filename"), file)));
  }

  lemma Appended(a: Bytes, b: Bytes, c: Bytes, d: Bytes)
    ensures (a + b) + (c + d) == a + (b + c + d)
    ensures d != [] ==> (b + c + d)[|b + c + d| - 1] == d[|d| - 1]
  {
  }

  /** A file name on the line does not change what field it names. */
  lemma FileDispositionNames(key: Bytes, n: Bytes, v: Bytes, file: Bytes)
    requires SameButCase(key, DISPOSITION_KEY) && SameButCase(n, NAME_KEY)
    requires SEMICOLON !in v && Trimmed(v, {QUOTE}) && SEMICOLON !in file
    ensures NameInLine(Disposition(key, n, v) + FileName(file)) == Some(v)
  {
    KeysAreProper();
    SameButCaseIsProper(key, DISPOSITION_KEY);
    SameButCaseIsProper(n, NAME_KEY);
    FileLineIsParams(key, n, v, file);
    var params := FileParams(n, v, file);
    hide PrintParams, NameInLine, SameButCase, Disposition, FileName, ProperParams, FileParams;
    BareKey(key, PrintParams(params));
    DispositionReadBack([], key, [], params, []);
    QuotesRemoved(v);
    FirstOfThree(n, v, file);
  }

  lemma BareKey(key: Bytes, value: Bytes)
    ensures ([] + key + []) + [COLON] + (value + []) == key + [COLON] + value
  {
    var empty: Bytes := [];
    assert empty + key + empty == key && value + empty == value;
  }

  // A `Content-Type`.

  /** `multipart/form-data; boundary=v`, its parameter's key in the letter case given. */
  function FormType(n: Bytes, v: Bytes): Bytes {
    Latin1("multipart/form-data; ") + n + Latin1("=") + v
  }

  lemma TypeSpelled()
    ensures Latin1("multipart/form-data; ") == Latin1("multipart/form-data") + [SEMICOLON, 32]
    ensures SEMICOLON !in Latin1("multipart/form-data") && Latin1("=") == [EQUALS]
  {
  }

  lemma BoundaryKeyIsProper(n: Bytes)
    requires SameButCase(n, BOUNDARY_KEY)
    ensures SEMICOLON !in n && EQUALS !in n && n != [] && Trimmed(n, TEXT_SPACES)
  {
    forall i | 0 <= i < |n| ensures 65 <= n[i] <= 122 {
      assert SameLetter(n[i], BOUNDARY_KEY[i]) && 97 <= BOUNDARY_KEY[i] <= 122;
    }
  }

  lemma TypeIsParams(n: Bytes, text: Bytes)
    ensures FormType(n, text) ==
            Latin1("multipart/form-data") + [SEMICOLON] + PrintParams([Pair([32], n, [], [], text, [])])
  {
    TypeSpelled();
    hide Latin1;
    var empty: Bytes := [];
    assert [32] + n + empty == [32] + n && empty + text + empty == text;
  }

  lemma TypeReadBack(n: Bytes, text: Bytes, v: Bytes)
    requires SameButCase(n, BOUNDARY_KEY) && v != [] && Unquoted(text) == v
    requires SEMICOLON !in text && Trimmed(text, TEXT_SPACES)
    ensures BoundaryFromContentType(FormType(n, text)) == Some(v)
  {
    var p := Pair([32], n, [], [], text, []);
    BoundaryKeyIsProper(n);
    TypeSpelled();
    TypeIsParams(n, text);
    hide Latin1, SameButCase, BoundaryFromContentType, Unquoted, FormType;
    assert ProperParam(p, TEXT_SPACES);
    BoundaryReadBack(Latin1("multipart/form-data"), [p]);
  }

  /** Whatever the letter case of its key, a content type yields the boundary it declares, bare or quoted. */
  lemma TypeNamesBoundary(n: Bytes, v: Bytes)
    requires SameButCase(n, BOUNDARY_KEY) && v != [] && SEMICOLON !in v
    requires Trimmed(v, TEXT_SPACES) && Trimmed(v, {QUOTE})
    ensures BoundaryFromContentType(FormType(n, v)) == Some(v)
    ensures BoundaryFromContentType(FormType(n, Quoted(v))) == Some(v)
  {
    StripTrimmed(v, {QUOTE});
    QuotesRemoved(v);
    TypeReadBack(n, v, v);
    TypeReadBack(n, Quoted(v), v);
  }

  // An upload as clients send it.

  /** The header lines of a file field. */
  function FileLines(file: Bytes): seq<Bytes> {
    [Disposition(Latin1("Content-Disposition"), Latin1("name"), Latin1("file")) + FileName(file),
     Latin1("Content-Type: application/pdf")]
  }

  lemma FileLinesName(file: Bytes)
    requires SEMICOLON !in file
    ensures NameInLines(FileLines(file)) == Some(FILE_NAME)
  {
    DispositionCapitalized();
    KeysSpelled();
    FileIsPlain();
    hide SameButCase, Disposition, FileName, Latin1, NameInLine;
    FileDispositionNames(Latin1("Content-Disposition"), Latin1("name"), Latin1("file"), file);
  }

  lemma FileIsPlain()
    ensures SEMICOLON !in Latin1("file") && Trimmed(Latin1("file"), {QUOTE})
    ensures SameButCase(Latin1("name"), NAME_KEY)
  {
  }

  lemma LinesAreProper(file: Bytes)
    requires CR !in file && LF !in file && |file| <= 16000
    ensures ProperLines(FileLines(file)) && |JoinLines(FileLines(file), Crlf)| + 4 <= 16384
  {
    var lines := FileLines(file);
    assert lines[1..] == [lines[1]];
  }

  /**
   A PDF sent the usual way, in chunks of any size, is read back: header lines in
   their usual spelling, any file name without a semicolon, any further sections.
   */
  lemma UsualUpload(f: Frame, file: Bytes, content: Bytes, after: seq<Section>, tail: Bytes, chunks: seq<Bytes>)
    requires ProperBoundary(f) && SEMICOLON !in file && CR !in file && LF !in file && |file| <= 16000
    requires 1 <= |content| <= f.maxBytes && Find(content, f.Delimiter()) < 0 && PrintableAll(f, after, Crlf)
    requires Concat(chunks) == PrintUpload(f, [], [Section(FileLines(file), content)] + after, Crlf, tail)
    ensures Meaning(f, chunks) == Done(content)
  {
    var sections := [Section(FileLines(file), content)] + after;
    EmptyPreambleLegal(f);
    FileLinesName(file);
    LinesAreProper(file);
    hide FileLines, Meaning, PrintUpload, Find, ProperBoundary, LegalPreamble, ProperLines, JoinLines, NameInLines;
    assert Printable(f, sections[0], Crlf);
    assert PrintableAll(f, sections, Crlf);
    RoundTripExactly(f, Crlf, [], sections, tail, chunks);
  }
}
