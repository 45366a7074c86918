/**
 The bodies an upload can be printed as, and the two directions of the parse:
 every printed body is read back as its first file part, and every body that
 yields a file is a printed one.
 */
module MultipartGrammar {
  import opened ByteStrings
  import opened Options
  import opened PartHeaders
  import opened MultipartSpec
  import opened MultipartResume

  datatype Eol = Crlf | Lf {
    function Text(): (t: Bytes)
      ensures 1 <= |t| <= 2 && t[|t| - 1] == LF
    {
      if Crlf? then [CR, LF] else [LF]
    }

    function BlankLine(): Bytes {
      if Crlf? then CRLFCRLF else LFLF
    }
  }

  /** One part, from the marker that opens it to the marker that closes it. */
  datatype PartText = PartText(open: Eol, head: Bytes, blank: Eol, content: Bytes, close: Eol)

  /** The text of a part between its markers, the closing one included. */
  function Print(f: Frame, p: PartText): Bytes {
    p.open.Text() + p.head + p.blank.BlankLine() + p.content + p.close.Text() + f.Marker()
  }

  function PrintParts(f: Frame, parts: seq<PartText>, tail: Bytes): Bytes {
    if parts == [] then tail else Print(f, parts[0]) + PrintParts(f, parts[1..], tail)
  }

  function PrintBody(f: Frame, preamble: Bytes, parts: seq<PartText>, tail: Bytes): Bytes {
    preamble + f.Marker() + PrintParts(f, parts, tail)
  }

  predicate LegalHead(head: Bytes, blank: Eol) {
    && |head| <= HEADER_CAP
    && FindHeaderEnd(head + blank.BlankLine()) == EndsAt(|head|, |blank.BlankLine()|)
  }

  predicate LegalContent(f: Frame, content: Bytes, close: Eol) {
    && Find(content + close.Text() + f.Marker(), f.Delimiter()) == |content| + |close.Text()| - 1
    && (close.Lf? && content != [] ==> content[|content| - 1] != CR)
  }

  /** The part's blank line and closing delimiter are the first in it, and its headers are within the cap. */
  predicate Legal(f: Frame, p: PartText) {
    LegalHead(p.head, p.blank) && LegalContent(f, p.content, p.close)
  }

  predicate LegalParts(f: Frame, parts: seq<PartText>) {
    forall i :: 0 <= i < |parts| ==> Legal(f, parts[i])
  }

  /** The headers stay within the cap with their blank line. */
  predicate WithRoom(p: PartText) {
    |p.head| + |p.blank.BlankLine()| <= HEADER_CAP + 1
  }

  predicate AllWithRoom(parts: seq<PartText>) {
    forall i :: 0 <= i < |parts| ==> WithRoom(parts[i])
  }

  /** The first marker of the body is the one after the preamble. */
  predicate LegalPreamble(f: Frame, preamble: Bytes) {
    Find(preamble + f.Marker(), f.Marker()) == |preamble|
  }

  function FirstFile(parts: seq<PartText>): Option<Bytes> {
    if parts == [] then None
    else if IsFile(parts[0].head) then Some(parts[0].content)
    else FirstFile(parts[1..])
  }

  /** What a file of content `c` comes to. */
  function FileOutcome(f: Frame, c: Bytes): Outcome {
    if |c| > f.maxBytes then Failed(Oversized)
    else if c == [] then Failed(EmptyFile)
    else Done(c)
  }

  /** A header block of up to 16384 bytes is read, a longer one refused. */
  lemma HeadersUpToTheCap(f: Frame, head: Bytes, blank: Eol, rest: Bytes, at: nat)
    requires FindHeaderEnd(head + blank.BlankLine()) == EndsAt(|head|, |blank.BlankLine()|)
    ensures var outcome := Part(f, head + blank.BlankLine() + rest, at, {});
            if |head| > 16384 then outcome == Failed(HeadersTooLarge)
            else if IsFile(head) then outcome == FileContent(f, rest)
            else outcome == SkipPart(f, rest, at + |head| + |blank.BlankLine()|, {})
  {
    hide FindHeaderEnd, IsFile, FileContent, SkipPart;
    HeaderEndStable(head + blank.BlankLine(), rest);
    SplitAppended(head, blank.BlankLine(), rest);
  }

  lemma ContentReadBack(f: Frame, content: Bytes, close: Eol, rest: Bytes)
    requires LegalContent(f, content, close)
    ensures var s := content + close.Text() + f.Marker() + rest;
            && Find(s, f.Delimiter()) == |content| + |close.Text()| - 1
            && ContentEnd(s, Find(s, f.Delimiter())) == |content|
            && s[..|content|] == content
            && s[Find(s, f.Delimiter()) + |f.Delimiter()|..] == rest
  {
    FindStable(content + close.Text() + f.Marker(), rest, f.Delimiter());
  }

  lemma PrintRegrouped(f: Frame, p: PartText, rest: Bytes)
    ensures Print(f, p) + rest ==
            p.open.Text() + ((p.head + p.blank.BlankLine()) + (p.content + p.close.Text() + f.Marker() + rest))
  {
    Regroup(p.open.Text(), p.head, p.blank.BlankLine(), p.content, p.close.Text(), f.Marker(), rest);
  }

  lemma Regroup(a: Bytes, b: Bytes, c: Bytes, d: Bytes, e: Bytes, g: Bytes, h: Bytes)
    ensures a + b + c + d + e + g + h == a + ((b + c) + (d + e + g + h))
  {
  }

  lemma SplitAppended(a: Bytes, b: Bytes, c: Bytes)
    ensures (a + b + c)[..|a|] == a && (a + b + c)[|a + b|..] == c
  {
  }

  /** What the unread bytes of a part come to, given where its header block and its content end. */
  lemma PartByPieces(f: Frame, block: Bytes, at: nat, cuts: set<nat>)
    requires FindHeaderEnd(block).EndsAt? && HeadersPass(FindHeaderEnd(block), at, cuts)
    requires var e := FindHeaderEnd(block); Find(block[e.start + e.separator..], f.Delimiter()) >= 0
    ensures var e := FindHeaderEnd(block);
            var body := block[e.start + e.separator..];
            var i := Find(body, f.Delimiter());
            Part(f, block, at, cuts) ==
            if IsFile(block[..e.start]) then FileOutcome(f, body[..ContentEnd(body, i)])
            else AfterMarker(f, body[i + |f.Delimiter()|..], at + e.start + e.separator + i + |f.Delimiter()|, cuts)
  {
    hide FindHeaderEnd, IsFile, Find, ContentEnd, AfterMarker;
  }

  /** The line break that opens a part. */
  lemma OpeningRead(f: Frame, open: Eol, rest: Bytes, at: nat, cuts: set<nat>)
    ensures AfterMarker(f, open.Text() + rest, at, cuts) == Part(f, rest, at + |open.Text()|, cuts)
  {
    hide Part;
    BoundaryLine(f, open.Text(), rest, at, cuts, |open.Text()|);
    assert open.Text()[|open.Text()|..] + rest == rest;
  }

  /** Head and blank line of a part, and its content with the marker that closes it. */
  function Block(p: PartText): Bytes {
    p.head + p.blank.BlankLine()
  }

  function Closed(f: Frame, p: PartText): Bytes {
    p.content + p.close.Text() + f.Marker()
  }

  lemma BlockReadBack(f: Frame, p: PartText, rest: Bytes, at: nat, cuts: set<nat>)
    requires Legal(f, p) && (cuts == {} || WithRoom(p))
    ensures Part(f, Block(p) + (Closed(f, p) + rest), at, cuts) ==
            if IsFile(p.head) then FileOutcome(f, p.content)
            else AfterMarker(f, rest, at + |Block(p)| + |Closed(f, p)|, cuts)
  {
    hide FindHeaderEnd, Find, ContentEnd, IsFile, LegalContent, AfterMarker, Part, FileOutcome;
    HeaderEndStable(Block(p), Closed(f, p) + rest);
    SplitAppended(p.head, p.blank.BlankLine(), Closed(f, p) + rest);
    ContentReadBack(f, p.content, p.close, rest);
    PartByPieces(f, Block(p) + (Closed(f, p) + rest), at, cuts);
  }

  /** A part is read back as itself: its file, or the rest after it. */
  lemma PartReadBack(f: Frame, p: PartText, rest: Bytes, at: nat, cuts: set<nat>)
    requires Legal(f, p) && (cuts == {} || WithRoom(p))
    ensures AfterMarker(f, Print(f, p) + rest, at, cuts) ==
            if IsFile(p.head) then FileOutcome(f, p.content)
            else AfterMarker(f, rest, at + |Print(f, p)|, cuts)
  {
    PrintRegrouped(f, p, rest);
    PrintLength(f, p);
    OpeningRead(f, p.open, Block(p) + (Closed(f, p) + rest), at, cuts);
    hide Legal, WithRoom, AfterMarker, Part, FileOutcome, Print, IsFile;
    BlockReadBack(f, p, rest, at + |p.open.Text()|, cuts);
  }

  lemma PrintLength(f: Frame, p: PartText)
    ensures |Print(f, p)| == |p.open.Text()| + |Block(p)| + |Closed(f, p)|
  {
  }

  lemma {:induction false} PartsReadBack(f: Frame, parts: seq<PartText>, tail: Bytes, at: nat, cuts: set<nat>)
    requires LegalParts(f, parts) && (cuts == {} || AllWithRoom(parts))
    ensures AfterMarker(f, PrintParts(f, parts, tail), at, cuts) ==
            if FirstFile(parts).Some? then FileOutcome(f, FirstFile(parts).value)
            else AfterMarker(f, tail, at + |PrintParts(f, parts, [])|, cuts)
    decreases |parts|
  {
    hide Legal, Print, AfterMarker, FileOutcome;
    if parts != [] {
      PartReadBack(f, parts[0], PrintParts(f, parts[1..], tail), at, cuts);
      PartsReadBack(f, parts[1..], tail, at + |Print(f, parts[0])|, cuts);
    }
  }

  /**
   Printing then reading: the body comes to its first file part, whatever parts
   precede it and whatever bytes follow the last one; with no file part it
   comes to what follows. So it is for the whole body, and for every way of
   cutting it when the headers leave room for their blank lines.
   */
  lemma BodyReadBack(f: Frame, preamble: Bytes, parts: seq<PartText>, tail: Bytes, cuts: set<nat>)
    requires LegalPreamble(f, preamble) && LegalParts(f, parts) && (cuts == {} || AllWithRoom(parts))
    ensures Parse(f, PrintBody(f, preamble, parts, tail), cuts) ==
            if FirstFile(parts).Some? then FileOutcome(f, FirstFile(parts).value)
            else AfterMarker(f, tail, |PrintBody(f, preamble, parts, [])|, cuts)
  {
    hide AfterMarker, Find, PrintParts, FileOutcome, LegalParts, FirstFile;
    var start := preamble + f.Marker();
    FindStable(start, PrintParts(f, parts, tail), f.Marker());
    assert PrintBody(f, preamble, parts, tail)[|start|..] == PrintParts(f, parts, tail);
    PartsReadBack(f, parts, tail, |start|, cuts);
  }

  // The other direction: what yields a file was printed.

  /** The part the parse of `s` after a marker goes through first. */
  lemma RetracePart(f: Frame, s: Bytes, at: nat) returns (p: PartText, rest: Bytes)
    requires AfterMarker(f, s, at, {}).Done?
    ensures s == Print(f, p) + rest && Legal(f, p)
    ensures AfterMarker(f, s, at, {}) ==
            if IsFile(p.head) then FileOutcome(f, p.content) else AfterMarker(f, rest, at + |Print(f, p)|, {})
  {
    hide FindHeaderEnd, IsFile, Find, ContentEnd, LegalHead, LegalContent, Part, AfterMarker, Print, FileOutcome;
    DoneByPieces(f, s, at);
    var n := LineBreak(s);
    var open := if n == 1 then Lf else Crlf;
    var block := s[n..];
    assert s == open.Text() + block;
    var e := FindHeaderEnd(block);
    var blank := if e.separator == 4 then Crlf else Lf;
    var body := block[e.start + e.separator..];
    RetraceHead(block);
    var i := Find(body, f.Delimiter());
    var end := ContentEnd(body, i);
    var close := if end == i then Lf else Crlf;
    RetraceContent(f, body);
    p, rest := PartText(open, block[..e.start], blank, body[..end], close), body[i + |f.Delimiter()|..];
    assert block == (p.head + p.blank.BlankLine()) + (p.content + p.close.Text() + f.Marker() + rest);
    PrintRegrouped(f, p, rest);
    PartReadBack(f, p, rest, at, {});
  }

  /** The parse of `s` after a marker retraced as the parts it went through, the last being the file. */
  lemma {:induction false} RetraceParts(f: Frame, s: Bytes, at: nat) returns (parts: seq<PartText>, tail: Bytes)
    requires AfterMarker(f, s, at, {}).Done?
    ensures s == PrintParts(f, parts, tail) && LegalParts(f, parts)
    ensures FirstFile(parts) == Some(AfterMarker(f, s, at, {}).content)
    ensures parts != [] && FirstFile(parts[..|parts| - 1]).None?
    decreases |s|
  {
    hide IsFile, Legal, AfterMarker;
    var p, rest := RetracePart(f, s, at);
    if IsFile(p.head) {
      parts, tail := [p], rest;
      assert parts[..0] == [];
      assert PrintParts(f, parts[1..], tail) == rest;
    } else {
      var later;
      later, tail := RetraceParts(f, rest, at + |Print(f, p)|);
      parts := [p] + later;
      assert parts[1..] == later;
      assert parts[..|parts| - 1][1..] == later[..|later| - 1];
    }
  }

  /** A parse that yields a file found a line break, a header block and a delimiter. */
  lemma DoneByPieces(f: Frame, s: Bytes, at: nat)
    requires AfterMarker(f, s, at, {}).Done?
    ensures var n := LineBreak(s);
            var e := FindHeaderEnd(s[n..]);
            && n > 0 && AfterMarker(f, s, at, {}) == Part(f, s[n..], at + n, {})
            && e.EndsAt? && e.start <= HEADER_CAP
            && Find(s[n + e.start + e.separator..], f.Delimiter()) >= 0
            && s[n..][e.start + e.separator..] == s[n + e.start + e.separator..]
  {
    hide FindHeaderEnd, IsFile, Find, ContentEnd;
    var n := LineBreak(s);
    var e := FindHeaderEnd(s[n..]);
    if e.EndsAt? {
      assert s[n..][e.start + e.separator..] == s[n + e.start + e.separator..];
    }
  }

  lemma RetraceHead(block: Bytes)
    requires FindHeaderEnd(block).EndsAt? && FindHeaderEnd(block).start <= HEADER_CAP
    ensures var e := FindHeaderEnd(block);
            var blank := if e.separator == 4 then Crlf else Lf;
            && block == block[..e.start] + blank.BlankLine() + block[e.start + e.separator..]
            && LegalHead(block[..e.start], blank)
  {
    hide FindHeaderEnd;
    var e := FindHeaderEnd(block);
    var blank := if e.separator == 4 then Crlf else Lf;
    var prefix, rest := block[..e.start + e.separator], block[e.start + e.separator..];
    assert prefix == block[..e.start] + blank.BlankLine();
    assert block == prefix + rest;
    if FindHeaderEnd(prefix).Unterminated? {
      HeaderEndLate(prefix, rest);
    } else {
      HeaderEndStable(prefix, rest);
    }
  }

  lemma CloseText(f: Frame, body: Bytes, i: nat)
    requires OccursAt(body, f.Delimiter(), i)
    ensures var end := ContentEnd(body, i);
            body[..i + |f.Delimiter()|] == body[..end] + (if end == i then Lf else Crlf).Text() + f.Marker()
  {
    var end := ContentEnd(body, i);
    assert body[..i + |f.Delimiter()|] == body[..i] + ([LF] + f.Marker());
    if end < i {
      assert body[..i] == body[..end] + [CR];
    }
  }

  lemma RetraceContent(f: Frame, body: Bytes)
    requires Find(body, f.Delimiter()) >= 0
    ensures var i := Find(body, f.Delimiter());
            var end := ContentEnd(body, i);
            var close := if end == i then Lf else Crlf;
            && body == body[..end] + close.Text() + f.Marker() + body[i + |f.Delimiter()|..]
            && LegalContent(f, body[..end], close)
  {
    hide Find, OccursAt;
    var d := f.Delimiter();
    var i := Find(body, d);
    var end := ContentEnd(body, i);
    var close := if end == i then Lf else Crlf;
    var prefix, rest := body[..i + |d|], body[i + |d|..];
    assert body == prefix + rest;
    CloseText(f, body, i);
    if Find(prefix, d) < 0 {
      FindLate(prefix, rest, d);
    } else {
      FindStable(prefix, rest, d);
    }
  }

  ghost predicate PrintedWithFile(f: Frame, body: Bytes, c: Bytes, preamble: Bytes, parts: seq<PartText>, tail: Bytes) {
    && body == PrintBody(f, preamble, parts, tail)
    && LegalPreamble(f, preamble) && LegalParts(f, parts)
    && FirstFile(parts) == Some(c)
  }

  /**
   The bodies that yield the file `c` are exactly the printed ones whose first
   file part is `c`, when `c` has between one byte and the limit.
   */
  lemma YieldsExactlyPrintedFiles(f: Frame, body: Bytes, c: Bytes)
    ensures ParseWhole(f, body) == Done(c)
            <==> 1 <= |c| <= f.maxBytes
                 && exists preamble, parts, tail :: PrintedWithFile(f, body, c, preamble, parts, tail)
  {
    hide AfterMarker, Find, LegalParts, FirstFile, PrintParts;
    if ParseWhole(f, body) == Done(c) {
      var i := Find(body, f.Marker());
      var next := i + |f.Marker()|;
      var parts, tail := RetraceParts(f, body[next..], next);
      var start := body[..next];
      assert start == body[..i] + f.Marker() && body == start + body[next..];
      if Find(start, f.Marker()) < 0 {
        FindLate(start, body[next..], f.Marker());
      } else {
        FindStable(start, body[next..], f.Marker());
      }
      assert PrintedWithFile(f, body, c, body[..i], parts, tail);
      BodyReadBack(f, body[..i], parts, tail, {});
    }
    if preamble, parts, tail :| PrintedWithFile(f, body, c, preamble, parts, tail) {
      BodyReadBack(f, preamble, parts, tail, {});
    }
  }
}
