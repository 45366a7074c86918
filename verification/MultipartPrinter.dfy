/**
 Bodies printed the way clients print them: header lines joined by one kind of
 line end and a disposition line naming the field.
 */
module MultipartPrinter {
  import opened ByteStrings
  import opened Options
  import opened PartHeaders
  import opened Stripping
  import opened HeaderNames
  import opened MultipartSpec
  import opened MultipartResume
  import opened MultipartStream
  import opened MultipartCuts
  import opened MultipartGrammar

  function JoinLines(lines: seq<Bytes>, eol: Eol): Bytes {
    if lines == [] then []
    else if |lines| == 1 then lines[0]
    else lines[0] + eol.Text() + JoinLines(lines[1..], eol)
  }

  /** A non-empty line without line ends of its own. */
  predicate ProperLine(line: Bytes) {
    line != [] && CR !in line && LF !in line
  }

  predicate ProperLines(lines: seq<Bytes>) {
    forall i :: 0 <= i < |lines| ==> ProperLine(lines[i])
  }

  datatype Section = Section(lines: seq<Bytes>, content: Bytes)

  /** The text of a section between its markers, the closing one included. */
  function PrintSection(f: Frame, s: Section, eol: Eol): Bytes {
    eol.Text() + JoinLines(s.lines, eol) + eol.BlankLine() + s.content + eol.Text() + f.Marker()
  }

  /** The text of the sections after the first marker, `tail` standing after the last marker. */
  function PrintSections(f: Frame, sections: seq<Section>, eol: Eol, tail: Bytes): Bytes {
    if sections == [] then tail else PrintSection(f, sections[0], eol) + PrintSections(f, sections[1..], eol, tail)
  }

  function PrintUpload(f: Frame, preamble: Bytes, sections: seq<Section>, eol: Eol, tail: Bytes): Bytes {
    preamble + f.Marker() + PrintSections(f, sections, eol, tail)
  }

  predicate EndsInCr(content: Bytes) {
    content != [] && content[|content| - 1] == CR
  }

  /** What is read back of a content: before a bare LF, a CR at its end is taken for part of the line end. */
  function AsRead(content: Bytes, eol: Eol): Bytes {
    if eol.Lf? && EndsInCr(content) then content[..|content| - 1] else content
  }

  /** A section as the part its text is. */
  function AsPart(s: Section, eol: Eol): PartText {
    PartText(eol, JoinLines(s.lines, eol), eol, AsRead(s.content, eol), if EndsInCr(s.content) then Crlf else eol)
  }

  function AsParts(sections: seq<Section>, eol: Eol): (parts: seq<PartText>)
    ensures |parts| == |sections|
    ensures forall i :: 0 <= i < |parts| ==> parts[i] == AsPart(sections[i], eol)
  {
    if sections == [] then [] else [AsPart(sections[0], eol)] + AsParts(sections[1..], eol)
  }

  lemma SameClose(head: Bytes, x: Bytes, y: Bytes, x': Bytes, y': Bytes)
    requires x + y == x' + y'
    ensures head + x + y == head + x' + y'
  {
    assert head + x + y == head + (x + y);
    assert head + x' + y' == head + (x' + y');
  }

  lemma SectionAsPart(f: Frame, s: Section, eol: Eol)
    ensures PrintSection(f, s, eol) == Print(f, AsPart(s, eol))
  {
    hide JoinLines;
    var p := AsPart(s, eol);
    if eol.Lf? && EndsInCr(s.content) {
      assert s.content == p.content + [CR];
      assert [CR] + [LF] == p.close.Text();
    }
    assert s.content + eol.Text() == p.content + p.close.Text();
    SameClose(eol.Text() + p.head + p.blank.BlankLine(), s.content, eol.Text(), p.content, p.close.Text());
  }

  lemma {:induction false} SectionsAsParts(f: Frame, sections: seq<Section>, eol: Eol, tail: Bytes)
    ensures PrintSections(f, sections, eol, tail) == PrintParts(f, AsParts(sections, eol), tail)
  {
    hide PrintSection, Print, AsPart;
    if sections != [] {
      SectionAsPart(f, sections[0], eol);
      SectionsAsParts(f, sections[1..], eol, tail);
      assert AsParts(sections, eol)[1..] == AsParts(sections[1..], eol);
    }
  }

  /**
   What the printer asks of a section: proper header lines within the cap, blank
   line included, and a content in which no delimiter stands.
   */
  predicate Printable(f: Frame, s: Section, eol: Eol) {
    && ProperLines(s.lines)
    && |JoinLines(s.lines, eol)| + |eol.BlankLine()| <= HEADER_CAP + 1
    && Find(s.content, f.Delimiter()) < 0
  }

  /** A boundary that stays on one line. */
  predicate ProperBoundary(f: Frame) {
    CR !in f.boundary && LF !in f.boundary
  }

  // Header lines.

  /** Every line feed is followed by a byte that neither ends nor starts a line end. */
  predicate LineSafe(h: Bytes) {
    forall i :: 0 <= i < |h| && h[i] == LF ==> i + 1 < |h| && h[i + 1] != CR && h[i + 1] != LF
  }

  lemma {:induction false} JoinedLinesSafe(lines: seq<Bytes>, eol: Eol)
    requires ProperLines(lines)
    ensures LineSafe(JoinLines(lines, eol))
    ensures lines != [] ==>
              var h := JoinLines(lines, eol); h != [] && h[0] != CR && h[0] != LF
  {
    if lines != [] {
      assert ProperLine(lines[0]);
      assert lines[0][0] in lines[0];
    }
    if |lines| >= 2 {
      JoinedLinesSafe(lines[1..], eol);
      var first, rest := lines[0] + eol.Text(), JoinLines(lines[1..], eol);
      var h := first + rest;
      assert JoinLines(lines, eol) == h;
      assert forall i :: 0 <= i < |lines[0]| ==> h[i] in lines[0];
      assert forall i :: |first| <= i < |h| ==> h[i] == rest[i - |first|];
    } else if |lines| == 1 {
      assert forall i :: 0 <= i < |lines[0]| ==> lines[0][i] in lines[0];
    }
  }

  /** The first blank line of a safe header block is the one printed after it. */
  lemma SafeHeadEnds(h: Bytes, eol: Eol)
    requires LineSafe(h)
    ensures FindHeaderEnd(h + eol.BlankLine()) == EndsAt(|h|, |eol.BlankLine()|)
  {
    var blank := eol.BlankLine();
    var s := h + blank;
    assert s[|h|..|h| + |blank|] == blank;
    forall i: nat | OccursAt(s, LFLF, i) ensures i >= |h| && eol.Lf? {
      OccurrenceByte(s, LFLF, i, 0);
      OccurrenceByte(s, LFLF, i, 1);
    }
    forall i: nat | OccursAt(s, CRLFCRLF, i) ensures i >= |h| && eol.Crlf? {
      OccurrenceByte(s, CRLFCRLF, i, 1);
      OccurrenceByte(s, CRLFCRLF, i, 2);
    }
    FindIs(s, blank, |h|);
  }

  // Content.

  /** No delimiter can straddle the line end that closes a content. */
  lemma PrintedContentLegal(f: Frame, content: Bytes, eol: Eol)
    requires ProperBoundary(f) && Find(content, f.Delimiter()) < 0
    requires eol.Lf? && content != [] ==> content[|content| - 1] != CR
    ensures LegalContent(f, content, eol)
  {
    var d, close := f.Delimiter(), eol.Text();
    var s := content + close + f.Marker();
    var hit := |content| + |close| - 1;
    assert d == [LF] + f.Marker();
    assert s[hit..] == d;
    assert OccursAt(s, d, hit);
    forall i: nat | i < hit && OccursAt(s, d, i) ensures i + |d| <= |content| {
      if i + |d| > |content| {
        // The delimiter would hold a byte of the line end past its own LF.
        OccurrenceByte(s, d, i, |content| - i);
        MarkerOnOneLine(f);
      }
    }
    forall i: nat | i < hit ensures !OccursAt(s, d, i) {
      if i + |d| <= |content| {
        assert content + (close + f.Marker()) == s;
        OccursInPrefix(content, close + f.Marker(), d, i);
      }
    }
    FindIs(s, d, hit);
  }

  lemma MarkerOnOneLine(f: Frame)
    requires ProperBoundary(f)
    ensures forall k :: 0 <= k < |f.Marker()| ==> f.Marker()[k] != CR && f.Marker()[k] != LF
  {
    assert forall k :: 2 <= k < |f.Marker()| ==> f.Marker()[k] == f.boundary[k - 2];
  }

  lemma PrintableIsLegal(f: Frame, s: Section, eol: Eol)
    requires ProperBoundary(f) && Printable(f, s, eol)
    ensures Legal(f, AsPart(s, eol))
  {
    JoinedLinesSafe(s.lines, eol);
    SafeHeadEnds(JoinLines(s.lines, eol), eol);
    if EndsInCr(s.content) && eol.Lf? {
      var content := AsRead(s.content, eol);
      assert content + [CR] == s.content;
      if Find(content, f.Delimiter()) >= 0 {
        FindStable(content, [CR], f.Delimiter());
      }
    }
    PrintedContentLegal(f, AsRead(s.content, eol), if EndsInCr(s.content) then Crlf else eol);
  }

  // Names.

  /** A line read with its CR still on it names what the line names. */
  lemma NameIgnoresCr(line: Bytes)
    ensures NameInLine(line + [CR]) == NameInLine(line)
  {
    StripAppended(line, CR, BYTE_SPACES);
  }

  /** The name a header block declares is the one its lines declare, whatever ends them. */
  lemma {:induction false} NameOfJoined(lines: seq<Bytes>, eol: Eol)
    requires ProperLines(lines)
    ensures PartName(JoinLines(lines, eol)) == NameInLines(lines)
  {
    hide NameInLine;
    if lines == [] {
      SplitWithout([], LF);
      EmptyLineNamesNothing();
      var none: seq<Bytes> := [[]];
      assert none[1..] == [];
    } else if |lines| == 1 {
      assert ProperLine(lines[0]);
      SplitWithout(lines[0], LF);
      assert lines[1..] == [];
      assert [lines[0]][1..] == [];
    } else {
      assert ProperLine(lines[0]);
      var rest := JoinLines(lines[1..], eol);
      var first := if eol.Lf? then lines[0] else lines[0] + [CR];
      assert lines[0] + eol.Text() + rest == first + [LF] + rest;
      SplitAtFirst(first, LF, rest);
      NameIgnoresCr(lines[0]);
      assert ([first] + Split(rest, LF))[1..] == Split(rest, LF);
      NameOfJoined(lines[1..], eol);
    }
  }

  lemma EmptyLineNamesNothing()
    ensures NameInLine([]) == None
  {
    SplitWithout([], COLON);
  }

  // The round trip.

  predicate PrintableAll(f: Frame, sections: seq<Section>, eol: Eol) {
    forall i :: 0 <= i < |sections| ==> Printable(f, sections[i], eol)
  }

  /** The content of the first section whose lines name the field `file`. */
  function FirstFileSection(sections: seq<Section>): Option<Bytes> {
    if sections == [] then None
    else if NameInLines(sections[0].lines) == Some(FILE_NAME) then Some(sections[0].content)
    else FirstFileSection(sections[1..])
  }

  lemma {:induction false} FirstFileOfSections(f: Frame, sections: seq<Section>, eol: Eol)
    requires PrintableAll(f, sections, eol)
    ensures FirstFile(AsParts(sections, eol)) ==
            if FirstFileSection(sections).Some? then Some(AsRead(FirstFileSection(sections).value, eol)) else None
  {
    if sections != [] {
      assert Printable(f, sections[0], eol);
      NameOfJoined(sections[0].lines, eol);
      assert AsParts(sections, eol)[1..] == AsParts(sections[1..], eol);
      FirstFileOfSections(f, sections[1..], eol);
    }
  }

  /**
   A printed upload, cut into chunks in any way at all, is read back as the
   content of its first `file` section, whatever sections come before or after
   it and whatever stands before the first marker or after the last section;
   without such a section, and closed, it lacks the field.
   */
  lemma PrintedUploadReadBack(f: Frame, eol: Eol, preamble: Bytes, sections: seq<Section>, tail: Bytes,
                              chunks: seq<Bytes>)
    requires ProperBoundary(f) && LegalPreamble(f, preamble) && PrintableAll(f, sections, eol)
    requires Concat(chunks) == PrintUpload(f, preamble, sections, eol, tail)
    ensures FirstFileSection(sections).Some? ==>
              Meaning(f, chunks) == FileOutcome(f, AsRead(FirstFileSection(sections).value, eol))
    ensures FirstFileSection(sections).None? && [DASH, DASH] <= tail ==> Meaning(f, chunks) == Failed(MissingField)
  {
    hide Legal, Printable, Parse, Cuts, PrintParts, PrintSections, FirstFile, FirstFileSection;
    var parts := AsParts(sections, eol);
    forall i | 0 <= i < |parts| ensures Legal(f, parts[i]) && WithRoom(parts[i]) {
      PrintableIsLegal(f, sections[i], eol);
      PrintableHasRoom(f, sections[i], eol);
    }
    SectionsAsParts(f, sections, eol, tail);
    FirstFileOfSections(f, sections, eol);
    BodyReadBack(f, preamble, parts, tail, Cuts(chunks));
  }

  /**
   The round trip is exact, for a file within the limits, if and only if the
   line ends are CRLF or the file does not end in CR.
   */
  lemma RoundTripExactly(f: Frame, eol: Eol, preamble: Bytes, sections: seq<Section>, tail: Bytes, chunks: seq<Bytes>)
    requires ProperBoundary(f) && LegalPreamble(f, preamble) && PrintableAll(f, sections, eol)
    requires Concat(chunks) == PrintUpload(f, preamble, sections, eol, tail)
    requires FirstFileSection(sections).Some? && 1 <= |FirstFileSection(sections).value| <= f.maxBytes
    ensures Meaning(f, chunks) == Done(FirstFileSection(sections).value)
            <==> eol.Crlf? || !EndsInCr(FirstFileSection(sections).value)
  {
    hide Meaning;
    PrintedUploadReadBack(f, eol, preamble, sections, tail, chunks);
  }

  lemma PrintableHasRoom(f: Frame, s: Section, eol: Eol)
    requires Printable(f, s, eol)
    ensures WithRoom(AsPart(s, eol))
  {
  }

  /** With nothing before the first marker the preamble is legal. */
  lemma EmptyPreambleLegal(f: Frame)
    ensures LegalPreamble(f, [])
  {
    var none: Bytes := [];
    assert none + f.Marker() == f.Marker();
    assert OccursAt(f.Marker(), f.Marker(), 0);
  }

  // A body on which the cuts do matter.

  /** A part whose header block ends exactly at the cap, its blank line past it. */
  function BrimfulPart(): PartText {
    PartText(Lf, seq(HEADER_CAP, _ => 97), Crlf, [], Lf)
  }

  /**
   For every boundary there is a body that lacks its file when delivered whole
   and is refused for its headers when delivered byte by byte.
   */
  lemma CutsMatter(f: Frame)
    requires ProperBoundary(f)
    ensures var body := PrintBody(f, [], [BrimfulPart()], [DASH, DASH]);
            && ParseWhole(f, body) == Failed(MissingField)
            && Meaning(f, Singles(body)) == Failed(HeadersTooLarge)
  {
    var p := BrimfulPart();
    var body := PrintBody(f, [], [p], [DASH, DASH]);
    BrimfulPartLegal(f);
    EmptyPreambleLegal(f);
    BrimfulIsNoFile();
    assert [p][1..] == [];
    BodyReadBack(f, [], [p], [DASH, DASH], {});
    BrimfulIsNotRoomy(f, body);
    SinglesAreTheBody(body);
    SinglesCutEverywhere(0, body);
    ParseCutEffect(f, body, Cuts(Singles(body)));
  }

  lemma BrimfulPartLegal(f: Frame)
    requires ProperBoundary(f)
    ensures Legal(f, BrimfulPart())
  {
    SafeHeadEnds(BrimfulPart().head, Crlf);
    PrintedContentLegal(f, [], Lf);
  }

  lemma NoColonNamesNothing(line: Bytes)
    requires COLON !in line
    ensures NameInLine(line) == None
  {
    hide Strip, Find;
    StripKeepsOut(line, BYTE_SPACES, COLON);
    SplitWithout(Strip(line, BYTE_SPACES), COLON);
  }

  lemma BrimfulIsNoFile()
    ensures !IsFile(BrimfulPart().head)
  {
    hide Split, PartName, NameInLine;
    var lines := [BrimfulPart().head];
    NameOfJoined(lines, Lf);
    NoColonNamesNothing(lines[0]);
    assert lines[1..] == [];
  }

  lemma BrimfulIsNotRoomy(f: Frame, body: Bytes)
    requires ProperBoundary(f) && body == PrintBody(f, [], [BrimfulPart()], [DASH, DASH])
    ensures !RoomyHeaders(f, body)
  {
    hide FindHeaderEnd, Find, Print;
    var p, m := BrimfulPart(), f.Marker();
    var block := p.head + p.blank.BlankLine();
    var rest := p.content + p.close.Text() + m + [DASH, DASH];
    var parts, none: Bytes := [p], [];
    assert parts[1..] == [];
    assert PrintParts(f, parts, [DASH, DASH]) == Print(f, p) + [DASH, DASH];
    PrintRegrouped(f, p, [DASH, DASH]);
    assert none + m == m;
    var s := [LF] + (block + rest);
    assert body == m + s;
    assert OccursAt(body, m, 0);
    FindIs(body, m, 0);
    assert body[|m|..] == s && s[1..] == block + rest;
    BrimfulPartLegal(f);
    HeaderEndStable(block, rest);
    assert !RoomyPart(f, block + rest);
    assert LineBreak(s) == 1;
    assert !RoomyAfterMarker(f, s);
  }
}
