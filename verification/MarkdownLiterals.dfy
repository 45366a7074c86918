/** Renderings spelled out: the renderer's constants, and what the simplest texts come to. */
module MarkdownLiterals {
  import opened Stripping
  import opened Markdown
  import opened MarkdownLines

  /** What counts as blank. */
  lemma BlanksSpelled(c: char)
    ensures c in SPACES <==>
            var n := c as int;
            || 9 <= n <= 13 || 28 <= n <= 32 || n == 0x85 || n == 0xA0 || n == 0x1680 || 0x2000 <= n <= 0x200A
            || n == 0x2028 || n == 0x2029 || n == 0x202F || n == 0x205F || n == 0x3000
  {
  }

  /** What counts as a bullet. */
  lemma BulletsSpelled(c: char)
    ensures c in BULLETS <==> c in "•·‣▪◦●○-*"
  {
    var bullets := "•·‣▪◦●○-*";
    assert BULLETS == bullets;
  }

  /** A text that can be a core. */
  predicate Core(text: string) {
    text != "" && Trimmed(text, SPACES)
  }

  lemma CoreIsItself(text: string)
    requires Core(text)
    ensures Trim(text) == text && Lead(text) == "" && Trail(text) == ""
  {
    StripTrimmed(text, SPACES);
    LStripLead("", text, SPACES);
    RStripTrail(text, "", SPACES);
    assert "" + text == text && text + "" == text;
    assert text[|text|..] == "" && text[..0] == "";
  }

  /**
   Bit 4 of the flags makes a span bold, bit 1 italic, and no other bit matters:
   `flags` is 32 times `a`, with bits 4 and 1 as given and the others in between.
   */
  lemma FlagsSpelled(text: string, size: real, a: nat, bold: bool, y: nat, italic: bool, v: nat)
    requires Core(text) && y < 4 && v < 2
    ensures var flags := 32 * a + (if bold then 16 else 0) + 4 * y + (if italic then 2 else 0) + v;
            RenderSpan(Span(text, size, flags)) ==
            if bold && italic then "***" + text + "***"
            else if bold then "**" + text + "**"
            else if italic then "*" + text + "*"
            else text
  {
    var flags := 32 * a + (if bold then 16 else 0) + 4 * y + (if italic then 2 else 0) + v;
    FlagBits(a, bold, y, italic, v);
    SpanShown(Span(text, size, flags));
  }

  lemma SpanShown(s: Span)
    requires Core(s.text)
    ensures RenderSpan(s) ==
            if IsBold(s) && IsItalic(s) then "***" + s.text + "***"
            else if IsBold(s) then "**" + s.text + "**"
            else if IsItalic(s) then "*" + s.text + "*"
            else s.text
  {
    CoreIsItself(s.text);
    assert !Blank(s.text, SPACES);
    EmphasisHugsTheCore(s);
    StarsSpelled();
    hide IsBold, IsItalic, RenderSpan, Stars, Lead, Trail, Trim, Blank;
    var n := (if IsBold(s) then 2 else 0) + (if IsItalic(s) then 1 else 0);
    NothingAround(Stars(n) + s.text + Stars(n));
    NothingAround(s.text);
  }

  lemma StarsSpelled()
    ensures Stars(0) == "" && Stars(1) == "*" && Stars(2) == "**" && Stars(3) == "***"
  {
  }

  lemma NothingAround(s: string)
    ensures "" + s + "" == s
  {
  }

  lemma FlagBits(a: nat, bold: bool, y: nat, italic: bool, v: nat)
    requires y < 4 && v < 2
    ensures var flags := 32 * a + (if bold then 16 else 0) + 4 * y + (if italic then 2 else 0) + v;
            forall s: Span :: s.flags == flags ==> IsBold(s) == bold && IsItalic(s) == italic
  {
    BitsSpelled(a, if bold then 1 else 0, y, if italic then 1 else 0, v);
  }

  lemma BitsSpelled(a: nat, b: nat, y: nat, i: nat, v: nat)
    requires b < 2 && y < 4 && i < 2 && v < 2
    ensures var flags := 32 * a + 16 * b + 4 * y + 2 * i + v;
            flags / 16 % 2 == b && flags / 2 % 2 == i
  {
    var flags := 32 * a + 16 * b + 4 * y + 2 * i + v;
    Sixteens(2 * a + b, 4 * y + 2 * i + v);
    Twos(a, b);
    Twos(2 * (4 * a + 2 * b) + y, i);
    Halves(16 * a + 8 * b + 2 * y + i, v);
    assert 2 * (2 * (4 * a + 2 * b) + y) + i == 16 * a + 8 * b + 2 * y + i;
  }

  lemma Sixteens(q: nat, r: nat)
    requires r < 16
    ensures (16 * q + r) / 16 == q
  {
  }

  lemma Halves(q: nat, r: nat)
    requires r < 2
    ensures (2 * q + r) / 2 == q
  {
  }

  lemma Twos(q: nat, r: nat)
    requires r < 2
    ensures (2 * q + r) % 2 == r
  {
  }

  /** A line of one unflagged span. */
  function PlainLine(text: string, size: real): Line {
    [Span(text, size, 0)]
  }

  lemma PlainLineIsText(text: string, size: real)
    requires Core(text)
    ensures Plain(PlainLine(text, size)) == text && Styled(PlainLine(text, size)) == text
    ensures Trim(text) == text && !Blank(text, SPACES) && MaxSize(PlainLine(text, size)) == size
  {
    var line := PlainLine(text, size);
    assert line[1..] == [];
    CoreIsItself(text);
    FlagsSpelled(text, size, 0, false, 0, false, 0);
    assert text + "" == text;
  }

  lemma LevelBySize(size: real, body: real)
    requires body > 0.0
    ensures HeadingLevel(size, body) ==
            if size >= 1.8 * body then 1 else if size >= 1.5 * body then 2 else if size >= 1.25 * body then 3 else 0
  {
    RatioIsProduct(size, body, 1.8);
    RatioIsProduct(size, body, 1.5);
    RatioIsProduct(size, body, 1.25);
  }

  /** A line by its size: a heading of one of three levels, or itself. */
  lemma HeadingsSpelled(text: string, size: real, body: real)
    requires Core(text) && body > 0.0 && !IsBullet(text)
    ensures RenderLine(PlainLine(text, size), body) ==
            if size >= 1.8 * body then "# " + text
            else if size >= 1.5 * body then "## " + text
            else if size >= 1.25 * body then "### " + text
            else text
  {
    LevelBySize(size, body);
    hide HeadingLevel;
    LineByLevel(text, size, body);
    HashesSpelled();
    HashedIs("#", text);
    HashedIs("##", text);
    HashedIs("###", text);
  }

  lemma LineByLevel(text: string, size: real, body: real)
    requires Core(text) && !IsBullet(text)
    ensures var level := HeadingLevel(size, body);
            RenderLine(PlainLine(text, size), body) == if level > 0 then Hashes(level) + " " + text else text
  {
    PlainLineIsText(text, size);
    LineIsThere(text, size);
    OrderedCheckIsIdle(text);
    hide HeadingLevel, Plain, Styled, MaxSize, Hashes, IsBullet, Trim, Blank, PlainLine;
  }

  lemma LineIsThere(text: string, size: real)
    ensures PlainLine(text, size) != []
  {
  }

  lemma HashesSpelled()
    ensures Hashes(1) == "#" && Hashes(2) == "##" && Hashes(3) == "###"
  {
  }

  lemma HashedIs(hashes: string, text: string)
    requires hashes in {"#", "##", "###"}
    ensures hashes + " " + text ==
            (if hashes == "#" then "# " else if hashes == "##" then "## " else "### ") + text
  {
    assert "#" + " " == "# " && "##" + " " == "## " && "###" + " " == "### ";
  }

  /** Without a body size nothing is a heading. */
  lemma NoBodyNoHeading(text: string, size: real, body: real)
    requires Core(text) && body <= 0.0 && !IsBullet(text)
    ensures RenderLine(PlainLine(text, size), body) == text
  {
    LineByLevel(text, size, body);
  }

  /** A bullet, blanks and text: a dash, one blank and the text. */
  lemma ItemsSpelled(bullet: char, blanks: string, text: string)
    requires bullet in "•·‣▪◦●○-*" && Blank(blanks, SPACES) && Core(text)
    ensures RenderLine(PlainLine([bullet] + " " + blanks + text, 10.0), 10.0) == "- " + text
  {
    var all := [bullet] + " " + blanks + text;
    BulletsSpelled(bullet);
    BulletsShow(bullet);
    ItemShape(bullet, blanks, text);
    PlainLineIsText(all, 10.0);
    OrderedCheckIsIdle(all);
  }

  lemma ItemShape(bullet: char, blanks: string, text: string)
    requires bullet in BULLETS && bullet !in SPACES && Blank(blanks, SPACES) && Core(text)
    ensures var all := [bullet] + " " + blanks + text;
            IsBullet(all) && Core(all) && LStrip(all[2..], SPACES) == text
  {
    var all := [bullet] + " " + blanks + text;
    assert all[0] == bullet && all[1] == ' ' && all[|all| - 1] == text[|text| - 1];
    assert all[2..] == blanks + text;
    LStripLead(blanks, text, SPACES);
  }

  lemma BulletsShow(bullet: char)
    requires bullet in BULLETS
    ensures bullet !in SPACES
  {
  }

  // The body size.

  /** The nearest tenth, the even one if two are. */
  lemma RoundIsNearest(x: real) returns (n: int)
    ensures Round(x) == n as real / 10.0
    ensures -0.5 <= x * 10.0 - n as real <= 0.5
    ensures x * 10.0 - n as real == 0.5 || x * 10.0 - n as real == -0.5 ==> n % 2 == 0
  {
    var tenths := (x * 10.0).Floor;
    var rest := x * 10.0 - tenths as real;
    n := if rest > 0.5 || (rest == 0.5 && tenths % 2 == 1) then tenths + 1 else tenths;
  }

  /** A page of one line of two spans. */
  function TwoSpans(a: Span, b: Span): Page {
    [Block(0, [[a, b]])]
  }

  lemma TwoSpansSamples(a: Span, b: Span)
    ensures PageSamples(TwoSpans(a, b)) == SampleOf(a) + SampleOf(b)
  {
    hide SampleOf;
    var line := [a, b];
    var none: seq<Sample> := [];
    assert line[..1] == [a] && [a][..0] == [];
    assert LineSamples([a]) == none + SampleOf(a) == SampleOf(a);
    assert LineSamples(line) == SampleOf(a) + SampleOf(b);
    assert BlockSamples([line]) == none + LineSamples(line) == LineSamples(line);
    var page := TwoSpans(a, b);
    assert page[..0] == [];
    assert PageSamples(page) == none + BlockSamples([line]) == BlockSamples([line]);
  }

  lemma TwoSizes(x: Sample, y: Sample)
    requires x.size != y.size
    ensures Sizes([x, y]) == [x.size, y.size]
    ensures Weight([x, y], x.size) == x.weight && Weight([x, y], y.size) == y.weight
  {
    assert [x, y][..1] == [x] && [x][..0] == [];
    assert Sizes([x]) == [x.size];
    assert Weight([x], x.size) == x.weight && Weight([x], y.size) == 0;
  }

  /** Of two spans in different sizes the one with more text, or else the first, gives the body size. */
  lemma LongerSpanIsBody(a: Span, b: Span)
    requires !Blank(a.text, SPACES) && !Blank(b.text, SPACES) && Round(a.size) != Round(b.size)
    ensures BodySizeOf(TwoSpans(a, b)) == if |Trim(a.text)| >= |Trim(b.text)| then Round(a.size) else Round(b.size)
  {
    TwoSpansSamples(a, b);
    TrimBlank(a.text);
    TrimBlank(b.text);
    var x, y := Sample(Round(a.size), |Trim(a.text)|), Sample(Round(b.size), |Trim(b.text)|);
    var samples := [x, y];
    assert SampleOf(a) + SampleOf(b) == samples;
    assert PageSamples(TwoSpans(a, b)) == samples;
    TwoSizes(x, y);
    BestOfTwo(samples, x.size, y.size);
    hide Round, Trim, Weight, Sizes, Best, PageSamples;
  }

  lemma BestOfTwo(samples: seq<Sample>, p: real, q: real)
    ensures Best(samples, [p, q]) == if Weight(samples, q) > Weight(samples, p) then q else p
  {
    assert [p, q][..1] == [p];
    assert Best(samples, [p]) == p;
  }
}
