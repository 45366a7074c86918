/** What the renderer keeps of a document: its lines, in order, and their text. */
module MarkdownLines {
  import opened Newlines
  import opened Stripping
  import opened Markdown

  // Blank text.

  lemma BlankConcat(a: string, b: string)
    ensures Blank(a + b, SPACES) <==> Blank(a, SPACES) && Blank(b, SPACES)
  {
    assert forall i :: 0 <= i < |a| ==> (a + b)[i] == a[i];
    assert forall i :: 0 <= i < |b| ==> (a + b)[|a| + i] == b[i];
  }

  lemma TrimBlank(s: string)
    ensures Trim(s) == "" <==> Blank(s, SPACES)
  {
    var i, j := StripCuts(s, SPACES);
    assert s == s[..i] + s[i..j] + s[j..];
    BlankConcat(s[..i], s[i..j]);
    BlankConcat(s[..i] + s[i..j], s[j..]);
    assert Trim(s) != "" ==> !Blank(s[i..j], SPACES);
  }

  lemma SpanBlank(s: Span)
    ensures Blank(RenderSpan(s), SPACES) <==> Blank(s.text, SPACES)
  {
    TrimBlank(s.text);
    if Trim(s.text) != "" {
      var i, j := StripCuts(s.text, SPACES);
      assert Emphasized(s)[0] !in SPACES;
      BlankConcat(Lead(s.text), Emphasized(s));
      BlankConcat(Lead(s.text) + Emphasized(s), Trail(s.text));
    }
  }

  lemma {:induction false} StyledBlank(line: Line)
    ensures Blank(Styled(line), SPACES) <==> Blank(Plain(line), SPACES)
  {
    if line != [] {
      SpanBlank(line[0]);
      StyledBlank(line[1..]);
      BlankConcat(RenderSpan(line[0]), Styled(line[1..]));
      BlankConcat(line[0].text, Plain(line[1..]));
    }
  }

  /** A line renders to nothing exactly if it holds no text. */
  lemma OnlyBlankLinesVanish(line: Line, body: real)
    ensures RenderLine(line, body) == "" <==> Blank(Plain(line), SPACES)
  {
    TrimBlank(Plain(line));
    TrimBlank(Styled(line));
    StyledBlank(line);
  }

  // Emphasis.

  lemma BlankEdges(text: string)
    ensures Blank(Lead(text), SPACES) && Blank(Trail(text), SPACES)
  {
    LStripCuts(text, SPACES);
    RStripCuts(text, SPACES);
  }

  function Stars(n: nat): string {
    seq(n, _ => '*')
  }

  /**
   A span that holds text keeps its blank edges and gets its core between two
   stars if it is bold, one if italic, three if both.
   */
  lemma EmphasisHugsTheCore(s: Span)
    requires !Blank(s.text, SPACES)
    ensures var n := (if IsBold(s) then 2 else 0) + (if IsItalic(s) then 1 else 0);
            RenderSpan(s) == Lead(s.text) + (Stars(n) + Trim(s.text) + Stars(n)) + Trail(s.text)
    ensures s.text == Lead(s.text) + Trim(s.text) + Trail(s.text)
    ensures Blank(Lead(s.text), SPACES) && Blank(Trail(s.text), SPACES) && Trimmed(Trim(s.text), SPACES)
  {
    TrimBlank(s.text);
    var i, j := StripCuts(s.text, SPACES);
    BlankEdges(s.text);
    CoreBetweenEdges(s.text);
    EmphasisIsStars(s);
    hide Emphasized, Lead, Trail, Strip, Blank, Stars;
  }

  lemma EmphasisIsStars(s: Span)
    ensures var n := (if IsBold(s) then 2 else 0) + (if IsItalic(s) then 1 else 0);
            Emphasized(s) == Stars(n) + Trim(s.text) + Stars(n)
  {
    hide Trim, IsBold, IsItalic;
    StarsAround("*", Stars(0), Trim(s.text));
    StarsAround("*", Stars(2), Trim(s.text));
    assert Stars(1) == "*" && Stars(2) == "**" && Stars(3) == "*" + Stars(2) == Stars(2) + "*";
  }

  lemma StarsAround(star: string, stars: string, core: string)
    ensures star + (stars + core + stars) + star == (star + stars) + core + (stars + star)
  {
  }

  /** Of a text that is not blank the two edges and the core are cut without overlap. */
  lemma CoreBetweenEdges(text: string)
    requires !Blank(text, SPACES)
    ensures text == Lead(text) + Trim(text) + Trail(text)
  {
    hide Lead, Trim, Trail, Blank;
    var i, j := EdgesAt(text);
    assert text == text[..i] + text[i..j] + text[j..];
  }

  lemma EdgesAt(text: string) returns (i: nat, j: nat)
    requires !Blank(text, SPACES)
    ensures i <= j <= |text| && Lead(text) == text[..i] && Trim(text) == text[i..j] && Trail(text) == text[j..]
  {
    i, j := CoreAt(text);
    TrimBlank(text);
    RStripCuts(text, SPACES);
    hide LStrip, Strip;
    SameTrail(text, j, |RStrip(text, SPACES)|);
  }

  lemma CoreAt(text: string) returns (i: nat, j: nat)
    ensures i <= j <= |text| && Lead(text) == text[..i] && Trim(text) == text[i..j] && Blank(text[j..], SPACES)
    ensures Trim(text) != "" ==> text[j - 1] !in SPACES
  {
    var left := LStrip(text, SPACES);
    LStripCuts(text, SPACES);
    RStripCuts(left, SPACES);
    hide LStrip, RStrip;
    i := |text| - |left|;
    j := i + |Trim(text)|;
    assert text[i..j] == left[..j - i] && text[j..] == left[j - i..];
    assert Trim(text) != "" ==> text[j - 1] == left[..j - i][j - i - 1];
  }

  /** The blank at the end of a text starts in one place only. */
  lemma SameTrail(text: string, j: nat, k: nat)
    requires j <= |text| && k <= |text| && Blank(text[j..], SPACES) && Blank(text[k..], SPACES)
    requires j > 0 ==> text[j - 1] !in SPACES
    requires k > 0 ==> text[k - 1] !in SPACES
    ensures j == k
  {
    BlankBeyond(text, j);
    BlankBeyond(text, k);
  }

  lemma BlankBeyond(text: string, j: nat)
    requires j <= |text| && Blank(text[j..], SPACES)
    ensures forall i :: j <= i < |text| ==> text[i] in SPACES
  {
    forall i | j <= i < |text| ensures text[i] in SPACES {
      assert text[i] == text[j..][i - j];
    }
  }

  // The text of a line.

  /** `out` is `text` with stars put in, and nothing else changed. */
  predicate AddsStars(out: string, text: string) {
    if out == "" then text == ""
    else
      || (text != "" && out[0] == text[0] && AddsStars(out[1..], text[1..]))
      || (out[0] == '*' && AddsStars(out[1..], text))
  }

  lemma {:induction false} AddsNone(text: string)
    ensures AddsStars(text, text)
  {
    if text != "" {
      AddsNone(text[1..]);
    }
  }

  lemma {:induction false} AddsStarsConcat(a: string, x: string, b: string, y: string)
    requires AddsStars(a, x) && AddsStars(b, y)
    ensures AddsStars(a + b, x + y)
  {
    if a == "" {
      assert a + b == b && x + y == y;
    } else {
      assert (a + b)[1..] == a[1..] + b;
      if x != "" && a[0] == x[0] && AddsStars(a[1..], x[1..]) {
        assert (x + y)[1..] == x[1..] + y;
        AddsStarsConcat(a[1..], x[1..], b, y);
      } else {
        AddsStarsConcat(a[1..], x, b, y);
      }
    }
  }

  lemma {:induction false} StarsAdded(n: nat)
    ensures AddsStars(Stars(n), "")
  {
    if n > 0 {
      assert Stars(n)[1..] == Stars(n - 1);
      StarsAdded(n - 1);
    }
  }

  /** A text and what it is shown as: the same blanks around a core that may gain stars. */
  datatype Framing = Framing(lead: string, shown: string, core: string, trail: string)

  predicate Frames(f: Framing, out: string, text: string) {
    && out == f.lead + f.shown + f.trail && text == f.lead + f.core + f.trail
    && Blank(f.lead, SPACES) && Blank(f.trail, SPACES)
    && Trimmed(f.shown, SPACES) && Trimmed(f.core, SPACES)
    && AddsStars(f.shown, f.core) && (f.shown == "" <==> f.core == "")
  }

  lemma FrameSpan(s: Span) returns (f: Framing)
    ensures Frames(f, RenderSpan(s), s.text)
  {
    TrimBlank(s.text);
    if Blank(s.text, SPACES) {
      f := Framing(s.text, "", "", "");
    } else {
      EmphasisHugsTheCore(s);
      var n := (if IsBold(s) then 2 else 0) + (if IsItalic(s) then 1 else 0);
      StarsAroundAdded(n, Trim(s.text));
      f := Framing(Lead(s.text), Stars(n) + Trim(s.text) + Stars(n), Trim(s.text), Trail(s.text));
    }
  }

  lemma StarsAroundAdded(n: nat, core: string)
    requires core != "" && Trimmed(core, SPACES)
    ensures var shown := Stars(n) + core + Stars(n); AddsStars(shown, core) && Trimmed(shown, SPACES)
  {
    hide AddsStars;
    StarsAdded(n);
    AddsNone(core);
    AddsStarsConcat(Stars(n), "", core, core);
    AddsStarsConcat(Stars(n) + core, "" + core, Stars(n), "");
    assert "" + core + "" == core;
  }

  lemma FrameConcat(f: Framing, a: string, x: string, g: Framing, b: string, y: string) returns (h: Framing)
    requires Frames(f, a, x) && Frames(g, b, y)
    ensures Frames(h, a + b, x + y)
  {
    var between := f.trail + g.lead;
    if f.core == "" {
      h := Framing(f.lead + between, g.shown, g.core, g.trail);
      FrameAfterBlank(f, a, x, g, b, y);
    } else if g.core == "" {
      h := Framing(f.lead, f.shown, f.core, between + g.trail);
      FrameBeforeBlank(f, a, x, g, b, y);
    } else {
      h := Framing(f.lead, f.shown + between + g.shown, f.core + between + g.core, g.trail);
      FrameBoth(f, a, x, g, b, y);
    }
  }

  lemma FrameAfterBlank(f: Framing, a: string, x: string, g: Framing, b: string, y: string)
    requires Frames(f, a, x) && Frames(g, b, y) && f.core == ""
    ensures Frames(Framing(f.lead + (f.trail + g.lead), g.shown, g.core, g.trail), a + b, x + y)
  {
    hide AddsStars, Trimmed;
    BlankBoth(f.trail, g.lead, SPACES);
    BlankBoth(f.lead, f.trail + g.lead, SPACES);
    hide Blank;
  }

  lemma FrameBeforeBlank(f: Framing, a: string, x: string, g: Framing, b: string, y: string)
    requires Frames(f, a, x) && Frames(g, b, y) && g.core == ""
    ensures Frames(Framing(f.lead, f.shown, f.core, f.trail + g.lead + g.trail), a + b, x + y)
  {
    hide AddsStars, Trimmed;
    BlankBoth(f.trail, g.lead, SPACES);
    BlankBoth(f.trail + g.lead, g.trail, SPACES);
    hide Blank;
  }

  lemma FrameBoth(f: Framing, a: string, x: string, g: Framing, b: string, y: string)
    requires Frames(f, a, x) && Frames(g, b, y) && f.core != "" && g.core != ""
    ensures var between := f.trail + g.lead;
            Frames(Framing(f.lead, f.shown + between + g.shown, f.core + between + g.core, g.trail), a + b, x + y)
  {
    hide AddsStars, Blank;
    var between := f.trail + g.lead;
    AddsNone(between);
    AddsStarsConcat(f.shown, f.core, between, between);
    AddsStarsConcat(f.shown + between, f.core + between, g.shown, g.core);
  }

  lemma {:induction false} FrameLine(line: Line) returns (f: Framing)
    ensures Frames(f, Styled(line), Plain(line))
  {
    if line == [] {
      f := Framing("", "", "", "");
    } else {
      var g := FrameSpan(line[0]);
      var h := FrameLine(line[1..]);
      hide Frames;
      f := FrameConcat(g, RenderSpan(line[0]), line[0].text, h, Styled(line[1..]), Plain(line[1..]));
    }
  }

  /** Apart from added stars a styled line is its text, blanks within it included. */
  lemma StyledIsText(line: Line)
    ensures AddsStars(Trim(Styled(line)), Trim(Plain(line)))
  {
    var f := FrameLine(line);
    StripBlanks(f.lead, f.shown, f.trail, SPACES);
    StripBlanks(f.lead, f.core, f.trail, SPACES);
  }

  /** The level of the heading a line is, if it is one. */
  function Level(line: Line, body: real): nat {
    HeadingLevel(if line == [] then body else MaxSize(line), body)
  }

  /** The line is body text behind a bullet. */
  predicate IsItem(line: Line, body: real) {
    Level(line, body) == 0 && IsBullet(Trim(Styled(line)))
  }

  /**
   No text of a line is lost, added or moved: a heading is the marks of its level,
   a blank and the text; any other line is the text with the stars of emphasis put
   in; and if that starts with a bullet, a dash and one blank stand for it and the
   blanks after it.
   */
  lemma LineKeepsText(line: Line, body: real)
    requires !Blank(Plain(line), SPACES)
    ensures var out, level, text := RenderLine(line, body), Level(line, body), Trim(Plain(line));
            && (level > 0 ==> out == Hashes(level) + " " + text)
            && (level == 0 && !IsItem(line, body) ==> AddsStars(out, text))
            && (IsItem(line, body) ==>
                  exists bullet, blanks ::
                    && bullet in BULLETS && Blank(blanks, SPACES) && |out| >= 2 && out[..2] == "- "
                    && AddsStars([bullet] + " " + blanks + out[2..], text)
                    && (|out| > 2 ==> out[2] !in SPACES))
  {
    TrimBlank(Plain(line));
    StyledIsText(line);
    OrderedCheckIsIdle(Trim(Styled(line)));
    if IsItem(line, body) {
      hide Trim, Plain, Styled, AddsStars;
      ItemKeepsText(Trim(Styled(line)), Trim(Plain(line)));
    }
  }

  lemma ItemKeepsText(styled: string, text: string)
    requires IsBullet(styled) && AddsStars(styled, text)
    ensures var out := "- " + LStrip(styled[2..], SPACES);
            exists bullet, blanks ::
              && bullet in BULLETS && Blank(blanks, SPACES) && |out| >= 2 && out[..2] == "- "
              && AddsStars([bullet] + " " + blanks + out[2..], text)
              && (|out| > 2 ==> out[2] !in SPACES)
  {
    var rest := styled[2..];
    LStripCuts(rest, SPACES);
    var k := |rest| - |LStrip(rest, SPACES)|;
    var out := "- " + LStrip(rest, SPACES);
    assert out[2..] == rest[k..];
    assert styled == [styled[0]] + " " + rest[..k] + out[2..];
  }

  /** The check for ordered items never changes what a line renders to. */
  lemma OrderedCheckIsIdle(text: string)
    ensures AsListItem(text) == if IsBullet(text) then "- " + LStrip(text[2..], SPACES) else text
  {
    if IsOrdered(text) {
      assert !IsBullet(text);
    }
  }

  /** What makes a line a heading, and of which level: one span large enough. */
  lemma {:induction false} LargestSpanDecides(line: Line, body: real)
    requires line != [] && body > 0.0
    ensures Level(line, body) == 1 <==> exists i :: 0 <= i < |line| && line[i].size >= 1.8 * body
    ensures 1 <= Level(line, body) <= 2 <==> exists i :: 0 <= i < |line| && line[i].size >= 1.5 * body
    ensures Level(line, body) > 0 <==> exists i :: 0 <= i < |line| && line[i].size >= 1.25 * body
  {
    MaxIsLargest(line);
    RatioIsProduct(MaxSize(line), body, 1.8);
    RatioIsProduct(MaxSize(line), body, 1.5);
    RatioIsProduct(MaxSize(line), body, 1.25);
  }

  lemma RatioIsProduct(size: real, body: real, ratio: real)
    requires body > 0.0
    ensures size / body >= ratio <==> size >= ratio * body
  {
    assert size == (size / body) * body;
  }

  lemma {:induction false} MaxIsLargest(line: Line)
    requires line != []
    ensures exists i :: 0 <= i < |line| && line[i].size == MaxSize(line)
    ensures forall i :: 0 <= i < |line| ==> line[i].size <= MaxSize(line)
  {
    if |line| > 1 {
      MaxIsLargest(line[1..]);
      var i :| 0 <= i < |line[1..]| && line[1..][i].size == MaxSize(line[1..]);
      if line[0].size >= MaxSize(line[1..]) {
        assert line[0].size == MaxSize(line);
      } else {
        assert line[i + 1].size == MaxSize(line);
      }
      assert forall i :: 1 <= i < |line| ==> line[i] == line[1..][i - 1];
    } else {
      assert line[0].size == MaxSize(line);
    }
  }

  // The lines of a document.

  predicate LineClean(line: Line) {
    forall i :: 0 <= i < |line| ==> NL !in line[i].text
  }

  predicate LinesClean(lines: seq<Line>) {
    forall l :: 0 <= l < |lines| ==> LineClean(lines[l])
  }

  predicate PageClean(page: Page) {
    forall b :: 0 <= b < |page| ==> LinesClean(page[b].lines)
  }

  /** No span holds a newline. */
  predicate Clean(pages: seq<Page>) {
    forall p :: 0 <= p < |pages| ==> PageClean(pages[p])
  }

  lemma SpanHasNoNewline(s: Span)
    requires NL !in s.text
    ensures NL !in RenderSpan(s)
  {
    StripKeepsOut(s.text, SPACES, NL);
    EdgesHaveNoNewline(s.text);
    hide Strip, Lead, Trail;
    assert NL !in Emphasized(s);
  }

  lemma EdgesHaveNoNewline(text: string)
    requires NL !in text
    ensures NL !in Lead(text) && NL !in Trail(text)
  {
    LStripCuts(text, SPACES);
    RStripCuts(text, SPACES);
  }

  lemma {:induction false} TextHasNoNewline(line: Line)
    requires LineClean(line)
    ensures NL !in Plain(line) && NL !in Styled(line)
  {
    if line != [] {
      SpanHasNoNewline(line[0]);
      TextHasNoNewline(line[1..]);
    }
  }

  lemma LineHasNoNewline(line: Line, body: real)
    requires LineClean(line)
    ensures NL !in RenderLine(line, body)
  {
    TextHasNoNewline(line);
    StripKeepsOut(Plain(line), SPACES, NL);
    StripKeepsOut(Styled(line), SPACES, NL);
    var styled := Trim(Styled(line));
    if IsBullet(styled) {
      LStripCuts(styled[2..], SPACES);
    }
  }
}
