/**
 The Markdown renderer of extracted text: spans become styled runs, lines become
 headings, list items or paragraph lines, blocks paragraphs, pages a document.
 */
module Markdown {
  import opened Newlines
  import opened Stripping

  datatype Span = Span(text: string, size: real, flags: nat)

  type Line = seq<Span>

  datatype Block = Block(kind: int, lines: seq<Line>)

  type Page = seq<Block>

  /** What `str.strip()` removes. */
  const SPACES: set<char> := {
    '\t', '\n', '\U{0b}', '\U{0c}', '\r', '\U{1c}', '\U{1d}', '\U{1e}', '\U{1f}', ' ', '\U{85}', '\U{a0}',
    '\U{1680}', '\U{2000}', '\U{2001}', '\U{2002}', '\U{2003}', '\U{2004}', '\U{2005}', '\U{2006}', '\U{2007}',
    '\U{2008}', '\U{2009}', '\U{200a}', '\U{2028}', '\U{2029}', '\U{202f}', '\U{205f}', '\U{3000}'
  }

  const BULLETS: seq<char> := [
    '\U{2022}', '\U{b7}', '\U{2023}', '\U{25aa}', '\U{25e6}', '\U{25cf}', '\U{25cb}', '-', '*'
  ]

  /** `flags & 16`. */
  predicate IsBold(s: Span) {
    s.flags / 16 % 2 == 1
  }

  /** `flags & 2`. */
  predicate IsItalic(s: Span) {
    s.flags / 2 % 2 == 1
  }

  function Trim(s: string): string {
    Strip(s, SPACES)
  }

  function Plain(line: Line): string {
    if line == [] then "" else line[0].text + Plain(line[1..])
  }

  function Emphasized(s: Span): string {
    var core := Trim(s.text);
    var bold := if IsBold(s) then "**" + core + "**" else core;
    if IsItalic(s) then "*" + bold + "*" else bold
  }

  /** The text of a span with its core emphasized and its blank edges kept. */
  function RenderSpan(s: Span): string {
    if Trim(s.text) == "" then s.text
    else Lead(s.text) + Emphasized(s) + Trail(s.text)
  }

  /** The blank before the core of a text, and the one after it. */
  function Lead(text: string): string {
    LStripCuts(text, SPACES);
    text[..|text| - |LStrip(text, SPACES)|]
  }

  function Trail(text: string): string {
    RStripCuts(text, SPACES);
    text[|RStrip(text, SPACES)|..]
  }

  function Styled(line: Line): string {
    if line == [] then "" else RenderSpan(line[0]) + Styled(line[1..])
  }

  function MaxSize(line: Line): real
    requires line != []
  {
    if |line| == 1 then line[0].size
    else
      var rest := MaxSize(line[1..]);
      if line[0].size >= rest then line[0].size else rest
  }

  /** How prominent a heading of this size is, from 1 down to 3; 0 if it is none. */
  function HeadingLevel(size: real, body: real): (level: nat)
    ensures level <= 3
  {
    if body <= 0.0 then 0
    else if size / body >= 1.8 then 1
    else if size / body >= 1.5 then 2
    else if size / body >= 1.25 then 3
    else 0
  }

  predicate IsDigit(c: char) {
    '0' <= c <= '9'
  }

  /** Up to three digits, a point or parenthesis, and a blank. */
  predicate IsOrdered(text: string) {
    exists k :: 1 <= k <= 3 && IsOrderedAt(text, k)
  }

  predicate IsOrderedAt(text: string, k: nat) {
    k + 1 < |text| && (forall i :: 0 <= i < k ==> IsDigit(text[i])) && text[k] in {'.', ')'} && text[k + 1] in SPACES
  }

  predicate IsBullet(text: string) {
    |text| >= 2 && text[0] in BULLETS && text[1] == ' '
  }

  /** The list item the text stands for, or the text. */
  function AsListItem(text: string): string {
    if IsOrdered(text) then text
    else if IsBullet(text) then "- " + LStrip(text[2..], SPACES)
    else text
  }

  function RenderLine(line: Line, body: real): string {
    if Trim(Plain(line)) == "" then ""
    else
      var level := HeadingLevel(if line == [] then body else MaxSize(line), body);
      if level > 0 then Hashes(level) + " " + Trim(Plain(line))
      else AsListItem(Trim(Styled(line)))
  }

  function Hashes(n: nat): string {
    seq(n, _ => '#')
  }

  // The body size.

  /** A span's size to one decimal, and how much text it carries. */
  datatype Sample = Sample(size: real, weight: nat)

  /** To one decimal, halves to even. */
  function Round(x: real): real {
    var tenths := (x * 10.0).Floor;
    var rest := x * 10.0 - tenths as real;
    var up := rest > 0.5 || (rest == 0.5 && tenths % 2 == 1);
    (if up then tenths + 1 else tenths) as real / 10.0
  }

  function SampleOf(s: Span): seq<Sample> {
    var text := Trim(s.text);
    if text == "" then [] else [Sample(Round(s.size), |text|)]
  }

  function LineSamples(line: Line): seq<Sample> {
    if line == [] then [] else LineSamples(line[..|line| - 1]) + SampleOf(line[|line| - 1])
  }

  function BlockSamples(lines: seq<Line>): seq<Sample> {
    if lines == [] then [] else BlockSamples(lines[..|lines| - 1]) + LineSamples(lines[|lines| - 1])
  }

  /** The samples of the text blocks, in reading order. */
  function PageSamples(page: Page): seq<Sample> {
    if page == [] then []
    else
      var last := page[|page| - 1];
      PageSamples(page[..|page| - 1]) + (if last.kind == 0 then BlockSamples(last.lines) else [])
  }

  function Weight(samples: seq<Sample>, size: real): nat {
    if samples == [] then 0
    else
      var last := samples[|samples| - 1];
      Weight(samples[..|samples| - 1], size) + (if last.size == size then last.weight else 0)
  }

  /** The sizes in the order in which they first occur. */
  function Sizes(samples: seq<Sample>): seq<real> {
    if samples == [] then []
    else
      var before := Sizes(samples[..|samples| - 1]);
      var size := samples[|samples| - 1].size;
      if size in before then before else before + [size]
  }

  /** Of the sizes, the first that carries the most text. */
  ghost predicate IsHeaviest(samples: seq<Sample>, size: real) {
    var sizes := Sizes(samples);
    exists i :: 0 <= i < |sizes| && sizes[i] == size && Wins(samples, sizes, i)
  }

  ghost predicate Wins(samples: seq<Sample>, sizes: seq<real>, i: int)
    requires 0 <= i < |sizes|
  {
    && (forall j :: 0 <= j < i ==> Weight(samples, sizes[j]) < Weight(samples, sizes[i]))
    && (forall j :: i <= j < |sizes| ==> Weight(samples, sizes[j]) <= Weight(samples, sizes[i]))
  }

  ghost predicate IsBodySize(page: Page, size: real) {
    var samples := PageSamples(page);
    if samples == [] then size == 0.0 else IsHeaviest(samples, size)
  }

  /** The first of the sizes that carries the most text. */
  function Best(samples: seq<Sample>, sizes: seq<real>): (best: real)
    requires sizes != []
  {
    var last := sizes[|sizes| - 1];
    if |sizes| == 1 then last
    else
      var best := Best(samples, sizes[..|sizes| - 1]);
      if Weight(samples, last) > Weight(samples, best) then last else best
  }

  function BodySizeOf(page: Page): real {
    var sizes := Sizes(PageSamples(page));
    if sizes == [] then 0.0 else Best(PageSamples(page), sizes)
  }

  lemma {:induction false} BestWins(samples: seq<Sample>, sizes: seq<real>) returns (i: nat)
    requires sizes != []
    ensures i < |sizes| && sizes[i] == Best(samples, sizes) && Wins(samples, sizes, i)
  {
    if |sizes| == 1 {
      i := 0;
    } else {
      var before := sizes[..|sizes| - 1];
      i := BestWins(samples, before);
      assert forall j :: 0 <= j < |before| ==> before[j] == sizes[j];
      if Weight(samples, sizes[|sizes| - 1]) > Weight(samples, before[i]) {
        i := |sizes| - 1;
      }
    }
  }

  /** The body size of a page is the size that carries the most text, the first on a tie; 0 without text. */
  lemma BodySizeIsHeaviest(page: Page, size: real)
    ensures IsBodySize(page, size) <==> size == BodySizeOf(page)
  {
    var samples := PageSamples(page);
    var sizes := Sizes(samples);
    if samples != [] {
      var i := BestWins(samples, sizes);
      if IsBodySize(page, size) {
        var j :| 0 <= j < |sizes| && sizes[j] == size && Wins(samples, sizes, j);
      }
    }
  }

  /** The table of weights, with its keys in order of insertion. */
  ghost predicate Tabulates(samples: seq<Sample>, keys: seq<real>, weights: map<real, nat>) {
    && keys == Sizes(samples)
    && (forall k :: k in weights ==> k in keys)
    && (forall i :: 0 <= i < |keys| ==> keys[i] in weights)
    && (forall k :: k in weights ==> weights[k] == Weight(samples, k))
  }

  lemma TabulatesOneMore(samples: seq<Sample>, keys: seq<real>, weights: map<real, nat>, next: Sample)
    requires Tabulates(samples, keys, weights)
    ensures var weight := if next.size in weights then weights[next.size] else 0;
            Tabulates(samples + [next], if next.size in weights then keys else keys + [next.size],
                      weights[next.size := weight + next.weight])
  {
    var more := samples + [next];
    assert more[..|more| - 1] == samples;
    WeightOfAbsent(samples, next.size);
  }

  lemma {:induction false} WeightOfAbsent(samples: seq<Sample>, size: real)
    ensures size !in Sizes(samples) ==> Weight(samples, size) == 0
  {
    if samples != [] {
      WeightOfAbsent(samples[..|samples| - 1], size);
    }
  }

  lemma TabulatesNothing()
    ensures Tabulates([], [], map[])
  {
  }

  lemma TabulatesKey(samples: seq<Sample>, keys: seq<real>, weights: map<real, nat>, i: nat)
    requires Tabulates(samples, keys, weights) && i < |keys|
    ensures keys[i] in weights && weights[keys[i]] == Weight(samples, keys[i])
  {
    assert keys[i] in keys;
  }

  lemma TabulatesKeys(samples: seq<Sample>, keys: seq<real>, weights: map<real, nat>)
    requires Tabulates(samples, keys, weights)
    ensures keys == Sizes(samples)
  {
  }

  /** The key with the greatest weight, the first inserted on a tie. */
  method Heaviest(keys: seq<real>, weights: map<real, nat>, ghost samples: seq<Sample>) returns (size: real)
    requires keys != [] && Tabulates(samples, keys, weights)
    ensures size == Best(samples, keys)
  {
    hide Tabulates;
    size := keys[0];
    assert keys[..1] == [keys[0]];
    TabulatesKey(samples, keys, weights, 0);
    for i := 1 to |keys|
      invariant size in weights && weights[size] == Weight(samples, size) && size == Best(samples, keys[..i])
    {
      assert keys[..i + 1][..i] == keys[..i];
      TabulatesKey(samples, keys, weights, i);
      if weights[keys[i]] > weights[size] {
        size := keys[i];
      }
    }
    assert keys[..|keys|] == keys;
  }

  /** Add a line's text to the table. */
  method CountLine(line: Line, keys: seq<real>, weights: map<real, nat>, ghost samples: seq<Sample>)
    returns (keys': seq<real>, weights': map<real, nat>)
    requires Tabulates(samples, keys, weights)
    ensures Tabulates(samples + LineSamples(line), keys', weights')
  {
    hide Tabulates, Trim, Round;
    keys', weights' := keys, weights;
    assert samples + LineSamples(line[..0]) == samples;
    for i := 0 to |line|
      invariant Tabulates(samples + LineSamples(line[..i]), keys', weights')
    {
      assert line[..i + 1][..i] == line[..i];
      ghost var before := samples + LineSamples(line[..i]);
      var text := Trim(line[i].text);
      if text == "" {
        assert before == samples + LineSamples(line[..i + 1]);
      } else {
        var key := Round(line[i].size);
        TabulatesOneMore(before, keys', weights', Sample(key, |text|));
        assert before + [Sample(key, |text|)] == samples + LineSamples(line[..i + 1]);
        if key in weights' {
          weights' := weights'[key := weights'[key] + |text|];
        } else {
          keys', weights' := keys' + [key], weights'[key := |text|];
        }
      }
    }
    assert line[..|line|] == line;
  }

  method BodySize(page: Page) returns (size: real)
    ensures size == BodySizeOf(page)
  {
    hide Tabulates, LineSamples, Best;
    var keys: seq<real> := [];
    var weights: map<real, nat> := map[];
    TabulatesNothing();
    for b := 0 to |page|
      invariant Tabulates(PageSamples(page[..b]), keys, weights)
    {
      assert page[..b + 1][..b] == page[..b];
      ghost var before := PageSamples(page[..b]);
      if page[b].kind == 0 {
        var lines := page[b].lines;
        assert before + BlockSamples(lines[..0]) == before;
        for l := 0 to |lines|
          invariant Tabulates(before + BlockSamples(lines[..l]), keys, weights)
        {
          assert lines[..l + 1][..l] == lines[..l];
          keys, weights := CountLine(lines[l], keys, weights, before + BlockSamples(lines[..l]));
          assert before + BlockSamples(lines[..l]) + LineSamples(lines[l]) == before + BlockSamples(lines[..l + 1]);
        }
        assert lines[..|lines|] == lines;
      } else {
        assert before == PageSamples(page[..b + 1]);
      }
    }
    assert page[..|page|] == page;
    TabulatesKeys(PageSamples(page), keys, weights);
    if keys == [] {
      return 0.0;
    }
    size := Heaviest(keys, weights, PageSamples(page));
  }

  // Blocks, pages, documents.

  /** The lines of a block that hold text, rendered. */
  function RenderedLines(lines: seq<Line>, body: real): seq<string> {
    if lines == [] then []
    else
      var last := RenderLine(lines[|lines| - 1], body);
      RenderedLines(lines[..|lines| - 1], body) + (if last == "" then [] else [last])
  }

  /** One paragraph for each text block that holds text. */
  function Paragraphs(page: Page, body: real): seq<string> {
    if page == [] then []
    else
      var last := page[|page| - 1];
      var lines := if last.kind == 0 then RenderedLines(last.lines, body) else [];
      Paragraphs(page[..|page| - 1], body) + (if lines == [] then [] else [Join(lines, "\n")])
  }

  function PageText(page: Page): string {
    Join(Paragraphs(page, BodySizeOf(page)), "\n\n")
  }

  function PageTexts(pages: seq<Page>): seq<string> {
    if pages == [] then [] else PageTexts(pages[..|pages| - 1]) + [PageText(pages[|pages| - 1])]
  }

  function DocumentToMarkdown(pages: seq<Page>): string {
    Join(NonEmpty(PageTexts(pages)), "\n\n")
  }

  method PageToMarkdown(page: Page) returns (text: string)
    ensures text == PageText(page)
  {
    var body := BodySize(page);
    var paragraphs: seq<string> := [];
    for b := 0 to |page|
      invariant paragraphs == Paragraphs(page[..b], body)
    {
      assert page[..b + 1][..b] == page[..b];
      if page[b].kind == 0 {
        var lines: seq<string> := [];
        for l := 0 to |page[b].lines|
          invariant lines == RenderedLines(page[b].lines[..l], body)
        {
          assert page[b].lines[..l + 1][..l] == page[b].lines[..l];
          var rendered := RenderLine(page[b].lines[l], body);
          if rendered != "" {
            lines := lines + [rendered];
          }
        }
        assert page[b].lines[..|page[b].lines|] == page[b].lines;
        if lines != [] {
          paragraphs := paragraphs + [Join(lines, "\n")];
        }
      }
    }
    assert page[..|page|] == page;
    text := Join(paragraphs, "\n\n");
  }
}
