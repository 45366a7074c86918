/**
 The lines of a rendered document, empty ones included: where each line of the
 source comes to stand, and where the empty lines are.
 */
module MarkdownLayout {
  import opened Newlines
  import opened Stripping
  import opened Markdown
  import opened MarkdownLines

  /** A line of the source that holds text: its page, its block, and the body size of the page. */
  datatype Entry = Entry(page: nat, block: nat, line: Line, body: real)

  function LineEntries(p: nat, b: nat, lines: seq<Line>, body: real): seq<Entry> {
    if lines == [] then []
    else
      var last := lines[|lines| - 1];
      LineEntries(p, b, lines[..|lines| - 1], body)
      + (if Blank(Plain(last), SPACES) then [] else [Entry(p, b, last, body)])
  }

  function PageEntries(p: nat, page: Page, body: real): seq<Entry> {
    if page == [] then []
    else
      var b := |page| - 1;
      PageEntries(p, page[..b], body) + (if page[b].kind == 0 then LineEntries(p, b, page[b].lines, body) else [])
  }

  /** The lines of text blocks that hold text, in reading order. */
  function Entries(pages: seq<Page>): seq<Entry> {
    if pages == [] then []
    else
      var p := |pages| - 1;
      Entries(pages[..p]) + PageEntries(p, pages[p], BodySizeOf(pages[p]))
  }

  function Text(e: Entry): string {
    RenderLine(e.line, e.body)
  }

  function Rendered(es: seq<Entry>): seq<string> {
    seq(|es|, i requires 0 <= i < |es| => Text(es[i]))
  }

  /** The two lines stand in different blocks or on different pages. */
  predicate Apart(e: Entry, e': Entry) {
    e.page != e'.page || e.block != e'.block
  }

  function Gaps(e: Entry, e': Entry): seq<string> {
    if Apart(e, e') then [""] else []
  }

  /** The lines one below the other, an empty line between lines apart, and none elsewhere. */
  function Laid(es: seq<Entry>): seq<string> {
    if es == [] then []
    else if |es| == 1 then [Text(es[0])]
    else Laid(es[..|es| - 1]) + Gaps(es[|es| - 2], es[|es| - 1]) + [Text(es[|es| - 1])]
  }

  lemma {:induction false} LaidConcat(a: seq<Entry>, b: seq<Entry>)
    requires a != [] && b != []
    ensures Laid(a + b) == Laid(a) + Gaps(a[|a| - 1], b[0]) + Laid(b)
  {
    hide Text, Gaps;
    var es := a + b;
    assert es[..|es| - 1] == a + b[..|b| - 1];
    if |b| == 1 {
      assert a + b[..0] == a;
    } else {
      LaidConcat(a, b[..|b| - 1]);
    }
  }

  lemma {:induction false} LaidTogether(es: seq<Entry>)
    requires forall i :: 0 < i < |es| ==> !Apart(es[i - 1], es[i])
    ensures Laid(es) == Rendered(es)
  {
    hide Text;
    if |es| > 1 {
      LaidTogether(es[..|es| - 1]);
    }
  }

  // Joining.

  lemma {:induction false} JoinAppend(parts: seq<string>, part: string, sep: string)
    requires parts != []
    ensures Join(parts + [part], sep) == Join(parts, sep) + sep + part
  {
    var all := parts + [part];
    if |parts| == 1 {
      assert all[1..] == [part];
    } else {
      assert all[1..] == parts[1..] + [part];
      JoinAppend(parts[1..], part, sep);
    }
  }

  lemma LinesOfTwo(a: string, b: string)
    ensures Lines(a + "\n\n" + b) == Lines(a) + [""] + Lines(b)
  {
    LinesConcat(a, [NL] + b);
    assert a + [NL] + ([NL] + b) == a + "\n\n" + b;
    assert ([NL] + b)[1..] == b;
  }

  // Blocks.

  /** The lines of one block: its entries, in one place. */
  lemma {:induction false} LinesOfBlock(p: nat, b: nat, lines: seq<Line>, body: real)
    requires LinesClean(lines)
    ensures var es := LineEntries(p, b, lines, body);
            && RenderedLines(lines, body) == Rendered(es)
            && (forall i :: 0 <= i < |es| ==> es[i].page == p && es[i].block == b)
            && (forall i :: 0 <= i < |es| ==> Text(es[i]) != "" && NL !in Text(es[i]))
  {
    if lines != [] {
      var last := lines[|lines| - 1];
      LinesOfBlock(p, b, lines[..|lines| - 1], body);
      OnlyBlankLinesVanish(last, body);
      LineHasNoNewline(last, body);
      hide RenderLine, Plain, Blank, Rendered;
      RenderedAppend(LineEntries(p, b, lines[..|lines| - 1], body), Entry(p, b, last, body));
    }
  }

  lemma RenderedAppend(es: seq<Entry>, e: Entry)
    ensures Rendered(es + [e]) == Rendered(es) + [Text(e)] && Rendered(es + []) == Rendered(es) + []
    ensures Rendered([]) == []
  {
    assert es + [] == es;
  }

  lemma LinesOfParagraph(p: nat, b: nat, lines: seq<Line>, body: real)
    requires LinesClean(lines) && RenderedLines(lines, body) != []
    ensures var text, es := Join(RenderedLines(lines, body), "\n"), LineEntries(p, b, lines, body);
            es != [] && Lines(text) == Laid(es) && Tidy(text)
  {
    var es := LineEntries(p, b, lines, body);
    LinesOfBlock(p, b, lines, body);
    LaidTogether(es);
    hide RenderedLines, LineEntries, Text, Laid, Tidy;
    forall i | 0 <= i < |es| ensures Tidy(Rendered(es)[i]) {
      TidyLine(Text(es[i]));
    }
    LinesOfJoin(Rendered(es));
    TidyJoin(Rendered(es), "\n");
  }

  /** A text that is laid out as the entries say, or nothing if there are none. */
  ghost predicate LaysOut(text: string, es: seq<Entry>) {
    if es == [] then text == "" else Lines(text) == Laid(es) && Tidy(text)
  }

  /** Paragraphs or pages, joined as they are, are laid out as the entries say. */
  ghost predicate JoinsTo(parts: seq<string>, es: seq<Entry>) {
    LaysOut(Join(parts, "\n\n"), es) && (parts == [] <==> es == [])
  }

  /** One more of them, an empty line below. */
  lemma JoinsToMore(parts: seq<string>, es: seq<Entry>, part: string, more: seq<Entry>)
    requires JoinsTo(parts, es) && LaysOut(part, more) && more != []
    requires es != [] ==> Apart(es[|es| - 1], more[0])
    ensures JoinsTo(parts + [part], es + more)
  {
    hide Tidy, Text, Apart, Lines, Laid;
    if es == [] {
      assert parts + [part] == [part] && es + more == more;
    } else {
      JoinAppend(parts, part, "\n\n");
      LinesOfTwo(Join(parts, "\n\n"), part);
      LaidConcat(es, more);
      TidyConcat(Join(parts, "\n\n"), "\n\n", part);
    }
  }

  // Pages.

  /** All entries are of page `p`, and of its first blocks. */
  predicate Within(es: seq<Entry>, p: nat, blocks: nat) {
    forall i :: 0 <= i < |es| ==> es[i].page == p && es[i].block < blocks
  }

  lemma {:induction false} LinesOfPage(p: nat, page: Page, body: real)
    requires PageClean(page)
    ensures JoinsTo(Paragraphs(page, body), PageEntries(p, page, body)) && Within(PageEntries(p, page, body), p, |page|)
  {
    if page != [] {
      LinesOfPage(p, page[..|page| - 1], body);
      hide JoinsTo;
      NextBlock(p, page, body);
    }
  }

  lemma NextBlock(p: nat, page: Page, body: real)
    requires page != [] && LinesClean(page[|page| - 1].lines)
    requires var before := page[..|page| - 1];
             && JoinsTo(Paragraphs(before, body), PageEntries(p, before, body))
             && Within(PageEntries(p, before, body), p, |page| - 1)
    ensures JoinsTo(Paragraphs(page, body), PageEntries(p, page, body)) && Within(PageEntries(p, page, body), p, |page|)
  {
    hide JoinsTo;
    var b := |page| - 1;
    if page[b].kind == 0 {
      NextTextBlock(p, page, body);
    } else {
      assert PageEntries(p, page[..b], body) + [] == PageEntries(p, page[..b], body);
      assert Paragraphs(page[..b], body) + [] == Paragraphs(page[..b], body);
    }
  }

  lemma NextTextBlock(p: nat, page: Page, body: real)
    requires page != [] && LinesClean(page[|page| - 1].lines) && page[|page| - 1].kind == 0
    requires var before := page[..|page| - 1];
             && JoinsTo(Paragraphs(before, body), PageEntries(p, before, body))
             && Within(PageEntries(p, before, body), p, |page| - 1)
    ensures JoinsTo(Paragraphs(page, body), PageEntries(p, page, body)) && Within(PageEntries(p, page, body), p, |page|)
  {
    hide JoinsTo, RenderedLines, LineEntries, Text, Rendered, LaysOut;
    var b := |page| - 1;
    var parts, es := Paragraphs(page[..b], body), PageEntries(p, page[..b], body);
    var lines, more := RenderedLines(page[b].lines, body), LineEntries(p, b, page[b].lines, body);
    LinesOfBlock(p, b, page[b].lines, body);
    SameNumber(more);
    if lines == [] {
      assert es + more == es && parts + [] == parts;
    } else {
      LinesOfParagraphLaid(p, b, page[b].lines, body);
      JoinsToMore(parts, es, Join(lines, "\n"), more);
    }
  }

  lemma SameNumber(es: seq<Entry>)
    ensures |Rendered(es)| == |es|
  {
  }

  lemma LinesOfParagraphLaid(p: nat, b: nat, lines: seq<Line>, body: real)
    requires LinesClean(lines) && RenderedLines(lines, body) != []
    ensures LaysOut(Join(RenderedLines(lines, body), "\n"), LineEntries(p, b, lines, body))
  {
    LinesOfParagraph(p, b, lines, body);
  }

  lemma LinesOfOnePage(p: nat, page: Page)
    requires PageClean(page)
    ensures var es := PageEntries(p, page, BodySizeOf(page));
            LaysOut(PageText(page), es) && Within(es, p, |page|)
  {
    LinesOfPage(p, page, BodySizeOf(page));
  }

  // Documents.

  predicate Before(es: seq<Entry>, pages: nat) {
    forall i :: 0 <= i < |es| ==> es[i].page < pages
  }

  lemma {:induction false} LinesOfPages(pages: seq<Page>)
    requires Clean(pages)
    ensures JoinsTo(NonEmpty(PageTexts(pages)), Entries(pages)) && Before(Entries(pages), |pages|)
  {
    if pages != [] {
      LinesOfPages(pages[..|pages| - 1]);
      hide JoinsTo;
      NextPage(pages);
    }
  }

  lemma NextPage(pages: seq<Page>)
    requires pages != [] && PageClean(pages[|pages| - 1])
    requires var before := pages[..|pages| - 1];
             JoinsTo(NonEmpty(PageTexts(before)), Entries(before)) && Before(Entries(before), |pages| - 1)
    ensures JoinsTo(NonEmpty(PageTexts(pages)), Entries(pages)) && Before(Entries(pages), |pages|)
  {
    var p := |pages| - 1;
    var parts, es := PageTexts(pages[..p]), Entries(pages[..p]);
    var text, more := PageText(pages[p]), PageEntries(p, pages[p], BodySizeOf(pages[p]));
    LinesOfOnePage(p, pages[p]);
    NonEmptyConcat(parts, [text]);
    NonEmptyOne(text);
    hide PageText, PageEntries, BodySizeOf, NonEmpty, Laid, Lines, Text, JoinsTo;
    if more == [] {
      assert es + more == es && NonEmpty(parts) + [] == NonEmpty(parts);
    } else {
      JoinsToMore(NonEmpty(parts), es, text, more);
    }
  }

  lemma NonEmptyOne(text: string)
    ensures NonEmpty([text]) == if text == "" then [] else [text]
  {
    assert [text][1..] == [];
  }

  /**
   Line by line, a rendered document is the lines of its text blocks that hold
   text, in reading order: one below the other within a block, one empty line
   between the last of a block and the first of the next, on the same page or a
   later one, and no empty line elsewhere.
   */
  lemma DocumentLaidOut(pages: seq<Page>)
    requires Clean(pages)
    ensures Lines(DocumentToMarkdown(pages)) == if Entries(pages) == [] then [""] else Laid(Entries(pages))
  {
    LinesOfPages(pages);
  }

  /** Where a line comes to stand. */
  function At(es: seq<Entry>, i: nat): int
    requires i < |es|
  {
    |Laid(es[..i + 1])| - 1
  }

  /** The first line stands first; each next one right below, below one empty line if it is apart; the last one last. */
  lemma {:induction false} LaidAt(es: seq<Entry>, i: nat)
    requires i < |es|
    ensures 0 <= At(es, i) < |Laid(es)| && Laid(es)[At(es, i)] == Text(es[i])
    ensures i == 0 ==> At(es, i) == 0
    ensures i + 1 == |es| ==> At(es, i) == |Laid(es)| - 1
    ensures i + 1 < |es| ==>
              if Apart(es[i], es[i + 1])
              then At(es, i) + 2 == At(es, i + 1) < |Laid(es)| && Laid(es)[At(es, i) + 1] == ""
              else At(es, i + 1) == At(es, i) + 1
  {
    hide Laid, Text, At, Apart;
    LaidHere(es, i);
    if i + 1 < |es| {
      LaidNext(es, i);
    }
  }

  lemma LaidHere(es: seq<Entry>, i: nat)
    requires i < |es|
    ensures 0 <= At(es, i) < |Laid(es)| && Laid(es)[At(es, i)] == Text(es[i])
    ensures i == 0 ==> At(es, i) == 0
    ensures i + 1 == |es| ==> At(es, i) == |Laid(es)| - 1
  {
    hide Laid, Text;
    var here := es[..i + 1];
    LaidPrefix(es, i + 1);
    LaidLast(here);
    assert here[i] == es[i];
    LastOfPrefix(Laid(here), Laid(es));
    assert i + 1 == |es| ==> here == es;
  }

  lemma LastOfPrefix(a: seq<string>, b: seq<string>)
    requires a != [] && a <= b
    ensures |a| <= |b| && b[|a| - 1] == a[|a| - 1]
  {
  }

  lemma LaidNext(es: seq<Entry>, i: nat)
    requires i + 1 < |es|
    ensures At(es, i) >= 0
    ensures if Apart(es[i], es[i + 1])
            then At(es, i) + 2 == At(es, i + 1) < |Laid(es)| && Laid(es)[At(es, i) + 1] == ""
            else At(es, i + 1) == At(es, i) + 1
  {
    hide Text, Apart;
    var here, next := es[..i + 1], es[..i + 2];
    assert next[..i + 1] == here;
    assert Laid(next) == Laid(here) + Gaps(es[i], es[i + 1]) + [Text(es[i + 1])];
    LaidLast(here);
    LaidPrefix(es, i + 2);
    hide Laid;
  }

  lemma LaidLast(es: seq<Entry>)
    requires es != []
    ensures Laid(es) != [] && Laid(es)[|Laid(es)| - 1] == Text(es[|es| - 1])
    ensures |es| == 1 ==> |Laid(es)| == 1
  {
  }

  lemma LaidPrefix(es: seq<Entry>, n: nat)
    requires 0 < n <= |es|
    ensures Laid(es[..n]) <= Laid(es)
  {
    if n < |es| {
      LaidConcat(es[..n], es[n..]);
      assert es == es[..n] + es[n..];
    } else {
      assert es[..n] == es;
    }
  }

  // What follows.

  function FullLines(s: string): seq<string> {
    NonEmpty(Lines(s))
  }

  lemma {:induction false} LaidInFull(es: seq<Entry>)
    requires forall i :: 0 <= i < |es| ==> Text(es[i]) != ""
    ensures NonEmpty(Laid(es)) == Rendered(es)
  {
    hide Text;
    if es != [] {
      var n := |es| - 1;
      var last := Text(es[n]);
      LaidInFull(es[..n]);
      NonEmptyOne(last);
      if n > 0 {
        var gap := Gaps(es[n - 1], es[n]);
        NonEmptyOne("");
        NonEmptyConcat(Laid(es[..n]), gap);
        NonEmptyConcat(Laid(es[..n]) + gap, [last]);
      }
    }
  }

  lemma {:induction false} PageTextsFull(p: nat, page: Page, body: real)
    requires PageClean(page)
    ensures forall i :: 0 <= i < |PageEntries(p, page, body)| ==> Text(PageEntries(p, page, body)[i]) != ""
  {
    if page != [] {
      var b := |page| - 1;
      PageTextsFull(p, page[..b], body);
      LinesOfBlock(p, b, page[b].lines, body);
    }
  }

  lemma {:induction false} TextsFull(pages: seq<Page>)
    requires Clean(pages)
    ensures forall i :: 0 <= i < |Entries(pages)| ==> Text(Entries(pages)[i]) != ""
  {
    if pages != [] {
      var p := |pages| - 1;
      TextsFull(pages[..p]);
      PageTextsFull(p, pages[p], BodySizeOf(pages[p]));
    }
  }

  /**
   The non-empty lines of a rendered document are, one for one and in order, the
   lines of its text blocks that hold text.
   */
  lemma DocumentKeepsLines(pages: seq<Page>)
    requires Clean(pages)
    ensures FullLines(DocumentToMarkdown(pages)) == Rendered(Entries(pages))
  {
    DocumentLaidOut(pages);
    TextsFull(pages);
    LaidInFull(Entries(pages));
  }

  /**
   A rendered document has no long run of newlines, so the normalizer composes its
   lines and does nothing else.
   */
  lemma DocumentIsNormal(pages: seq<Page>, f: string -> string)
    requires Clean(pages) && ComposesLines(f)
    ensures var text := DocumentToMarkdown(pages);
            && (text == "" || Tidy(text)) && Collapse(text) == text
            && Lines(Normalize(f, text)) == OnEach(f, Lines(text))
  {
    var text := DocumentToMarkdown(pages);
    LinesOfPages(pages);
    CollapseFixes(text);
    NormalizeOfCalm(f, text);
  }
}
