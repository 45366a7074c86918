/**
 Runs of newlines: joining texts with them, splitting at them, and cutting the
 long ones down to two.
 */
module Newlines {

  const NL: char := '\n'

  function Join(parts: seq<string>, sep: string): string {
    if parts == [] then ""
    else if |parts| == 1 then parts[0]
    else parts[0] + sep + Join(parts[1..], sep)
  }

  /** The text cut at its newlines. */
  function Lines(s: string): (lines: seq<string>)
    ensures lines != []
  {
    if s == "" then [""]
    else if s[0] == NL then [""] + Lines(s[1..])
    else
      var lines := Lines(s[1..]);
      [[s[0]] + lines[0]] + lines[1..]
  }

  function NonEmpty(parts: seq<string>): seq<string> {
    if parts == [] then []
    else if parts[0] == "" then NonEmpty(parts[1..])
    else [parts[0]] + NonEmpty(parts[1..])
  }

  lemma {:induction false} NonEmptyConcat(a: seq<string>, b: seq<string>)
    ensures NonEmpty(a + b) == NonEmpty(a) + NonEmpty(b)
  {
    if a == [] {
      assert a + b == b;
    } else {
      assert (a + b)[1..] == a[1..] + b;
      NonEmptyConcat(a[1..], b);
    }
  }

  lemma {:induction false} LinesOfOne(s: string)
    requires NL !in s
    ensures Lines(s) == [s]
  {
    if s != "" {
      LinesOfOne(s[1..]);
      assert [s[0]] + s[1..] == s;
    }
  }

  lemma {:induction false} LinesConcat(a: string, b: string)
    ensures Lines(a + [NL] + b) == Lines(a) + Lines(b)
  {
    var s := a + [NL] + b;
    if a == "" {
      assert s[1..] == b;
    } else {
      assert s[1..] == a[1..] + [NL] + b;
      LinesConcat(a[1..], b);
    }
  }

  lemma {:induction false} LinesOfJoin(parts: seq<string>)
    requires parts != [] && forall i :: 0 <= i < |parts| ==> NL !in parts[i]
    ensures Lines(Join(parts, [NL])) == parts
  {
    LinesOfOne(parts[0]);
    if |parts| > 1 {
      LinesConcat(parts[0], Join(parts[1..], [NL]));
      LinesOfJoin(parts[1..]);
    }
  }

  /** No three newlines in a row. */
  predicate NoLongRun(s: string) {
    forall i :: 0 <= i < |s| - 2 ==> !(s[i] == NL && s[i + 1] == NL && s[i + 2] == NL)
  }

  lemma NoLongRunTail(s: string)
    requires s != ""
    ensures NoLongRun(s) <==> NoLongRun(s[1..]) && !(|s| >= 3 && s[0] == NL && s[1] == NL && s[2] == NL)
  {
    var t := s[1..];
    if NoLongRun(t) {
      forall i | 0 < i < |s| - 2 ensures !(s[i] == NL && s[i + 1] == NL && s[i + 2] == NL) {
        assert !(t[i - 1] == NL && t[i - 1 + 1] == NL && t[i - 1 + 2] == NL);
      }
    }
    if NoLongRun(s) {
      forall i | 0 <= i < |t| - 2 ensures !(t[i] == NL && t[i + 1] == NL && t[i + 2] == NL) {
        assert !(s[i + 1] == NL && s[i + 1 + 1] == NL && s[i + 1 + 2] == NL);
      }
    }
  }

  // The collapse of long runs.

  /** How many newlines the text starts with. */
  function Leading(s: string): (k: nat)
    ensures k <= |s|
  {
    if s != "" && s[0] == NL then 1 + Leading(s[1..]) else 0
  }

  /** Scanning from the left, every run of three newlines or more is replaced by two. */
  function Collapse(s: string): string {
    var k := Leading(s);
    if s == "" then ""
    else if k >= 3 then [NL, NL] + Collapse(s[k..])
    else [s[0]] + Collapse(s[1..])
  }

  /** A text as its other characters and the number of newlines before each, and at the end. */
  datatype Woven = End(gap: nat) | Char(gap: nat, c: char, rest: Woven)

  function Unweave(s: string): Woven {
    if s == "" then End(0)
    else
      var w := Unweave(s[1..]);
      if s[0] == NL then w.(gap := w.gap + 1) else Char(0, s[0], w)
  }

  function Gap(n: nat): string {
    seq(n, _ => NL)
  }

  function Weave(w: Woven): string {
    match w
    case End(gap) => Gap(gap)
    case Char(gap, c, rest) => Gap(gap) + [c] + Weave(rest)
  }

  predicate Proper(w: Woven) {
    w.Char? ==> w.c != NL && Proper(w.rest)
  }

  /** Nothing is lost in taking a text apart. */
  lemma {:induction false} WeaveUnweave(s: string)
    ensures Weave(Unweave(s)) == s && Proper(Unweave(s))
  {
    if s != "" {
      WeaveUnweave(s[1..]);
      var w := Unweave(s[1..]);
      if s[0] == NL {
        assert Gap(w.gap + 1) == [NL] + Gap(w.gap);
      }
    }
  }

  function AtMostTwo(n: nat): nat {
    if n > 2 then 2 else n
  }

  /** Every gap cut down to two. */
  function Clamp(w: Woven): Woven {
    match w
    case End(gap) => End(AtMostTwo(gap))
    case Char(gap, c, rest) => Char(AtMostTwo(gap), c, Clamp(rest))
  }

  lemma {:induction false} UnweaveRun(s: string, k: nat)
    requires k <= Leading(s)
    ensures Leading(s[k..]) == Leading(s) - k
    ensures Unweave(s) == Unweave(s[k..]).(gap := Unweave(s[k..]).gap + k)
  {
    if k > 0 {
      UnweaveRun(s[1..], k - 1);
      assert s[1..][k - 1..] == s[k..];
    } else {
      assert s[k..] == s;
    }
  }

  lemma {:induction false} GapIsLeading(s: string)
    ensures Unweave(s).gap == Leading(s)
  {
    if s != "" {
      GapIsLeading(s[1..]);
    }
  }

  /** The collapse keeps every other character in its place and cuts every run of newlines down to two. */
  lemma {:induction false} CollapseClamps(s: string)
    ensures Unweave(Collapse(s)) == Clamp(Unweave(s))
    decreases |s|
  {
    var k := Leading(s);
    if k >= 3 {
      var t := Collapse(s[k..]);
      CollapseClamps(s[k..]);
      UnweaveRun(s, k);
      GapIsLeading(s[k..]);
      assert ([NL, NL] + t)[1..] == [NL] + t && ([NL] + t)[1..] == t;
    } else if s != "" {
      CollapseClamps(s[1..]);
      GapIsLeading(s[1..]);
      assert ([s[0]] + Collapse(s[1..]))[1..] == Collapse(s[1..]);
    }
  }

  lemma {:induction false} NoLongRunIsClamped(s: string)
    ensures NoLongRun(s) <==> Clamp(Unweave(s)) == Unweave(s)
  {
    if s != "" {
      NoLongRunIsClamped(s[1..]);
      NoLongRunTail(s);
      GapIsLeading(s);
      GapIsLeading(s[1..]);
      assert Leading(s) >= 3 <==> |s| >= 3 && s[0] == NL && s[1] == NL && s[2] == NL by {
        if s[0] == NL && |s| >= 2 && s[1] == NL {
          assert s[1..][1..] == s[2..];
        }
      }
    }
  }

  lemma {:induction false} ClampTwice(w: Woven)
    ensures Clamp(Clamp(w)) == Clamp(w)
  {
    if w.Char? {
      ClampTwice(w.rest);
    }
  }

  /** A text is its own collapse exactly if it has no long run; every collapse is such a text. */
  lemma CollapseFixes(s: string)
    ensures NoLongRun(Collapse(s))
    ensures Collapse(s) == s <==> NoLongRun(s)
    ensures Collapse(Collapse(s)) == Collapse(s)
  {
    CollapseOfCalm(s);
    CollapseClamps(s);
    ClampTwice(Unweave(s));
    NoLongRunIsClamped(Collapse(s));
    CollapseOfCalm(Collapse(s));
  }

  lemma CollapseOfCalm(s: string)
    ensures NoLongRun(s) ==> Collapse(s) == s
  {
    if NoLongRun(s) {
      CollapseClamps(s);
      NoLongRunIsClamped(s);
      WeaveUnweave(s);
      WeaveUnweave(Collapse(s));
    }
  }

  // Texts that newlines may be put around.

  /** No newline at either end, and no long run. */
  predicate Tidy(s: string) {
    s != "" && s[0] != NL && s[|s| - 1] != NL && NoLongRun(s)
  }

  lemma TidyLine(s: string)
    requires s != "" && NL !in s
    ensures Tidy(s)
  {
  }

  lemma TidyConcat(a: string, sep: string, b: string)
    requires Tidy(a) && Tidy(b) && sep in {[NL], [NL, NL]}
    ensures Tidy(a + sep + b)
  {
    var s := a + sep + b;
    forall i | 0 <= i < |s| - 2 ensures !(s[i] == NL && s[i + 1] == NL && s[i + 2] == NL) {
      if i < |a| - 2 {
        assert !(a[i] == NL && a[i + 1] == NL && a[i + 2] == NL);
      } else if i >= |a + sep| {
        var k := i - |a + sep|;
        assert !(b[k] == NL && b[k + 1] == NL && b[k + 2] == NL);
      }
    }
  }

  lemma {:induction false} TidyJoin(parts: seq<string>, sep: string)
    requires parts != [] && sep in {[NL], [NL, NL]} && forall i :: 0 <= i < |parts| ==> Tidy(parts[i])
    ensures Tidy(Join(parts, sep))
  {
    if |parts| > 1 {
      TidyJoin(parts[1..], sep);
      TidyConcat(parts[0], sep, Join(parts[1..], sep));
    }
  }

  // Composition of characters, which never reaches across a newline.

  /** Composes one line: leaves no newline in it, and empties no line. */
  ghost predicate ComposesLines(f: string -> string) {
    forall s {:trigger f(s)} :: NL !in s ==> NL !in f(s) && (f(s) == "" <==> s == "")
  }

  function OnEach(f: string -> string, parts: seq<string>): (out: seq<string>)
    ensures |out| == |parts|
  {
    seq(|parts|, i requires 0 <= i < |parts| => f(parts[i]))
  }

  /** Unicode composition, line by line, and the collapse. */
  function Normalize(f: string -> string, s: string): string {
    Collapse(Join(OnEach(f, Lines(s)), [NL]))
  }

  /** No two empty lines in a row, but for the first and the last line. */
  predicate Calm(lines: seq<string>) {
    forall i :: 0 < i < |lines| - 2 ==> !(lines[i] == "" && lines[i + 1] == "")
  }

  lemma {:induction false} LinesHaveNoNewline(s: string)
    ensures forall i :: 0 <= i < |Lines(s)| ==> NL !in Lines(s)[i]
  {
    if s != "" {
      LinesHaveNoNewline(s[1..]);
    }
  }

  lemma {:induction false} NoLongRunIsCalm(s: string)
    ensures NoLongRun(s) <==> Calm(Lines(s))
  {
    if s != "" {
      var t := s[1..];
      NoLongRunIsCalm(t);
      NoLongRunTail(s);
      if s[0] == NL {
        assert Lines(s)[1..] == Lines(t);
        CalmTail(Lines(s));
        StartsWithTwo(t);
      } else {
        assert forall i :: 0 < i < |Lines(s)| ==> Lines(s)[i] == Lines(t)[i];
      }
    }
  }

  lemma CalmTail(lines: seq<string>)
    requires lines != []
    ensures Calm(lines) <==> Calm(lines[1..]) && !(|lines| > 3 && lines[1] == "" && lines[2] == "")
  {
  }

  lemma StartsWithTwo(s: string)
    ensures |Lines(s)| > 2 && Lines(s)[0] == "" && Lines(s)[1] == "" <==> |s| >= 2 && s[0] == NL && s[1] == NL
  {
  }

  /** A text without long runs comes out of the normalizer with its lines composed and nothing else changed. */
  lemma NormalizeOfCalm(f: string -> string, s: string)
    requires ComposesLines(f)
    ensures NoLongRun(s) <==> Normalize(f, s) == Join(OnEach(f, Lines(s)), [NL])
    ensures NoLongRun(s) ==> Lines(Normalize(f, s)) == OnEach(f, Lines(s))
  {
    var lines := OnEach(f, Lines(s));
    OnEachLine(f, s);
    hide OnEach, ComposesLines, NoLongRun, Calm, Collapse;
    LinesOfJoin(lines);
    NoLongRunIsCalm(s);
    NoLongRunIsCalm(Join(lines, [NL]));
    CollapseFixes(Join(lines, [NL]));
  }

  lemma OnEachLine(f: string -> string, s: string)
    requires ComposesLines(f)
    ensures var lines := OnEach(f, Lines(s));
            && (forall i :: 0 <= i < |lines| ==> NL !in lines[i])
            && (Calm(lines) <==> Calm(Lines(s)))
  {
    LinesHaveNoNewline(s);
    var lines := OnEach(f, Lines(s));
    forall i | 0 <= i < |lines| ensures NL !in lines[i] && (lines[i] == "" <==> Lines(s)[i] == "") {
      assert lines[i] == f(Lines(s)[i]);
    }
  }
}
