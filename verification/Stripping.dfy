/** The `strip` family: removing a set of characters from the ends of a text. */
module Stripping {

  function LStrip<T(==)>(s: seq<T>, chars: set<T>): seq<T> {
    if s != [] && s[0] in chars then LStrip(s[1..], chars) else s
  }

  function RStrip<T(==)>(s: seq<T>, chars: set<T>): seq<T> {
    if s != [] && s[|s| - 1] in chars then RStrip(s[..|s| - 1], chars) else s
  }

  function Strip<T(==)>(s: seq<T>, chars: set<T>): seq<T> {
    RStrip(LStrip(s, chars), chars)
  }

  lemma {:induction false} StripAppended<T>(s: seq<T>, c: T, chars: set<T>)
    requires c in chars
    ensures LStrip(s + [c], chars) == (if LStrip(s, chars) == [] then [] else LStrip(s, chars) + [c])
    ensures Strip(s + [c], chars) == Strip(s, chars)
  {
    if s == [] {
      assert s + [c] == [c] && [c][1..] == [];
    } else if s[0] in chars {
      assert (s + [c])[1..] == s[1..] + [c];
      StripAppended(s[1..], c, chars);
    }
    var x := LStrip(s, chars);
    assert x != [] ==> (x + [c])[..|x + [c]| - 1] == x;
  }

  /** Text that neither starts nor ends with one of `chars`. */
  predicate Trimmed<T(==)>(s: seq<T>, chars: set<T>) {
    s != [] ==> s[0] !in chars && s[|s| - 1] !in chars
  }

  lemma StripTrimmed<T>(s: seq<T>, chars: set<T>)
    requires Trimmed(s, chars)
    ensures Strip(s, chars) == s
  {
  }

  /** Text made of `chars` alone. */
  predicate Blank<T(==)>(s: seq<T>, chars: set<T>) {
    forall i :: 0 <= i < |s| ==> s[i] in chars
  }

  lemma {:induction false} LStripCuts<T>(s: seq<T>, chars: set<T>)
    ensures var k := |s| - |LStrip(s, chars)|;
            0 <= k && Blank(s[..k], chars) && LStrip(s, chars) == s[k..]
    ensures LStrip(s, chars) != [] ==> LStrip(s, chars)[0] !in chars
  {
    if s != [] && s[0] in chars {
      LStripCuts(s[1..], chars);
      var k := |s| - |LStrip(s, chars)|;
      assert s[..k] == [s[0]] + s[1..][..k - 1];
    }
  }

  lemma {:induction false} RStripCuts<T>(s: seq<T>, chars: set<T>)
    ensures var k := |RStrip(s, chars)|;
            k <= |s| && Blank(s[k..], chars) && RStrip(s, chars) == s[..k]
    ensures RStrip(s, chars) != [] ==> RStrip(s, chars)[|RStrip(s, chars)| - 1] !in chars
  {
    if s != [] && s[|s| - 1] in chars {
      RStripCuts(s[..|s| - 1], chars);
      var k := |RStrip(s, chars)|;
      assert s[k..] == s[..|s| - 1][k..] + [s[|s| - 1]];
    }
  }

  /** `Strip` leaves what stands between two blanks, `i..j`. */
  predicate CutAt<T(==)>(s: seq<T>, chars: set<T>, i: nat, j: nat) {
    i <= j <= |s| && Blank(s[..i], chars) && Blank(s[j..], chars) && Strip(s, chars) == s[i..j]
  }

  lemma StripCuts<T>(s: seq<T>, chars: set<T>) returns (i: nat, j: nat)
    ensures CutAt(s, chars, i, j) && Trimmed(Strip(s, chars), chars)
  {
    var left := LStrip(s, chars);
    LStripCuts(s, chars);
    RStripCuts(left, chars);
    i := |s| - |left|;
    j := i + |RStrip(left, chars)|;
    assert s[i..j] == left[..j - i] && s[j..] == left[j - i..];
  }

  lemma StripKeepsOut<T>(s: seq<T>, chars: set<T>, c: T)
    requires c !in s
    ensures c !in Strip(s, chars)
  {
    var i, j := StripCuts(s, chars);
  }

  lemma {:induction false} LStripLead<T>(lead: seq<T>, s: seq<T>, chars: set<T>)
    requires Blank(lead, chars) && (s != [] ==> s[0] !in chars)
    ensures LStrip(lead + s, chars) == s
  {
    if lead == [] {
      assert lead + s == s;
    } else {
      assert (lead + s)[1..] == lead[1..] + s;
      LStripLead(lead[1..], s, chars);
    }
  }

  lemma {:induction false} RStripTrail<T>(s: seq<T>, trail: seq<T>, chars: set<T>)
    requires Blank(trail, chars) && (s != [] ==> s[|s| - 1] !in chars)
    ensures RStrip(s + trail, chars) == s
  {
    if trail == [] {
      assert s + trail == s;
    } else {
      assert (s + trail)[..|s + trail| - 1] == s + trail[..|trail| - 1];
      RStripTrail(s, trail[..|trail| - 1], chars);
    }
  }

  lemma BlankBoth<T>(a: seq<T>, b: seq<T>, chars: set<T>)
    requires Blank(a, chars) && Blank(b, chars)
    ensures Blank(a + b, chars)
  {
  }

  /** Blanks around a trimmed core go, whichever end is stripped first. */
  lemma StripBlanks<T>(lead: seq<T>, core: seq<T>, trail: seq<T>, chars: set<T>)
    requires Blank(lead, chars) && Blank(trail, chars) && Trimmed(core, chars)
    ensures var s := lead + core + trail;
            && Strip(s, chars) == core
            && Strip(LStrip(s, chars), chars) == core
            && Strip(RStrip(s, chars), chars) == core
  {
    var s := lead + core + trail;
    var none: seq<T> := [];
    assert s == lead + (core + trail);
    if core == [] {
      BlankBoth(lead, trail, chars);
      assert s == s + none == none + s;
      LStripLead(s, none, chars);
      RStripTrail(none, s, chars);
    } else {
      LStripLead(lead, core + trail, chars);
      RStripTrail(core, trail, chars);
      assert core + trail == none + (core + trail);
      LStripLead(none, core + trail, chars);
      RStripTrail(lead + core, trail, chars);
      LStripLead(lead, core, chars);
      StripTrimmed(core, chars);
    }
  }

  lemma {:induction false} LStripUpTo<T>(a: seq<T>, c: T, b: seq<T>, chars: set<T>)
    requires c !in chars
    ensures LStrip(a + [c] + b, chars) == LStrip(a, chars) + [c] + b
  {
    var s := a + [c] + b;
    if a != [] {
      assert s[1..] == a[1..] + [c] + b;
      LStripUpTo(a[1..], c, b, chars);
    }
  }

  lemma {:induction false} RStripUpTo<T>(a: seq<T>, c: T, b: seq<T>, chars: set<T>)
    requires c !in chars
    ensures RStrip(a + [c] + b, chars) == a + [c] + RStrip(b, chars)
  {
    var s := a + [c] + b;
    if b == [] {
      assert s == a + [c];
    } else {
      assert s[..|s| - 1] == a + [c] + b[..|b| - 1];
      RStripUpTo(a, c, b[..|b| - 1], chars);
    }
  }

  /** A character that stays splits the stripping in two. */
  lemma StripAround<T>(a: seq<T>, c: T, b: seq<T>, chars: set<T>)
    requires c !in chars
    ensures Strip(a + [c] + b, chars) == LStrip(a, chars) + [c] + RStrip(b, chars)
  {
    LStripUpTo(a, c, b, chars);
    RStripUpTo(LStrip(a, chars), c, b, chars);
  }

  lemma LStripKeepsOut<T>(s: seq<T>, chars: set<T>, c: T)
    requires c !in s
    ensures c !in LStrip(s, chars)
  {
    LStripCuts(s, chars);
  }
}
