/** Byte strings and the `bytes` primitives the multipart reader is built from. */
module ByteStrings {

  newtype Byte = x: int | 0 <= x < 256

  type Bytes = seq<Byte>

  const CR: Byte := 0x0D
  const LF: Byte := 0x0A
  const DASH: Byte := 0x2D
  const QUOTE: Byte := 0x22
  const COLON: Byte := 0x3A
  const SEMICOLON: Byte := 0x3B
  const EQUALS: Byte := 0x3D

  /** `p` stands in `s` at offset `i`. */
  predicate OccursAt(s: Bytes, p: Bytes, i: int) {
    0 <= i && i + |p| <= |s| && s[i..i + |p|] == p
  }

  /** `s.find(p)`: the least offset of `p` in `s`, or -1. */
  function Find(s: Bytes, p: Bytes): (r: int)
    ensures r == -1 || (0 <= r && r + |p| <= |s| && OccursAt(s, p, r))
    ensures forall i :: OccursAt(s, p, i) ==> 0 <= r <= i
  {
    FindFrom(s, p, 0)
  }

  function FindFrom(s: Bytes, p: Bytes, from: nat): (r: int)
    requires from <= |s|
    ensures r == -1 || (from <= r && OccursAt(s, p, r))
    ensures forall i :: from <= i && OccursAt(s, p, i) ==> 0 <= r <= i
    decreases |s| - from
  {
    if OccursAt(s, p, from) then from
    else if from == |s| then -1
    else FindFrom(s, p, from + 1)
  }

  lemma OccurrenceByte(s: Bytes, p: Bytes, i: nat, k: nat)
    requires OccursAt(s, p, i) && k < |p|
    ensures s[i + k] == p[k]
  {
    assert s[i..i + |p|][k] == p[k];
  }

  /** An occurrence does not depend on what follows it. */
  lemma OccursInPrefix(s: Bytes, t: Bytes, p: Bytes, i: int)
    requires i + |p| <= |s|
    ensures OccursAt(s + t, p, i) == OccursAt(s, p, i)
  {
    if 0 <= i {
      assert (s + t)[i..i + |p|] == s[i..i + |p|];
    }
  }

  /** Nor on what precedes it. */
  lemma OccursInSuffix(s: Bytes, p: Bytes, k: nat, i: int)
    requires k <= |s| && k <= i
    ensures OccursAt(s, p, i) == OccursAt(s[k..], p, i - k)
  {
    if i + |p| <= |s| {
      assert s[i..i + |p|] == s[k..][i - k..i - k + |p|];
    }
  }

  /** `r` is what `Find` answers as soon as nothing stands before it. */
  lemma FindIs(s: Bytes, p: Bytes, r: nat)
    requires OccursAt(s, p, r)
    requires forall i :: 0 <= i < r ==> !OccursAt(s, p, i)
    ensures Find(s, p) == r
  {
  }

  lemma SuffixAppend(s: Bytes, k: nat, t: Bytes)
    requires k <= |s|
    ensures (s + t)[k..] == s[k..] + t
  {
  }

  /** Dropping bytes off a suffix leaves a suffix. */
  lemma SuffixDrop(s: Bytes, k: nat, n: nat)
    requires k + n <= |s|
    ensures s[k..][n..] == s[k + n..]
  {
  }

  /** A hit stays where it is when more bytes arrive. */
  lemma FindStable(s: Bytes, t: Bytes, p: Bytes)
    requires Find(s, p) >= 0
    ensures Find(s + t, p) == Find(s, p)
  {
    var r := Find(s, p);
    OccursInPrefix(s, t, p, r);
    forall i | 0 <= i < r ensures !OccursAt(s + t, p, i) {
      OccursInPrefix(s, t, p, i);
    }
  }

  /** After a miss, a later hit must reach past the bytes already seen. */
  lemma FindLate(s: Bytes, t: Bytes, p: Bytes)
    requires Find(s, p) < 0
    ensures Find(s + t, p) < 0 || Find(s + t, p) + |p| > |s|
  {
    var r := Find(s + t, p);
    if 0 <= r && r + |p| <= |s| {
      OccursInPrefix(s, t, p, r);
    }
  }

  /** Bytes before which nothing stands can be dropped from the search. */
  lemma FindShift(s: Bytes, p: Bytes, k: nat)
    requires k <= |s|
    requires forall i :: 0 <= i < k ==> !OccursAt(s, p, i)
    ensures Find(s, p) == (if Find(s[k..], p) < 0 then -1 else k + Find(s[k..], p))
  {
    var r := Find(s, p);
    var q := Find(s[k..], p);
    if r >= 0 {
      OccursInSuffix(s, p, k, r);
    }
    if q >= 0 {
      OccursInSuffix(s, p, k, k + q);
    }
  }

  /** Dropping all but the last `|p| - 1` (or more) bytes after a miss loses no later hit. */
  lemma FindPruned(s: Bytes, t: Bytes, p: Bytes, k: nat)
    requires Find(s, p) < 0 && k <= |s| && |s| - k >= |p| - 1
    ensures Find(s + t, p) == (if Find(s[k..] + t, p) < 0 then -1 else k + Find(s[k..] + t, p))
  {
    forall i | 0 <= i < k ensures !OccursAt(s + t, p, i) {
      OccursInPrefix(s, t, p, i);
    }
    FindShift(s + t, p, k);
    assert (s + t)[k..] == s[k..] + t;
  }

  lemma BytesMoved(a: Bytes, b: Bytes, n: nat)
    requires n <= |b|
    ensures (a + b[..n]) + b[n..] == a + b
  {
  }

  lemma ConcatAssociates(a: Bytes, b: Bytes, c: Bytes)
    ensures a + (b + c) == a + b + c
  {
  }
}
