/** How many entries of a finite table satisfy a predicate. */
module Counting {

  ghost function Which<T>(table: map<nat, T>, p: T -> bool): set<nat> {
    set r | r in table && p(table[r])
  }

  ghost function Count<T>(table: map<nat, T>, p: T -> bool): nat {
    |Which(table, p)|
  }

  /** 1 if it holds, else 0. */
  function One(b: bool): nat {
    if b then 1 else 0
  }

  /** The entries that satisfy a predicate are `r`, or not, and the others. */
  lemma CountApart<T>(table: map<nat, T>, r: nat, p: T -> bool)
    ensures Count(table, p) == |Which(table, p) - {r}| + One(r in table && p(table[r]))
  {
    var all := Which(table, p);
    if r in all {
      assert all == (all - {r}) + {r};
    } else {
      assert all == all - {r};
    }
  }

  /** Replacing one entry moves the count by that entry alone. */
  lemma CountUpdate<T>(table: map<nat, T>, r: nat, c: T, p: T -> bool)
    ensures Count(table[r := c], p) == Count(table, p) - One(r in table && p(table[r])) + One(p(c))
  {
    CountApart(table, r, p);
    CountApart(table[r := c], r, p);
    assert Which(table, p) - {r} == Which(table[r := c], p) - {r};
  }

  lemma CountNone<T>(p: T -> bool)
    ensures Count(map[], p) == 0
  {
    assert Which(map[], p) == {};
  }

  lemma CountAtMost<T>(table: map<nat, T>, p: T -> bool, q: T -> bool)
    requires forall r :: r in table && p(table[r]) ==> q(table[r])
    ensures Count(table, p) <= Count(table, q)
  {
    SubsetSize(Which(table, p), Which(table, q));
  }

  lemma {:induction false} SubsetSize(a: set<nat>, b: set<nat>)
    requires a <= b
    ensures |a| <= |b|
    ensures |a| == |b| ==> a == b
  {
    assert b == a + (b - a);
    assert |b| == |a| + |b - a|;
  }

  /** An entry that satisfies the larger predicate only makes the count strictly larger. */
  lemma CountBelow<T>(table: map<nat, T>, p: T -> bool, q: T -> bool, r: nat)
    requires forall i :: i in table && p(table[i]) ==> q(table[i])
    requires r in table && q(table[r]) && !p(table[r])
    ensures Count(table, p) < Count(table, q)
  {
    SubsetSize(Which(table, p), Which(table, q));
    assert r in Which(table, q) && r !in Which(table, p);
  }

  lemma CountSome<T>(table: map<nat, T>, p: T -> bool)
    ensures Count(table, p) > 0 <==> exists r :: r in table && p(table[r])
  {
    if Count(table, p) > 0 {
      var r :| r in Which(table, p);
    }
    if r :| r in table && p(table[r]) {
      assert r in Which(table, p);
    }
  }

  /** Disjoint predicates count apart. */
  lemma CountSplit<T>(table: map<nat, T>, p: T -> bool, q: T -> bool, either: T -> bool)
    requires forall r :: r in table ==> (either(table[r]) <==> p(table[r]) || q(table[r]))
    requires forall r :: r in table ==> !(p(table[r]) && q(table[r]))
    ensures Count(table, either) == Count(table, p) + Count(table, q)
  {
    assert Which(table, either) == Which(table, p) + Which(table, q);
    assert Which(table, p) !! Which(table, q);
  }

  ghost function TotalOver<T>(keys: set<nat>, table: map<nat, T>, weight: T -> nat): nat
    requires keys <= table.Keys
  {
    if keys == {} then 0
    else
      var k :| k in keys;
      weight(table[k]) + TotalOver(keys - {k}, table, weight)
  }

  /** The sum of the weights of the entries. */
  ghost function Total<T>(table: map<nat, T>, weight: T -> nat): nat {
    TotalOver(table.Keys, table, weight)
  }

  lemma {:induction false} TotalPick<T>(keys: set<nat>, table: map<nat, T>, weight: T -> nat, r: nat)
    requires keys <= table.Keys && r in keys
    ensures TotalOver(keys, table, weight) == weight(table[r]) + TotalOver(keys - {r}, table, weight)
    decreases |keys|
  {
    var k :| k in keys && TotalOver(keys, table, weight) == weight(table[k]) + TotalOver(keys - {k}, table, weight);
    if k != r {
      TotalPick(keys - {k}, table, weight, r);
      TotalPick(keys - {r}, table, weight, k);
      assert keys - {k} - {r} == keys - {r} - {k};
    }
  }

  lemma {:induction false} TotalSame<T>(keys: set<nat>, table: map<nat, T>, table': map<nat, T>, weight: T -> nat)
    requires keys <= table.Keys && keys <= table'.Keys
    requires forall k :: k in keys ==> table[k] == table'[k]
    ensures TotalOver(keys, table, weight) == TotalOver(keys, table', weight)
    decreases |keys|
  {
    if keys != {} {
      var k :| k in keys;
      TotalPick(keys, table, weight, k);
      TotalPick(keys, table', weight, k);
      TotalSame(keys - {k}, table, table', weight);
    }
  }

  /** Replacing an entry moves the total by the difference of the weights. */
  lemma TotalUpdate<T>(table: map<nat, T>, r: nat, c: T, weight: T -> nat)
    requires r in table
    ensures Total(table[r := c], weight) + weight(table[r]) == Total(table, weight) + weight(c)
  {
    var table' := table[r := c];
    assert table'.Keys == table.Keys;
    TotalPick(table.Keys, table, weight, r);
    TotalPick(table.Keys, table', weight, r);
    TotalSame(table.Keys - {r}, table, table', weight);
  }

  /** A new entry adds its weight. */
  lemma TotalInsert<T>(table: map<nat, T>, r: nat, c: T, weight: T -> nat)
    requires r !in table
    ensures Total(table[r := c], weight) == Total(table, weight) + weight(c)
  {
    var table' := table[r := c];
    assert table'.Keys - {r} == table.Keys;
    TotalPick(table'.Keys, table', weight, r);
    TotalSame(table.Keys, table, table', weight);
  }

  lemma {:induction false} TotalBounded<T>(keys: set<nat>, table: map<nat, T>, weight: T -> nat, bound: nat)
    requires keys <= table.Keys && forall k :: k in table ==> weight(table[k]) <= bound
    ensures TotalOver(keys, table, weight) <= Times(|keys|, bound)
    decreases |keys|
  {
    if keys != {} {
      hide Times;
      var k :| k in keys;
      TotalPick(keys, table, weight, k);
      TotalBounded(keys - {k}, table, weight, bound);
      TimesOneMore(|keys - {k}|, bound);
    }
  }

  function Times(n: nat, bound: nat): nat {
    n * bound
  }

  lemma TimesOneMore(n: nat, bound: nat)
    ensures Times(n + 1, bound) == Times(n, bound) + bound
  {
  }
}
