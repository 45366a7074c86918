/**
 The bounded pool of reusable sinks. `Shelf` says what lending and returning do
 to the free list; the class does it in place on shared byte arrays.
 */
module BufferPool {
  import opened ByteArrays

  /** The free list and how many buffers were ever created. */
  datatype Shelf<B> = Shelf(free: seq<B>, created: nat)

  /** Nothing to lend: no free buffer and no room for a new one. */
  predicate Exhausted<B>(s: Shelf<B>, capacity: nat) {
    s.free == [] && s.created >= capacity
  }

  /** The free list after a loan: the last free buffer goes, or a new one is created. */
  function AfterLoan<B>(s: Shelf<B>, capacity: nat): Shelf<B> {
    if s.free != [] then s.(free := s.free[..|s.free| - 1])
    else if s.created < capacity then s.(created := s.created + 1)
    else s
  }

  function AfterReturn<B>(s: Shelf<B>, capacity: nat, b: B): Shelf<B> {
    if |s.free| < capacity then s.(free := s.free + [b]) else s
  }

  predicate Distinct<B(==)>(s: seq<B>) {
    forall i, j :: 0 <= i < j < |s| ==> s[i] != s[j]
  }

  /** Every buffer created is either free, once, or on loan. */
  ghost predicate Sound<B>(s: Shelf<B>, capacity: nat, lent: set<B>) {
    && Distinct(s.free)
    && (forall b :: b in lent ==> b !in s.free)
    && s.created == |s.free| + |lent| <= capacity
  }

  /** A sound pool lends only what nobody has. */
  lemma LoanKeepsSound<B>(s: Shelf<B>, capacity: nat, lent: set<B>, b: B)
    requires Sound(s, capacity, lent)
    requires b !in lent && (if s.free != [] then b == s.free[|s.free| - 1] else !Exhausted(s, capacity))
    ensures Sound(AfterLoan(s, capacity), capacity, lent + {b})
  {
  }

  /** It refuses exactly when every buffer it may have is on loan. */
  lemma RefusesWhenAllLent<B>(s: Shelf<B>, capacity: nat, lent: set<B>)
    requires Sound(s, capacity, lent)
    ensures Exhausted(s, capacity) <==> |lent| == capacity
  {
  }

  lemma ReturnKeepsSound<B>(s: Shelf<B>, capacity: nat, lent: set<B>, b: B)
    requires Sound(s, capacity, lent) && b in lent
    ensures Sound(AfterReturn(s, capacity, b), capacity, lent - {b})
    ensures AfterReturn(s, capacity, b).free == s.free + [b]
  {
    assert lent == (lent - {b}) + {b};
  }

  class BufferPool {
    const capacity: nat
    var free: seq<ByteArray>
    var created: nat
    ghost var lent: set<ByteArray>  // the buffers out on loan

    ghost function Contents(): Shelf<ByteArray>
      reads this
    {
      Shelf(free, created)
    }

    ghost predicate Valid()
      reads this
    {
      Sound(Contents(), capacity, lent)
    }

    constructor (capacity: nat)
      ensures Valid() && this.capacity == capacity && lent == {} && Contents() == Shelf([], 0)
    {
      this.capacity := capacity;
      free, created, lent := [], 0, {};
    }

    /** Take the last free buffer off the shelf, emptied, or a new one; none exactly if all are on loan. */
    method Acquire() returns (buffer: ByteArray?)
      requires Valid()
      modifies this, free
      ensures Valid() && Contents() == AfterLoan(old(Contents()), capacity)
      ensures buffer == null <==> |old(lent)| == capacity
      ensures if buffer == null then lent == old(lent)
              else buffer.data == [] && buffer !in old(lent) && lent == old(lent) + {buffer}
      ensures buffer != null ==> if old(free) == [] then fresh(buffer) else buffer == old(free[|free| - 1])
      ensures forall b :: b in old(lent) || b in free ==> b.data == old(b.data)
    {
      ghost var shelf := Contents();
      if free != [] {
        var last := free[|free| - 1];
        free := free[..|free| - 1];
        last.data := [];
        buffer := last;
      } else if created < capacity {
        created := created + 1;
        var added := new ByteArray();
        buffer := added;
      } else {
        buffer := null;
      }
      if buffer != null {
        LoanKeepsSound(shelf, capacity, lent, buffer);
        lent := lent + {buffer};
      }
    }

    /** Give a buffer back; the free list never grows past the capacity, whatever is given back. */
    method Release(buffer: ByteArray)
      modifies this
      ensures Contents() == AfterReturn(old(Contents()), capacity, buffer)
      ensures |old(free)| <= capacity ==> |free| <= capacity
      ensures old(Valid()) && buffer in old(lent) ==> Valid() && lent == old(lent) - {buffer}
    {
      if Valid() && buffer in lent {
        ReturnKeepsSound(Contents(), capacity, lent, buffer);
      }
      if |free| < capacity {
        free := free + [buffer];
      }
      lent := lent - {buffer};
    }
  }
}
