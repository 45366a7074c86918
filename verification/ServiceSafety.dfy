/** The properties of the whole instance, for every state of every run. */
module ServiceSafety {
  import opened ByteStrings
  import opened BufferPool
  import opened Counting
  import opened ServiceProtocol
  import opened ServiceInvariants
  import PoolProtocol
  import PoolInvariants
  import PoolSafety

  lemma {:induction false} RunKeepsInv(doorLimit: nat, capacity: nat, maxUpload: nat, run: seq<Service>, i: nat)
    requires IsRun(doorLimit, capacity, maxUpload, run) && i < |run|
    ensures Inv(run[i])
    ensures run[i].doorLimit == doorLimit && run[i].capacity == capacity && run[i].maxUpload == maxUpload
  {
    hide Inv, Do, Enabled;
    if i == 0 {
      InitInv(doorLimit, capacity, maxUpload);
    } else {
      RunKeepsInv(doorLimit, capacity, maxUpload, run, i - 1);
      assert Next(run[i - 1], run[i]);
      var step :| Enabled(run[i - 1], step) && run[i] == Do(run[i - 1], step);
      StepKeepsInv(run[i - 1], step);
      StepShape(run[i - 1], step);
    }
  }

  /** What the pool goes through inside the instance, it goes through on its own. */
  lemma {:induction false} PoolRunsItsProtocol(
    doorLimit: nat, capacity: nat, maxUpload: nat, run: seq<Service>, i: nat)
    returns (within: seq<PoolProtocol.Pool>)
    requires IsRun(doorLimit, capacity, maxUpload, run) && i < |run|
    ensures PoolProtocol.IsRun(capacity, within) && within[|within| - 1] == run[i].pool
  {
    if i == 0 {
      within := [run[0].pool];
    } else {
      within := PoolRunsItsProtocol(doorLimit, capacity, maxUpload, run, i - 1);
      NoneStarvedBefore(doorLimit, capacity, maxUpload, run, i);
      PoolMovesByItsSteps(run[i - 1], run[i]);
      hide Next, IsRun;
      if run[i].pool != run[i - 1].pool {
        within := PoolRunsOn(capacity, within, run[i].pool);
      }
    }
  }

  lemma NoneStarvedBefore(doorLimit: nat, capacity: nat, maxUpload: nat, run: seq<Service>, i: nat)
    requires IsRun(doorLimit, capacity, maxUpload, run) && 0 < i < |run|
    ensures NoneStarved(run[i - 1]) && Next(run[i - 1], run[i])
  {
    RunKeepsInv(doorLimit, capacity, maxUpload, run, i - 1);
    assert Next(run[i - 1], run[i]);
  }

  lemma PoolRunsOn(capacity: nat, run: seq<PoolProtocol.Pool>, p: PoolProtocol.Pool)
    returns (longer: seq<PoolProtocol.Pool>)
    requires PoolProtocol.IsRun(capacity, run) && PoolProtocol.Next(run[|run| - 1], p)
    ensures PoolProtocol.IsRun(capacity, longer) && longer[|longer| - 1] == p
  {
    hide PoolProtocol.Next;
    longer := run + [p];
  }

  lemma PoolMovesByItsSteps(s: Service, s': Service)
    requires NoneStarved(s) && Next(s, s')
    ensures s'.pool == s.pool || PoolProtocol.Next(s.pool, s'.pool)
  {
    var step :| Enabled(s, step) && s' == Do(s, step);
    PoolMovesBy(s, step);
    if s'.pool != s.pool {
      assert PoolProtocol.Enabled(s.pool, PoolStep(step));
    }
  }

  /** The pool's part in a step, if it has one. */
  function PoolStep(step: Step): PoolProtocol.Step {
    match step
    case Thread(p) => p
    case Extract(r) => PoolProtocol.Begin(r)
    case _ => PoolProtocol.MarkReady
  }

  lemma PoolMovesBy(s: Service, step: Step)
    requires NoneStarved(s) && Enabled(s, step)
    ensures || Do(s, step).pool == s.pool
            || (&& PoolProtocol.Enabled(s.pool, PoolStep(step))
                && Do(s, step).pool == PoolProtocol.Do(s.pool, PoolStep(step)))
  {
    hide PoolProtocol.Do, DoorFree, AdmissionFree, Exhausted, AfterLoan, AfterReturn, Lent;
  }

  predicate IsGranted(q: Request) {
    q.AdmitGranted?
  }

  /**
   Slots are conserved at the door and at the gate, handed-over ones included,
   and the counters count requests; so the door and the gate keep their limits.
   */
  lemma SlotsConserved(doorLimit: nat, capacity: nat, maxUpload: nat, run: seq<Service>, i: nat)
    requires IsRun(doorLimit, capacity, maxUpload, run) && i < |run|
    ensures var s := run[i];
            && s.door + Count(s.requests, HoldsDoor) == doorLimit
            && s.admission + Count(s.requests, IsGranted) + s.inUse == capacity
            && s.inUse == Count(s.requests, IsAdmitted) && 0 <= s.inUse <= capacity
            && s.waiting == Count(s.requests, IsCountedWaiter)
  {
    RunKeepsInv(doorLimit, capacity, maxUpload, run, i);
    CountSplit(run[i].requests, IsGranted, IsAdmitted, HoldsAdmission);
  }

  /** Once every request is gone, everything they held is back. */
  lemma EverythingComesBack(doorLimit: nat, capacity: nat, maxUpload: nat, run: seq<Service>, i: nat)
    requires IsRun(doorLimit, capacity, maxUpload, run) && i < |run| && AllGone(run[i])
    ensures run[i].doorLimit == doorLimit && run[i].capacity == capacity && Returned(run[i])
  {
    RunKeepsInv(doorLimit, capacity, maxUpload, run, i);
    GoneMeansReturned(run[i]);
  }

  ghost predicate AllGone(s: Service) {
    forall r :: r in s.requests ==> s.requests[r].Gone?
  }

  /** Every slot and buffer is free, and no call of the pool is left. */
  ghost predicate Returned(s: Service) {
    && s.door == s.doorLimit && s.admission == s.capacity && s.inUse == 0 && s.waiting == 0
    && |s.shelf.free| == s.shelf.created
    && (forall r :: r in s.pool.calls ==> s.pool.calls[r].pc.Over?)
  }

  lemma GoneMeansReturned(s: Service)
    requires Inv(s) && AllGone(s)
    ensures Returned(s)
  {
    CountSome(s.requests, HoldsDoor);
    CountSome(s.requests, HoldsAdmission);
    CountSome(s.requests, IsAdmitted);
    CountSome(s.requests, IsCountedWaiter);
    assert Borrowed(s) == {};
  }

  // Buffers.

  /**
   Every admitted request has a buffer, so the branch for one without is never
   taken. The buffers created are the free ones and one for each admitted
   request, and never more than the capacity.
   */
  lemma AdmittedMeansBuffered(doorLimit: nat, capacity: nat, maxUpload: nat, run: seq<Service>, i: nat)
    requires IsRun(doorLimit, capacity, maxUpload, run) && i < |run|
    ensures var s := run[i];
            && (forall r :: r in s.requests ==> !s.requests[r].Starved?)
            && (forall r :: r in s.requests && IsAdmitted(s.requests[r]) ==> HasBuffer(s.requests[r]))
            && s.shelf.created == |s.shelf.free| + s.inUse <= capacity
  {
    RunKeepsInv(doorLimit, capacity, maxUpload, run, i);
    var s := run[i];
    CountAtMost(s.requests, HasBuffer, IsAdmitted);
    CountAtMost(s.requests, IsAdmitted, HasBuffer);
  }

  /** A buffer belongs to one request or is free once, never both. */
  lemma NoAliasing(doorLimit: nat, capacity: nat, maxUpload: nat, run: seq<Service>, i: nat, r: nat, q: nat)
    requires IsRun(doorLimit, capacity, maxUpload, run) && i < |run|
    requires r in run[i].requests && HasBuffer(run[i].requests[r])
    ensures var s := run[i];
            && s.requests[r].buffer !in s.shelf.free
            && (q != r && q in s.requests && HasBuffer(s.requests[q]) ==> s.requests[q].buffer != s.requests[r].buffer)
            && Distinct(s.shelf.free)
  {
    RunKeepsInv(doorLimit, capacity, maxUpload, run, i);
    assert run[i].requests[r].buffer in Borrowed(run[i]);
  }

  /** A request's buffer was empty when it got it. */
  lemma BuffersStartEmpty(doorLimit: nat, capacity: nat, maxUpload: nat, run: seq<Service>, i: nat, r: nat)
    requires IsRun(doorLimit, capacity, maxUpload, run) && i + 1 < |run|
    requires r in run[i + 1].requests && HasBuffer(run[i + 1].requests[r])
    requires !(r in run[i].requests && HasBuffer(run[i].requests[r]))
    ensures var b := run[i + 1].requests[r].buffer; b in run[i + 1].memory && run[i + 1].memory[b] == []
  {
    assert Next(run[i], run[i + 1]);
    var step :| Enabled(run[i], step) && run[i + 1] == Do(run[i], step);
    StepLendsEmpty(run[i], step, r);
  }

  lemma StepLendsEmpty(s: Service, step: Step, r: nat)
    requires Enabled(s, step) && r in Do(s, step).requests && HasBuffer(Do(s, step).requests[r])
    requires !(r in s.requests && HasBuffer(s.requests[r]))
    ensures var s' := Do(s, step); var b := s'.requests[r].buffer; b in s'.memory && s'.memory[b] == []
  {
    hide DoorFree, AdmissionFree, Exhausted, Lent, AfterLoan, AfterReturn, PoolProtocol.Do, PoolProtocol.Enabled;
  }

  /**
   Until a request's call into the pool is over, nothing takes its buffer, gives
   it to anyone else, frees it or writes to it.
   */
  lemma CallKeepsItsBuffer(doorLimit: nat, capacity: nat, maxUpload: nat, run: seq<Service>, i: nat, r: nat)
    requires IsRun(doorLimit, capacity, maxUpload, run) && i + 1 < |run|
    requires r in run[i].pool.calls && !run[i].pool.calls[r].pc.Over?
    ensures r in run[i].requests && run[i].requests[r].Extracting?
    ensures run[i + 1].requests.Keys >= {r} && run[i + 1].requests[r] == run[i].requests[r]
    ensures var b := run[i].requests[r].buffer;
            && b in run[i].memory && b in run[i + 1].memory && run[i + 1].memory[b] == run[i].memory[b]
            && b !in run[i].shelf.free && b !in run[i + 1].shelf.free
  {
    RunKeepsInv(doorLimit, capacity, maxUpload, run, i);
    RunKeepsInv(doorLimit, capacity, maxUpload, run, i + 1);
    NoAliasing(doorLimit, capacity, maxUpload, run, i, r, r);
    assert Next(run[i], run[i + 1]);
    StepSparesBuffer(run[i], run[i + 1], r);
    NoAliasing(doorLimit, capacity, maxUpload, run, i + 1, r, r);
  }

  lemma StepSparesBuffer(s: Service, s': Service, r: nat)
    requires Inv(s) && Next(s, s') && r in s.requests && s.requests[r].Extracting?
    requires r in s.pool.calls && !s.pool.calls[r].pc.Over?
    ensures r in s'.requests && s'.requests[r] == s.requests[r]
    ensures var b := s.requests[r].buffer; b in s.memory && b in s'.memory && s'.memory[b] == s.memory[b]
  {
    hide Balanced, CallsLinked, LoopOk, PoolInvariants.Inv, NobodyQueues, FlagOk;
    hide Do, Enabled, Sound, Borrowed, AfterLoan;
    var b := s.requests[r].buffer;
    InBorrowed(s, r);
    if !Exhausted(s.shelf, s.capacity) {
      LendsTheUnheld(s.shelf, s.capacity, Borrowed(s));
    }
    var step :| Enabled(s, step) && s' == Do(s, step);
    StepSpares(s, step, r);
  }

  lemma InBorrowed(s: Service, r: nat)
    requires r in s.requests && HasBuffer(s.requests[r])
    ensures s.requests[r].buffer in Borrowed(s)
  {
  }

  lemma StepSpares(s: Service, step: Step, r: nat)
    requires Unshared(s) && Enabled(s, step) && r in s.requests && s.requests[r].Extracting?
    requires s.requests[r].buffer in s.memory
    requires Lent(s.shelf) == s.requests[r].buffer ==> Exhausted(s.shelf, s.capacity)
    requires r in s.pool.calls && !s.pool.calls[r].pc.Over?
    ensures r in Do(s, step).requests && Do(s, step).requests[r] == s.requests[r]
    ensures var b := s.requests[r].buffer; b in Do(s, step).memory && Do(s, step).memory[b] == s.memory[b]
  {
    hide DoorFree, AdmissionFree, PoolProtocol.Do, PoolProtocol.Enabled, Exhausted, Lent, AfterLoan, AfterReturn;
  }

  /** While a request reads, its buffer keeps what it has and only grows, and no other step touches it. */
  lemma BuffersGrow(doorLimit: nat, capacity: nat, maxUpload: nat, run: seq<Service>, i: nat, r: nat)
    requires IsRun(doorLimit, capacity, maxUpload, run) && i + 1 < |run|
    requires r in run[i].requests && run[i].requests[r].Reading?
    requires r in run[i + 1].requests && HasBuffer(run[i + 1].requests[r])
    ensures var b := run[i].requests[r].buffer;
            && run[i + 1].requests[r].buffer == b && b in run[i].memory && b in run[i + 1].memory
            && run[i].memory[b] <= run[i + 1].memory[b]
            && (run[i + 1].requests[r].Extracting? ==> run[i + 1].memory[b] == run[i].memory[b])
  {
    RunKeepsInv(doorLimit, capacity, maxUpload, run, i);
    InBorrowed(run[i], r);
    if !Exhausted(run[i].shelf, run[i].capacity) {
      LendsTheUnheld(run[i].shelf, run[i].capacity, Borrowed(run[i]));
    }
    assert Next(run[i], run[i + 1]);
    var step :| Enabled(run[i], step) && run[i + 1] == Do(run[i], step);
    hide IsRun, Inv, Do, Enabled, Borrowed, Exhausted, Lent;
    StepGrows(run[i], step, r);
  }

  lemma StepGrows(s: Service, step: Step, r: nat)
    requires Unshared(s) && Enabled(s, step) && r in s.requests && s.requests[r].Reading?
    requires s.requests[r].buffer in s.memory
    requires Lent(s.shelf) == s.requests[r].buffer ==> Exhausted(s.shelf, s.capacity)
    requires r in Do(s, step).requests && HasBuffer(Do(s, step).requests[r])
    ensures var s', b := Do(s, step), s.requests[r].buffer;
            && s'.requests[r].buffer == b && b in s'.memory && s.memory[b] <= s'.memory[b]
            && (s'.requests[r].Extracting? ==> s'.memory[b] == s.memory[b])
  {
    hide DoorFree, AdmissionFree, PoolProtocol.Do, PoolProtocol.Enabled, Exhausted, Lent, AfterLoan, AfterReturn;
  }

  function Length(b: Bytes): nat {
    |b|
  }

  /** All pooled buffers together, lent or free, stay within capacity times the upload limit. */
  lemma MemoryBounded(doorLimit: nat, capacity: nat, maxUpload: nat, run: seq<Service>, i: nat)
    requires IsRun(doorLimit, capacity, maxUpload, run) && i < |run|
    ensures Total(run[i].memory, Length) <= capacity * maxUpload
  {
    RunKeepsInv(doorLimit, capacity, maxUpload, run, i);
    var s := run[i];
    TotalBounded(s.memory.Keys, s.memory, Length, maxUpload);
    KeysBelow(s.memory.Keys, s.shelf.created);
    Scale(|s.memory.Keys|, capacity, maxUpload);
  }

  lemma Scale(a: nat, b: nat, c: nat)
    requires a <= b
    ensures a * c <= b * c
  {
  }

  lemma {:induction false} KeysBelow(keys: set<nat>, n: nat)
    requires forall k :: k in keys ==> k < n
    ensures |keys| <= n
  {
    if n > 0 {
      KeysBelow(keys - {n - 1}, n - 1);
      assert keys <= (keys - {n - 1}) + {n - 1};
      SubsetSize(keys, (keys - {n - 1}) + {n - 1});
    } else {
      assert keys == {};
    }
  }

  // The gate.

  /**
   With the door no wider than the gate, no request ever queues at the gate:
   whoever reaches it takes a slot at once.
   */
  lemma NobodyWaitsAtTheGate(doorLimit: nat, capacity: nat, maxUpload: nat, run: seq<Service>, i: nat, r: nat)
    requires IsRun(doorLimit, capacity, maxUpload, run) && i < |run| && doorLimit <= capacity
    requires r in run[i].requests
    ensures !InAdmitQueue(run[i].requests[r])
    ensures run[i].requests[r].Inside? ==> AdmissionFree(run[i]) && run[i].inUse < capacity
  {
    RunKeepsInv(doorLimit, capacity, maxUpload, run, i);
    if run[i].requests[r].Inside? {
      GateOpen(run[i], r);
      SlotsConserved(doorLimit, capacity, maxUpload, run, i);
    }
  }

  /** A caller parked at the gate is counted as waiting exactly if it found every slot in use. */
  lemma CountedIfSaturated(doorLimit: nat, capacity: nat, maxUpload: nat, run: seq<Service>, i: nat, r: nat)
    requires IsRun(doorLimit, capacity, maxUpload, run) && i + 1 < |run|
    requires r in run[i].requests && !InAdmitQueue(run[i].requests[r])
    requires r in run[i + 1].requests && InAdmitQueue(run[i + 1].requests[r])
    ensures IsCountedWaiter(run[i + 1].requests[r]) <==> Count(run[i].requests, IsAdmitted) >= capacity
  {
    RunKeepsInv(doorLimit, capacity, maxUpload, run, i);
    assert Next(run[i], run[i + 1]);
    var step :| Enabled(run[i], step) && run[i + 1] == Do(run[i], step);
    hide IsRun, BuffersOk, CallsLinked, LoopOk, NobodyQueues, FlagOk, PoolInvariants.Inv, Do, Enabled, Count;
    ParksCounted(run[i], step, r);
  }

  lemma ParksCounted(s: Service, step: Step, r: nat)
    requires Enabled(s, step) && r in s.requests && !InAdmitQueue(s.requests[r])
    requires r in Do(s, step).requests && InAdmitQueue(Do(s, step).requests[r])
    ensures IsCountedWaiter(Do(s, step).requests[r]) <==> s.inUse >= s.capacity
  {
    hide DoorFree, AdmissionFree, PoolProtocol.Do, PoolProtocol.Enabled, Exhausted, Lent, AfterLoan, AfterReturn;
  }

  predicate IsExtracting(q: Request) {
    q.Extracting?
  }

  predicate HoldsDeferred(c: PoolProtocol.Call) {
    PoolInvariants.HoldsPermit(c) && c.pc.Over?
  }

  predicate HoldsLive(c: PoolProtocol.Call) {
    PoolInvariants.HoldsPermit(c) && !c.pc.Over?
  }

  /**
   An admitted request finds the pool's gate full only if some call that timed
   out has not given its slot back yet: its job still runs, or its release is
   under way. Such slots and the extracting requests then outnumber the capacity.
   */
  lemma PoolFullOnlyByTimeouts(doorLimit: nat, capacity: nat, maxUpload: nat, run: seq<Service>, i: nat, r: nat)
    requires IsRun(doorLimit, capacity, maxUpload, run) && i < |run|
    requires r in run[i].pool.calls && run[i].pool.calls[r].pc.TryPermit? && run[i].pool.sem == 0
    ensures exists q :: q in run[i].pool.calls && DeferredByTimeout(run[i].pool.calls[q])
    ensures Count(run[i].pool.calls, DeferredByTimeout) + Count(run[i].requests, IsExtracting) > capacity
  {
    RunKeepsInv(doorLimit, capacity, maxUpload, run, i);
    FullOnlyByTimeouts(run[i], r);
  }

  /** The call timed out, and its slot is with the callback of its job. */
  predicate DeferredByTimeout(c: PoolProtocol.Call) {
    && c.pc == PoolProtocol.Over(PoolProtocol.TimedOut) && PoolInvariants.HoldsPermit(c)
    && (c.job.Unfinished() <==> c.release.Armed?)
    && (c.release.Armed? || c.release.Discounting? || c.release.Returning?)
  }

  lemma FullOnlyByTimeouts(s: Service, r: nat)
    requires Inv(s) && r in s.pool.calls && s.pool.calls[r].pc.TryPermit? && s.pool.sem == 0
    ensures exists q :: q in s.pool.calls && DeferredByTimeout(s.pool.calls[q])
    ensures Count(s.pool.calls, DeferredByTimeout) + Count(s.requests, IsExtracting) > s.capacity
  {
    hide BuffersOk, LoopOk, NoneStarved, NobodyQueues, FlagOk, PoolInvariants.CallOk, PoolInvariants.LockOk,
      PoolInvariants.ExecutorsOk, PoolInvariants.FlagOk;
    var calls := s.pool.calls;
    HeldOverIsDeferred(calls[r]);
    // Live holders are extracting requests other than `r`, of which there are fewer than slots.
    SubsetSize(Which(calls, HoldsLive), Which(s.requests, IsExtracting));
    assert r in Which(s.requests, IsExtracting) && r !in Which(calls, HoldsLive);
    CountAtMost(s.requests, IsExtracting, HoldsAdmission);
    CountSplit(calls, HoldsDeferred, HoldsLive, PoolInvariants.HoldsPermit);
    forall q | q in calls ensures HoldsDeferred(calls[q]) ==> DeferredByTimeout(calls[q]) {
      HeldOverIsDeferred(calls[q]);
    }
    CountAtMost(calls, HoldsDeferred, DeferredByTimeout);
    CountSome(calls, DeferredByTimeout);
  }

  lemma HeldOverIsDeferred(c: PoolProtocol.Call)
    requires PoolInvariants.CallOk(c)
    ensures HoldsDeferred(c) ==> DeferredByTimeout(c)
    ensures c.pc.TryPermit? ==> !PoolInvariants.HoldsPermit(c)
  {
  }

  /** The call found the pool's gate full. */
  predicate MetFullGate(c: PoolProtocol.Call) {
    || c.pc.Signal? || c.pc.Enlist? || c.pc.Block? || c.pc.Delist? || c.pc.CountSlow? || c.pc.Lapse?
    || c.pc == PoolProtocol.Over(PoolProtocol.Overloaded)
  }

  predicate TimedOutCall(c: PoolProtocol.Call) {
    c.pc == PoolProtocol.Over(PoolProtocol.TimedOut)
  }

  ghost predicate FullOnlyAfterTimeout(p: PoolProtocol.Pool) {
    (exists r :: r in p.calls && MetFullGate(p.calls[r])) ==> exists q :: q in p.calls && TimedOutCall(p.calls[q])
  }

  /** The pool turns an admitted request away as overloaded only after some extraction timed out. */
  lemma {:induction false} OverloadedOnlyAfterTimeout(
    doorLimit: nat, capacity: nat, maxUpload: nat, run: seq<Service>, i: nat)
    requires IsRun(doorLimit, capacity, maxUpload, run) && i < |run|
    ensures FullOnlyAfterTimeout(run[i].pool)
  {
    if i > 0 {
      hide Inv, Do, Enabled, FullOnlyAfterTimeout;
      OverloadedOnlyAfterTimeout(doorLimit, capacity, maxUpload, run, i - 1);
      RunKeepsInv(doorLimit, capacity, maxUpload, run, i - 1);
      assert Next(run[i - 1], run[i]);
      PoolMovesByItsSteps(run[i - 1], run[i]);
      if run[i].pool != run[i - 1].pool {
        var p :| PoolProtocol.Enabled(run[i - 1].pool, p) && run[i].pool == PoolProtocol.Do(run[i - 1].pool, p);
        StepKeepsFullOnlyAfterTimeout(run[i - 1], p);
      }
    }
  }

  lemma StepKeepsFullOnlyAfterTimeout(s: Service, p: PoolProtocol.Step)
    requires Inv(s) && FullOnlyAfterTimeout(s.pool) && PoolProtocol.Enabled(s.pool, p)
    ensures FullOnlyAfterTimeout(PoolProtocol.Do(s.pool, p))
  {
    hide Balanced, BuffersOk, CallsLinked, LoopOk, NoneStarved, NobodyQueues, FlagOk, PoolProtocol.Enabled,
      PoolInvariants.CallOk, PoolInvariants.Balanced, PoolInvariants.LockOk, PoolInvariants.ExecutorsOk,
      PoolInvariants.FlagOk;
    var calls, calls' := s.pool.calls, PoolProtocol.Do(s.pool, p).calls;
    if r :| r in calls' && MetFullGate(calls'[r]) {
      var q: nat;
      if r in calls && MetFullGate(calls[r]) {
        q :| q in calls && TimedOutCall(calls[q]);
      } else {
        EntersQueueAtFullGate(s.pool, p, r);
        FullOnlyByTimeouts(s, r);
        q :| q in calls && DeferredByTimeout(calls[q]);
      }
      OverStaysOver(s.pool, p, q);
      assert q in calls' && TimedOutCall(calls'[q]);
    }
  }

  lemma OverStaysOver(p: PoolProtocol.Pool, step: PoolProtocol.Step, q: nat)
    requires PoolProtocol.Enabled(p, step) && q in p.calls && p.calls[q].pc.Over?
    ensures q in PoolProtocol.Do(p, step).calls && PoolProtocol.Do(p, step).calls[q].pc == p.calls[q].pc
  {
    if !step.Begin? {
      hide PoolProtocol.Do;
      ThreadKeepsCalls(p, step);
    }
  }

  lemma EntersQueueAtFullGate(p: PoolProtocol.Pool, step: PoolProtocol.Step, r: nat)
    requires PoolInvariants.CallsOk(p) && PoolProtocol.Enabled(p, step) && r in PoolProtocol.Do(p, step).calls
    requires MetFullGate(PoolProtocol.Do(p, step).calls[r]) && !(r in p.calls && MetFullGate(p.calls[r]))
    ensures r in p.calls && p.calls[r].pc.TryPermit? && p.sem == 0
  {
    hide PoolInvariants.CallOk, PoolProtocol.UnloadStep, PoolProtocol.AdvanceCloser, PoolProtocol.AdvanceCall;
    if !PoolInvariants.OnCall(step) {
      PoolInvariants.OtherStepAndGate(p, step);
    } else if step.Unload? {
      UnloadKeepsPc(p.calls[step.r], p.inUse);
    } else if step.Advance? {
      hide MetFullGate;
      AdvanceMeetsGate(p, step.r);
    }
  }

  lemma AdvanceMeetsGate(p: PoolProtocol.Pool, r: nat)
    requires r in p.calls && PoolInvariants.CallOk(p.calls[r]) && PoolProtocol.CanAdvance(p, p.calls[r])
    ensures var p' := PoolProtocol.AdvanceCall(p, r);
            && r in p'.calls && p'.calls == p.calls[r := p'.calls[r]]
            && (MetFullGate(p'.calls[r]) && !MetFullGate(p.calls[r]) ==> p.calls[r].pc.TryPermit? && p.sem == 0)
  {
    if !PoolProtocol.AtGate(p.calls[r].pc) {
      hide PoolProtocol.JobStep, PoolProtocol.RepairStep, PoolProtocol.AdvanceAtGate;
      MeetsGateOnlyAtGate(p.calls[r], p.newest, p.broken, p.shut, p.closed);
    }
  }

  lemma MeetsGateOnlyAtGate(c: PoolProtocol.Call, newest: nat, broken: set<nat>, shut: set<nat>, closed: bool)
    requires PoolInvariants.CallOk(c) && !PoolProtocol.AtGate(c.pc) && !c.pc.Over?
    ensures !MetFullGate(PoolProtocol.JobStep(c, newest, broken, shut)) || MetFullGate(c)
    ensures !MetFullGate(PoolProtocol.RepairStep(c, closed)) || MetFullGate(c)
  {
  }

  // Readiness.

  /**
   With the door no wider than the gate: whenever the event loop could answer
   `/ready` with "not ready", some request holds an admission slot.
   */
  lemma NotReadyMeansAdmitted(doorLimit: nat, capacity: nat, maxUpload: nat, run: seq<Service>, i: nat)
    requires IsRun(doorLimit, capacity, maxUpload, run) && i < |run| && doorLimit <= capacity
    requires run[i].pool.overloaded && !run[i].loop
    ensures run[i].inUse > 0 && exists r :: r in run[i].requests && IsAdmitted(run[i].requests[r])
  {
    RunKeepsInv(doorLimit, capacity, maxUpload, run, i);
    CountSome(run[i].requests, IsAdmitted);
  }

  /** A request that has read its body can always start its extraction, into a call of its own. */
  lemma ExtractionCanStart(doorLimit: nat, capacity: nat, maxUpload: nat, run: seq<Service>, i: nat, r: nat)
    requires IsRun(doorLimit, capacity, maxUpload, run) && i < |run|
    requires r in run[i].requests && run[i].requests[r].Reading?
    ensures r !in run[i].pool.calls && run[i].requests[r].buffer in run[i].memory
  {
    RunKeepsInv(doorLimit, capacity, maxUpload, run, i);
    InBorrowed(run[i], r);
  }
}
