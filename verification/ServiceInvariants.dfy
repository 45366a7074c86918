/** What every run of the instance keeps. */
module ServiceInvariants {
  import opened ByteStrings
  import opened BufferPool
  import opened Counting
  import opened ServiceProtocol
  import PoolProtocol
  import PoolInvariants

  /** Both semaphores conserve their slots, and the gate's counters count what they say. */
  ghost predicate Balanced(s: Service) {
    && s.door + Count(s.requests, HoldsDoor) == s.doorLimit
    && s.admission + Count(s.requests, HoldsAdmission) == s.capacity
    && s.inUse == Count(s.requests, IsAdmitted)
    && s.waiting == Count(s.requests, IsCountedWaiter)
  }

  /** The buffers requests hold. */
  ghost function Borrowed(s: Service): set<nat> {
    set r | r in s.requests && HasBuffer(s.requests[r]) :: s.requests[r].buffer
  }

  /** No two requests hold the same buffer. */
  ghost predicate Unshared(s: Service) {
    forall r, q :: r in s.requests && q in s.requests && r != q && HasBuffer(s.requests[r]) && HasBuffer(s.requests[q])
      ==> s.requests[r].buffer != s.requests[q].buffer
  }

  /** Every buffer created is free once or held by one request. */
  ghost predicate ShelfOk(s: Service) {
    && Sound(s.shelf, s.capacity, Borrowed(s))
    && |Borrowed(s)| == Count(s.requests, HasBuffer)
    && (forall b :: b in s.shelf.free ==> b < s.shelf.created)
    && (forall b :: b in Borrowed(s) ==> b < s.shelf.created)
  }

  /** Exactly the buffers created have contents, and none is too long. */
  ghost predicate MemoryOk(s: Service) {
    && (forall b :: b in s.memory <==> 0 <= b < s.shelf.created)
    && (forall b :: b in s.memory ==> |s.memory[b]| <= s.maxUpload)
  }

  ghost predicate BuffersOk(s: Service) {
    Unshared(s) && ShelfOk(s) && MemoryOk(s)
  }

  ghost predicate NoneStarved(s: Service) {
    forall r :: r in s.requests ==> !s.requests[r].Starved?
  }

  /** A call of the pool belongs to a request that waits for it, or is over. */
  ghost predicate CallsLinked(s: Service) {
    && s.pool.permits == s.capacity
    && (forall r :: r in s.pool.calls ==>
          r in s.requests &&
          (|| s.requests[r].Extracting?
           || (s.pool.calls[r].pc.Over? && (s.requests[r].Marking? || s.requests[r].Leaving? || s.requests[r].Gone?))))
    && (forall r :: r in s.requests && s.requests[r].Extracting? ==> r in s.pool.calls)
  }

  /** The event loop is in the middle of at most one request's step. */
  ghost predicate LoopOk(s: Service) {
    && (s.loop ==> exists r :: r in s.requests && s.requests[r].Marking?)
    && (forall r :: r in s.requests && s.requests[r].Marking? ==> s.loop)
    && (forall r, q ::
          r in s.requests && q in s.requests && s.requests[r].Marking? && s.requests[q].Marking? ==> r == q)
  }

  /** With the door no wider than the gate nobody waits at the gate. */
  ghost predicate NobodyQueues(s: Service) {
    forall r :: r in s.requests ==> !InAdmitQueue(s.requests[r])
  }

  predicate MarksReady(q: Request) {
    q.Marking? && q.idle
  }

  /** A raised flag has an admitted request, or one about to lower it. */
  ghost predicate FlagOk(s: Service) {
    s.pool.overloaded ==> s.inUse > 0 || exists r :: r in s.requests && MarksReady(s.requests[r])
  }

  ghost predicate Inv(s: Service) {
    && Balanced(s) && BuffersOk(s) && NoneStarved(s) && CallsLinked(s) && LoopOk(s) && PoolInvariants.Inv(s.pool)
    && (s.doorLimit <= s.capacity ==> NobodyQueues(s) && FlagOk(s))
  }

  lemma InitInv(doorLimit: nat, capacity: nat, maxUpload: nat)
    ensures Inv(Init(doorLimit, capacity, maxUpload))
  {
    CountNone(HoldsDoor);
    CountNone(HoldsAdmission);
    CountNone(IsAdmitted);
    CountNone(IsCountedWaiter);
    CountNone(HasBuffer);
    PoolInvariants.InitInv(capacity);
    assert Borrowed(Init(doorLimit, capacity, maxUpload)) == {};
  }

  lemma StepShape(s: Service, step: Step)
    requires Enabled(s, step)
    ensures var s' := Do(s, step);
            && s'.doorLimit == s.doorLimit && s'.capacity == s.capacity && s'.maxUpload == s.maxUpload
            && (step.Thread? || step.Receive? ==> s'.requests == s.requests)
            && (!step.Thread? && !step.Receive? ==>
                  step.r in s'.requests && s'.requests == s.requests[step.r := s'.requests[step.r]])
  {
  }

  /** What a step on request `r` does to the two semaphores and the counters. */
  ghost predicate SlotEffect(s: Service, s': Service, r: nat) {
    && r in s'.requests && s'.requests == s.requests[r := s'.requests[r]]
    && s'.doorLimit == s.doorLimit && s'.capacity == s.capacity
    && s'.door + One(HoldsDoor(s'.requests[r])) == s.door + One(r in s.requests && HoldsDoor(s.requests[r]))
    && s'.admission + One(HoldsAdmission(s'.requests[r])) ==
       s.admission + One(r in s.requests && HoldsAdmission(s.requests[r]))
    && s'.inUse - One(IsAdmitted(s'.requests[r])) == s.inUse - One(r in s.requests && IsAdmitted(s.requests[r]))
    && s'.waiting - One(IsCountedWaiter(s'.requests[r])) ==
       s.waiting - One(r in s.requests && IsCountedWaiter(s.requests[r]))
  }

  lemma StepSlotEffect(s: Service, step: Step)
    requires Enabled(s, step) && !step.Thread? && !step.Receive?
    ensures SlotEffect(s, Do(s, step), step.r)
  {
    hide SlotEffect, Do;
    if step.AdmitTry? || step.AdmitResume? {
      AdmitSlotEffect(s, step);
    } else if step.Finish? || step.Starve? || step.Extract? || step.Mark? || step.AdmitGrant? || step.AdmitExpire? {
      GateSlotEffect(s, step);
    } else {
      DoorSlotEffect(s, step);
    }
  }

  lemma DoorSlotEffect(s: Service, step: Step)
    requires Enabled(s, step)
    requires || step.Arrive? || step.DoorTry? || step.DoorGrant? || step.DoorResume?
             || step.DoorExpire? || step.Refuse? || step.Leave?
    ensures SlotEffect(s, Do(s, step), step.r)
  {
    hide PoolProtocol.Do, PoolProtocol.Enabled, TryAdmission, Admit, Release, DoorFree;
  }

  lemma GateSlotEffect(s: Service, step: Step)
    requires Enabled(s, step)
    requires step.Finish? || step.Starve? || step.Extract? || step.Mark? || step.AdmitGrant? || step.AdmitExpire?
    ensures SlotEffect(s, Do(s, step), step.r)
  {
    hide PoolProtocol.Do, PoolProtocol.Enabled, TryAdmission, Admit, DoorFree, AfterReturn;
  }

  lemma AdmitSlotEffect(s: Service, step: Step)
    requires Enabled(s, step) && (step.AdmitTry? || step.AdmitResume?)
    ensures SlotEffect(s, Do(s, step), step.r)
  {
    hide Exhausted, AfterLoan, Lent;
  }

  lemma StepKeepsBalance(s: Service, step: Step)
    requires Balanced(s) && Enabled(s, step)
    ensures Balanced(Do(s, step))
  {
    if !step.Thread? && !step.Receive? {
      hide Do, Enabled;
      StepSlotEffect(s, step);
      var q := Do(s, step).requests[step.r];
      CountUpdate(s.requests, step.r, q, HoldsDoor);
      CountUpdate(s.requests, step.r, q, HoldsAdmission);
      CountUpdate(s.requests, step.r, q, IsAdmitted);
      CountUpdate(s.requests, step.r, q, IsCountedWaiter);
    }
  }

  // Buffers.

  /** A request that holds a slot but no buffer proves that one is left for it. */
  lemma BufferLeft(s: Service, r: nat)
    requires BuffersOk(s) && r in s.requests && !HasBuffer(s.requests[r])
    requires Count(s.requests, HoldsAdmission) < s.capacity
             || (HoldsAdmission(s.requests[r]) && Count(s.requests, HoldsAdmission) <= s.capacity)
    ensures !Exhausted(s.shelf, s.capacity)
  {
    if HoldsAdmission(s.requests[r]) {
      CountBelow(s.requests, HasBuffer, HoldsAdmission, r);
    } else {
      CountAtMost(s.requests, HasBuffer, HoldsAdmission);
    }
    RefusesWhenAllLent(s.shelf, s.capacity, Borrowed(s));
  }

  lemma AdmitLends(s: Service, r: nat)
    requires ShelfOk(s) && r in s.requests && !HasBuffer(s.requests[r]) && !Exhausted(s.shelf, s.capacity)
    ensures Lent(s.shelf) !in Borrowed(s) && Lent(s.shelf) < AfterLoan(s.shelf, s.capacity).created
    ensures Borrowed(Admit(s, r)) == Borrowed(s) + {Lent(s.shelf)}
  {
    hide Sound;
    LendsTheUnheld(s.shelf, s.capacity, Borrowed(s));
    BorrowedAfter(s, Admit(s, r), r);
  }

  lemma LendsTheUnheld(shelf: Shelf<nat>, capacity: nat, lent: set<nat>)
    requires Sound(shelf, capacity, lent)
    requires forall b :: b in lent || b in shelf.free ==> b < shelf.created
    requires !Exhausted(shelf, capacity)
    ensures Lent(shelf) !in lent && Lent(shelf) < AfterLoan(shelf, capacity).created
    ensures forall b :: b in AfterLoan(shelf, capacity).free ==> b in shelf.free
  {
    if shelf.free != [] {
      assert Lent(shelf) in shelf.free;
    }
  }

  lemma AdmitKeepsShelf(s: Service, r: nat)
    requires ShelfOk(s) && r in s.requests && !HasBuffer(s.requests[r]) && !Exhausted(s.shelf, s.capacity)
    ensures ShelfOk(Admit(s, r))
  {
    hide Sound, Borrowed;
    AdmitLends(s, r);
    LendsTheUnheld(s.shelf, s.capacity, Borrowed(s));
    LoanKeepsSound(s.shelf, s.capacity, Borrowed(s), Lent(s.shelf));
    CountUpdate(s.requests, r, Admit(s, r).requests[r], HasBuffer);
  }

  lemma AdmitKeepsUnshared(s: Service, r: nat)
    requires Unshared(s) && Lent(s.shelf) !in Borrowed(s) && !Exhausted(s.shelf, s.capacity)
    ensures Unshared(Admit(s, r))
  {
    hide Lent, Exhausted, AfterLoan;
    forall q | q in s.requests && HasBuffer(s.requests[q]) ensures s.requests[q].buffer != Lent(s.shelf) {
      assert s.requests[q].buffer in Borrowed(s);
    }
  }

  lemma AdmitKeepsMemory(s: Service, r: nat)
    requires MemoryOk(s) && !Exhausted(s.shelf, s.capacity)
    requires forall b :: b in s.shelf.free ==> b < s.shelf.created
    ensures MemoryOk(Admit(s, r))
  {
    if s.shelf.free != [] {
      assert Lent(s.shelf) in s.shelf.free;
    }
  }

  lemma AdmitKeepsBuffers(s: Service, r: nat)
    requires BuffersOk(s) && r in s.requests && !HasBuffer(s.requests[r]) && !Exhausted(s.shelf, s.capacity)
    ensures BuffersOk(Admit(s, r)) && !Admit(s, r).requests[r].Starved?
  {
    hide Sound, Unshared, MemoryOk, Borrowed, Lent, AfterLoan;
    AdmitLends(s, r);
    AdmitKeepsShelf(s, r);
    AdmitKeepsUnshared(s, r);
    AdmitKeepsMemory(s, r);
  }

  /** What is borrowed after one request changed: its buffer, and those of the others. */
  lemma BorrowedAfter(s: Service, s': Service, r: nat)
    requires r in s'.requests && s'.requests == s.requests[r := s'.requests[r]]
    ensures Borrowed(s') ==
            (set q | q in s.requests && q != r && HasBuffer(s.requests[q]) :: s.requests[q].buffer)
            + (if HasBuffer(s'.requests[r]) then {s'.requests[r].buffer} else {})
    ensures Borrowed(s) ==
            (set q | q in s.requests && q != r && HasBuffer(s.requests[q]) :: s.requests[q].buffer)
            + (if r in s.requests && HasBuffer(s.requests[r]) then {s.requests[r].buffer} else {})
  {
    forall b | b in Borrowed(s')
      ensures b in (set q | q in s.requests && q != r && HasBuffer(s.requests[q]) :: s.requests[q].buffer)
                   + (if HasBuffer(s'.requests[r]) then {s'.requests[r].buffer} else {})
    {
      var q :| q in s'.requests && HasBuffer(s'.requests[q]) && b == s'.requests[q].buffer;
    }
    forall b | b in (set q | q in s.requests && q != r && HasBuffer(s.requests[q]) :: s.requests[q].buffer)
      ensures b in Borrowed(s')
    {
      var q :| q in s.requests && q != r && HasBuffer(s.requests[q]) && b == s.requests[q].buffer;
      assert q in s'.requests && s'.requests[q] == s.requests[q];
    }
  }

  lemma ReturnKeepsShelf(s: Service, s': Service, r: nat)
    requires ShelfOk(s) && Unshared(s) && r in s.requests && HasBuffer(s.requests[r])
    requires r in s'.requests && s'.requests == s.requests[r := s'.requests[r]] && !HasBuffer(s'.requests[r])
    requires s'.capacity == s.capacity && s'.shelf == AfterReturn(s.shelf, s.capacity, s.requests[r].buffer)
    ensures ShelfOk(s')
  {
    var b := s.requests[r].buffer;
    BorrowedWithout(s, s', r);
    hide Sound, Borrowed, Unshared;
    ReturnKeepsSound(s.shelf, s.capacity, Borrowed(s), b);
    CountUpdate(s.requests, r, s'.requests[r], HasBuffer);
  }

  lemma BorrowedWithout(s: Service, s': Service, r: nat)
    requires Unshared(s) && r in s.requests && HasBuffer(s.requests[r])
    requires r in s'.requests && s'.requests == s.requests[r := s'.requests[r]] && !HasBuffer(s'.requests[r])
    ensures s.requests[r].buffer in Borrowed(s) && Borrowed(s') == Borrowed(s) - {s.requests[r].buffer}
  {
    BorrowedAfter(s, s', r);
  }

  lemma ReturnKeepsBuffers(s: Service, r: nat)
    requires BuffersOk(s) && r in s.requests && HasBuffer(s.requests[r])
    ensures BuffersOk(Release(s.(shelf := AfterReturn(s.shelf, s.capacity, s.requests[r].buffer)), r))
  {
    var s' := Release(s.(shelf := AfterReturn(s.shelf, s.capacity, s.requests[r].buffer)), r);
    hide ShelfOk;
    ReturnKeepsShelf(s, s', r);
  }

  lemma ReceiveKeepsBuffers(s: Service, r: nat, data: Bytes)
    requires BuffersOk(s) && Enabled(s, Receive(r, data))
    ensures BuffersOk(Do(s, Receive(r, data)))
  {
    assert Borrowed(Do(s, Receive(r, data))) == Borrowed(s);
  }

  /** A step that neither borrows, returns nor fills leaves the buffers alone. */
  lemma OtherKeepsBuffers(s: Service, s': Service, r: nat)
    requires BuffersOk(s) && r in s'.requests && s'.requests == s.requests[r := s'.requests[r]]
    requires s'.shelf == s.shelf && s'.memory == s.memory && s'.capacity == s.capacity && s'.maxUpload == s.maxUpload
    requires HasBuffer(s'.requests[r]) <==> r in s.requests && HasBuffer(s.requests[r])
    requires HasBuffer(s'.requests[r]) ==> s'.requests[r].buffer == s.requests[r].buffer
    ensures BuffersOk(s')
  {
    BorrowedAfter(s, s', r);
    OtherKeepsUnshared(s, s', r);
    hide Unshared, Borrowed, Sound;
    assert Borrowed(s') == Borrowed(s);
    CountUpdate(s.requests, r, s'.requests[r], HasBuffer);
  }

  lemma OtherKeepsUnshared(s: Service, s': Service, r: nat)
    requires Unshared(s) && r in s'.requests && s'.requests == s.requests[r := s'.requests[r]]
    requires HasBuffer(s'.requests[r]) <==> r in s.requests && HasBuffer(s.requests[r])
    requires HasBuffer(s'.requests[r]) ==> s'.requests[r].buffer == s.requests[r].buffer
    ensures Unshared(s')
  {
    hide HasBuffer;
  }

  lemma OtherStepsAndBuffers(s: Service, step: Step)
    requires Enabled(s, step) && !step.Thread? && !step.Receive? && !step.Finish? && !step.AdmitResume?
    requires step.AdmitTry? ==> !AdmissionFree(s)
    requires NoneStarved(s)
    ensures var s', r := Do(s, step), step.r;
            && s'.shelf == s.shelf && s'.memory == s.memory && s'.capacity == s.capacity && s'.maxUpload == s.maxUpload
            && r in s'.requests && s'.requests == s.requests[r := s'.requests[r]]
            && (HasBuffer(s'.requests[r]) <==> r in s.requests && HasBuffer(s.requests[r]))
            && (HasBuffer(s'.requests[r]) ==> s'.requests[r].buffer == s.requests[r].buffer)
            && !s'.requests[r].Starved?
  {
    hide DoorFree, AdmissionFree;
  }

  lemma StepKeepsBuffers(s: Service, step: Step)
    requires Balanced(s) && BuffersOk(s) && NoneStarved(s) && Enabled(s, step)
    ensures BuffersOk(Do(s, step)) && NoneStarved(Do(s, step))
  {
    hide Balanced, Sound, Lent, AfterLoan, AfterReturn;
    if step.Thread? {
      assert Borrowed(Do(s, step)) == Borrowed(s);
    } else if step.Receive? {
      ReceiveKeepsBuffers(s, step.r, step.data);
    } else if step.Finish? {
      ReturnKeepsBuffers(s, step.r);
    } else if step.AdmitResume? || (step.AdmitTry? && AdmissionFree(s)) {
      GateHasRoom(s, step);
      BufferLeft(s, step.r);
      AdmittedKeepsBuffers(s, step);
    } else if !step.Starve? {
      OtherStepsAndBuffers(s, step);
      OtherKeepsBuffers(s, Do(s, step), step.r);
    }
  }

  lemma GateHasRoom(s: Service, step: Step)
    requires Balanced(s) && Enabled(s, step) && (step.AdmitResume? || (step.AdmitTry? && AdmissionFree(s)))
    ensures Count(s.requests, HoldsAdmission) < s.capacity
            || (HoldsAdmission(s.requests[step.r]) && Count(s.requests, HoldsAdmission) <= s.capacity)
  {
  }

  lemma AdmittedKeepsBuffers(s: Service, step: Step)
    requires BuffersOk(s) && NoneStarved(s) && Enabled(s, step) && !Exhausted(s.shelf, s.capacity)
    requires step.AdmitResume? || (step.AdmitTry? && AdmissionFree(s))
    ensures BuffersOk(Do(s, step)) && NoneStarved(Do(s, step))
  {
    hide Sound, Lent, AfterLoan;
    var t := if step.AdmitTry? then s.(admission := s.admission - 1)
             else s.(waiting := if s.requests[step.r].counted then s.waiting - 1 else s.waiting);
    assert Borrowed(t) == Borrowed(s);
    assert BuffersOk(t);
    hide BuffersOk;
    AdmitKeepsBuffers(t, step.r);
  }

  // The calls of the pool and the requests behind them.

  lemma ThreadKeepsCalls(p: PoolProtocol.Pool, step: PoolProtocol.Step)
    requires PoolProtocol.Enabled(p, step) && !step.Begin?
    ensures var p' := PoolProtocol.Do(p, step);
            && p'.permits == p.permits && p'.calls.Keys == p.calls.Keys
            && (forall r :: r in p.calls && p.calls[r].pc.Over? ==> p'.calls[r].pc == p.calls[r].pc)
  {
    hide PoolProtocol.AdvanceCall, PoolProtocol.UnloadSlot, PoolProtocol.AdvanceCloser;
    if !PoolInvariants.OnCall(step) {
      PoolInvariants.OtherStepAndGate(p, step);
    } else if step.Unload? {
      UnloadKeepsCalls(p, step.r);
    } else if step.Advance? {
      AdvanceKeepsCalls(p, step.r);
    }
  }

  lemma AdvanceKeepsCalls(p: PoolProtocol.Pool, r: nat)
    requires r in p.calls && PoolProtocol.CanAdvance(p, p.calls[r])
    ensures var p' := PoolProtocol.AdvanceCall(p, r);
            r in p'.calls && p'.permits == p.permits && p'.calls == p.calls[r := p'.calls[r]]
  {
    hide PoolProtocol.GateStep, PoolProtocol.GatePool, PoolProtocol.JobStep;
    hide PoolProtocol.RepairStep, PoolProtocol.RepairPool;
    SameCalls(p, r);
  }

  lemma SameCalls(p: PoolProtocol.Pool, r: nat)
    requires r in p.calls
    ensures PoolProtocol.GatePool(p, r).calls == p.calls && PoolProtocol.GatePool(p, r).permits == p.permits
    ensures PoolProtocol.RepairPool(p, r).calls == p.calls && PoolProtocol.RepairPool(p, r).permits == p.permits
  {
  }

  lemma UnloadKeepsCalls(p: PoolProtocol.Pool, r: nat)
    requires r in p.calls
    ensures var p' := PoolProtocol.UnloadSlot(p, r);
            && r in p'.calls && p'.permits == p.permits && p'.calls == p.calls[r := p'.calls[r]]
            && p'.calls[r].pc == p.calls[r].pc
  {
    hide PoolProtocol.UnloadStep;
    UnloadKeepsPc(p.calls[r], p.inUse);
  }

  lemma UnloadKeepsPc(c: PoolProtocol.Call, inUse: int)
    ensures PoolProtocol.UnloadStep(c, inUse).pc == c.pc
  {
  }

  lemma StepKeepsCalls(s: Service, step: Step)
    requires CallsLinked(s) && NoneStarved(s) && Enabled(s, step)
    ensures CallsLinked(Do(s, step))
  {
    if step.Thread? {
      hide PoolProtocol.Do;
      ThreadKeepsCalls(s.pool, step.step);
    } else {
      RequestStepKeepsCalls(s, step);
    }
  }

  lemma RequestStepKeepsCalls(s: Service, step: Step)
    requires CallsLinked(s) && NoneStarved(s) && Enabled(s, step) && !step.Thread?
    ensures CallsLinked(Do(s, step))
  {
    hide DoorFree, AdmissionFree, Exhausted, AfterLoan, AfterReturn, Lent, PoolProtocol.Enabled;
  }

  lemma StepKeepsPool(s: Service, step: Step)
    requires PoolInvariants.Inv(s.pool) && Enabled(s, step)
    requires NoneStarved(s)
    ensures PoolInvariants.Inv(Do(s, step).pool)
  {
    hide PoolInvariants.Inv, PoolProtocol.Do, DoorFree, AdmissionFree, Exhausted, AfterLoan, AfterReturn, Lent;
    match step
    case Thread(p) => PoolInvariants.StepKeepsInv(s.pool, p);
    case Extract(r) =>
      assert PoolProtocol.Enabled(s.pool, PoolProtocol.Begin(r));
      PoolInvariants.StepKeepsInv(s.pool, PoolProtocol.Begin(r));
    case Mark(_) =>
      assert PoolProtocol.Enabled(s.pool, PoolProtocol.MarkReady);
      PoolInvariants.StepKeepsInv(s.pool, PoolProtocol.MarkReady);
    case _ =>
  }

  lemma StepKeepsLoop(s: Service, step: Step)
    requires LoopOk(s) && NoneStarved(s) && Enabled(s, step) && NoneStarved(Do(s, step))
    ensures LoopOk(Do(s, step))
  {
    hide DoorFree, AdmissionFree, AfterLoan, AfterReturn, Lent;
    if step.Finish? {
      assert Do(s, step).requests[step.r].Marking?;
    } else if step.AdmitTry? || step.AdmitResume? {
      assert !Do(s, step).requests[step.r].Starved?;
    } else if s.loop && !step.Mark? {
      var r :| r in s.requests && s.requests[r].Marking?;
      assert r in Do(s, step).requests && Do(s, step).requests[r] == s.requests[r];
    }
  }

  // With the door no wider than the gate.

  /** A request on its way to the gate finds a free slot. */
  lemma GateOpen(s: Service, r: nat)
    requires Balanced(s) && s.doorLimit <= s.capacity && NobodyQueues(s)
    requires r in s.requests && s.requests[r].Inside?
    ensures AdmissionFree(s)
  {
    CountBelow(s.requests, HoldsAdmission, HoldsDoor, r);
  }

  lemma StepKeepsNobodyQueues(s: Service, step: Step)
    requires Balanced(s) && s.doorLimit <= s.capacity && NobodyQueues(s) && Enabled(s, step)
    ensures NobodyQueues(Do(s, step))
  {
    hide Balanced, DoorFree, AdmissionFree, AfterLoan, AfterReturn, Lent;
    if step.AdmitTry? {
      GateOpen(s, step.r);
    }
  }

  /** The flag is raised by a call that is still going on. */
  lemma RaisedByLiveCall(p: PoolProtocol.Pool, step: PoolProtocol.Step)
    requires PoolProtocol.Enabled(p, step) && PoolProtocol.Do(p, step).overloaded && !p.overloaded
    ensures exists r :: r in p.calls && !p.calls[r].pc.Over?
  {
    hide PoolProtocol.JobStep, PoolProtocol.RepairStep, PoolProtocol.UnloadStep;
    assert step.Advance?;
  }

  lemma StepKeepsFlag(s: Service, step: Step)
    requires Balanced(s) && NobodyQueues(s) && CallsLinked(s) && LoopOk(s) && NoneStarved(s) && FlagOk(s)
    requires Enabled(s, step)
    ensures FlagOk(Do(s, step))
  {
    if step.Thread? {
      ThreadKeepsFlag(s, step.step);
    } else if step.Finish? {
      FinishKeepsFlag(s, step.r);
    } else if step.Mark? {
      MarkKeepsFlag(s, step.r);
    } else {
      hide Balanced, NobodyQueues, CallsLinked, LoopOk, DoorFree, AdmissionFree;
      hide Exhausted, AfterLoan, AfterReturn, Lent;
      if r :| r in s.requests && MarksReady(s.requests[r]) {
        assert MarksReady(Do(s, step).requests[r]);
      }
    }
  }

  lemma ThreadKeepsFlag(s: Service, p: PoolProtocol.Step)
    requires Balanced(s) && CallsLinked(s) && FlagOk(s) && Enabled(s, Thread(p))
    ensures FlagOk(Do(s, Thread(p)))
  {
    hide PoolProtocol.Do;
    if PoolProtocol.Do(s.pool, p).overloaded && !s.pool.overloaded {
      RaisedByLiveCall(s.pool, p);
      var r :| r in s.pool.calls && !s.pool.calls[r].pc.Over?;
      CountSome(s.requests, IsAdmitted);
    }
  }

  lemma FinishKeepsFlag(s: Service, r: nat)
    requires Balanced(s) && NobodyQueues(s) && FlagOk(s) && Enabled(s, Finish(r))
    ensures FlagOk(Do(s, Finish(r)))
  {
    hide AfterReturn;
    CountSome(s.requests, IsCountedWaiter);
    StepKeepsBalance(s, Finish(r));
    assert MarksReady(Do(s, Finish(r)).requests[r]) <==> s.inUse == 1;
  }

  lemma MarkKeepsFlag(s: Service, r: nat)
    requires LoopOk(s) && FlagOk(s) && Enabled(s, Mark(r))
    ensures FlagOk(Do(s, Mark(r)))
  {
  }

  lemma StepKeepsInv(s: Service, step: Step)
    requires Inv(s) && Enabled(s, step)
    ensures Inv(Do(s, step))
  {
    hide Balanced, BuffersOk, NoneStarved, CallsLinked, LoopOk, PoolInvariants.Inv, NobodyQueues, FlagOk, Do, Enabled;
    StepShape(s, step);
    StepKeepsBalance(s, step);
    StepKeepsBuffers(s, step);
    StepKeepsCalls(s, step);
    StepKeepsLoop(s, step);
    StepKeepsPool(s, step);
    if s.doorLimit <= s.capacity {
      StepKeepsNobodyQueues(s, step);
      StepKeepsFlag(s, step);
    }
  }
}
