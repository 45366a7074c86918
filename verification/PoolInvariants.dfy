/** What every run of the extraction pool keeps. */
module PoolInvariants {
  import opened Counting
  import opened PoolProtocol

  // One call.

  /** The call has not touched the gate. */
  predicate Untouched(c: Call) {
    c.slot.NoSlot? && c.job.NoJob? && c.release.Unreleased? && c.acquires == 0 && c.releases == 0
  }

  /** The call holds a permit and nothing is releasing it yet. */
  predicate Holding(c: Call, slot: Slot) {
    c.slot == slot && c.release.Unreleased? && c.acquires == 1 && c.releases == 0
  }

  function SlotDuring(release: Release): Slot {
    match release
    case Unreleased => NoSlot
    case Armed => Counted
    case Discounting => Counted
    case Returning => Discounted
    case _ => NoSlot
  }

  /** The call's one release is under way or done. */
  predicate Releasing(c: Call) {
    && !c.release.Unreleased? && c.slot == SlotDuring(c.release)
    && c.acquires == 1 && c.releases == One(c.slot.NoSlot?)
    && (c.release.Armed? <==> c.job.Unfinished())
  }

  predicate CallOk(c: Call) {
    match c.pc
    case CheckOpen => Untouched(c)
    case TryPermit => Untouched(c)
    case Signal => Untouched(c)
    case Enlist => Untouched(c)
    case Block => Untouched(c)
    case Lapse => Untouched(c)
    case Delist(got) => if got then Holding(c, Uncounted) && c.job.NoJob? else Untouched(c)
    case CountFast => Holding(c, Uncounted) && c.job.NoJob?
    case CountSlow => Holding(c, Uncounted) && c.job.NoJob?
    case Grab => Holding(c, Counted) && c.job.NoJob?
    case Submit(_) => Holding(c, Counted) && c.job.NoJob?
    case Await => Holding(c, Counted) && !c.job.NoJob?
    case Cancel => Holding(c, Counted) && !c.job.NoJob?
    case Arm => Holding(c, Counted) && !c.job.NoJob?
    case Unwind(ending) => Releasing(c) && !c.release.Armed? && !ending.Overloaded?
    case Over(ending) =>
      if c.acquires == 0 then Untouched(c) && (ending.Overloaded? || ending.PoolShut?)
      else Releasing(c) && !ending.Overloaded? && (c.release.Released? || ending.TimedOut?)
    case _ => Holding(c, Counted) && !c.job.Unfinished()  // in _restart_pool
  }

  ghost predicate CallsOk(s: Pool) {
    forall r :: r in s.calls ==> CallOk(s.calls[r])
  }

  // The gate.

  predicate HoldsPermit(c: Call) {
    !c.slot.NoSlot?
  }

  predicate IsCounted(c: Call) {
    c.slot.Counted?
  }

  predicate IsWaiting(c: Call) {
    c.pc.Block? || c.pc.Delist?
  }

  /** Permits are conserved and the two counters count what they say. */
  ghost predicate Balanced(s: Pool) {
    && s.sem + Count(s.calls, HoldsPermit) == s.permits
    && s.inUse == Count(s.calls, IsCounted)
    && s.waiting == Count(s.calls, IsWaiting)
  }

  // The executor and the lifecycle lock.

  predicate InClose(c: Closer) {
    c.CloseCheck? || c.CloseSet? || c.CloseShut? || c.CloseWait?
  }

  predicate HolderAt(s: Pool, pc: Pc) {
    s.lock.HeldByCall? && s.lock.call in s.calls && s.calls[s.lock.call].pc == pc
  }

  predicate CloserAt(s: Pool, c: Closer) {
    s.lock.HeldByCloser? && s.lock.closer in s.closers && s.closers[s.lock.closer] == c
  }

  ghost predicate LockOk(s: Pool) {
    && (forall r :: r in s.calls ==> (InRepair(s.calls[r].pc) <==> s.lock == HeldByCall(r)))
    && (forall c :: c in s.closers ==> (InClose(s.closers[c]) <==> s.lock == HeldByCloser(c)))
    && (s.lock.HeldByCall? ==> s.lock.call in s.calls)
    && (s.lock.HeldByCloser? ==> s.lock.closer in s.closers)
  }

  ghost predicate ExecutorsOk(s: Pool) {
    && (forall e :: e in s.shut ==> e <= s.newest)
    && (forall e :: 0 <= e < s.newest ==> e in s.shut)
    && (s.newest in s.shut ==> s.closed || HolderAt(s, RepairSpawn))
    && (HolderAt(s, RepairSpawn) ==> s.newest in s.shut)
    && s.newest == s.restarts + One(HolderAt(s, RepairCount))
    && (s.closed ==> (s.newest in s.shut || CloserAt(s, CloseShut)))
    && (s.closed ==>
          && !HolderAt(s, RepairMark) && !HolderAt(s, RepairShut)
          && !HolderAt(s, RepairSpawn) && !HolderAt(s, RepairCount))
    && (CloserAt(s, CloseSet) ==> !s.closed)
    && (CloserAt(s, CloseShut) || CloserAt(s, CloseWait) ==> s.closed)
  }

  // The readiness flag.

  /** A call that will yet write the flag, or see to it that another one does. */
  predicate WillWrite(c: Call) {
    || c.pc.Enlist? || c.pc.Block? || c.pc.Delist? || c.pc.CountSlow? || c.pc.Lapse?
    || !c.slot.NoSlot?
    || c.release.Looking? || c.release.Announcing?
  }

  ghost predicate FlagOk(s: Pool) {
    s.overloaded ==> s.lastWriter.Lapsed? || exists r :: r in s.calls && WillWrite(s.calls[r])
  }

  ghost predicate Inv(s: Pool) {
    CallsOk(s) && Balanced(s) && LockOk(s) && ExecutorsOk(s) && FlagOk(s)
  }

  lemma InitInv(permits: nat)
    ensures Inv(Init(permits))
  {
    CountNone(HoldsPermit);
    CountNone(IsCounted);
    CountNone(IsWaiting);
  }

  // Steps. What the invariants need of a step on one call is gathered in one relation first.

  /** The call a step changes. */
  function Subject(step: Step): nat
    requires OnCall(step)
  {
    match step
    case Begin(r) => r
    case Advance(r) => r
    case Unload(r) => r
    case StartJob(r) => r
    case EndJob(r, _) => r
  }

  predicate OnCall(step: Step) {
    step.Begin? || step.Advance? || step.Unload? || step.StartJob? || step.EndJob?
  }

  predicate PermitOf(s: Pool, r: nat) {
    r in s.calls && HoldsPermit(s.calls[r])
  }

  predicate CountOf(s: Pool, r: nat) {
    r in s.calls && IsCounted(s.calls[r])
  }

  predicate WaitOf(s: Pool, r: nat) {
    r in s.calls && IsWaiting(s.calls[r])
  }

  predicate Repairs(s: Pool, r: nat) {
    r in s.calls && InRepair(s.calls[r].pc)
  }

  predicate Writes(s: Pool, r: nat) {
    r in s.calls && WillWrite(s.calls[r])
  }

  /** The step changes call `r` alone, keeps it in order and keeps the balance of the gate. */
  ghost predicate GateEffect(s: Pool, s': Pool, r: nat) {
    && r in s'.calls && s'.calls == s.calls[r := s'.calls[r]]
    && s'.permits == s.permits
    && CallOk(s'.calls[r])
    && s'.sem + One(PermitOf(s', r)) == s.sem + One(PermitOf(s, r))
    && s'.inUse - One(CountOf(s', r)) == s.inUse - One(CountOf(s, r))
    && s'.waiting - One(WaitOf(s', r)) == s.waiting - One(WaitOf(s, r))
  }

  /** It leaves the lock alone, takes it free or gives it back. */
  ghost predicate LockEffect(s: Pool, s': Pool, r: nat) {
    && r in s'.calls && s'.closers == s.closers && s'.closed == s.closed
    && (|| (s'.lock == s.lock && Repairs(s, r) == Repairs(s', r))
        || (s.lock.Free? && s'.lock == HeldByCall(r) && !Repairs(s, r) && Repairs(s', r))
        || (s'.lock.Free? && Repairs(s, r) && !Repairs(s', r)))
  }

  /** It does not leave a raised flag without someone to write it again. */
  ghost predicate FlagEffect(s: Pool, s': Pool, r: nat) {
    s'.overloaded && !s'.lastWriter.Lapsed? ==>
      || Writes(s', r)
      || (s.overloaded && !s.lastWriter.Lapsed? && (Writes(s, r) ==> s.inUse > 0 && !CountOf(s, r)))
  }

  ghost predicate CallEffect(s: Pool, s': Pool, r: nat) {
    GateEffect(s, s', r) && LockEffect(s, s', r) && FlagEffect(s, s', r)
  }

  /** What a step at the gate does to a call's slot and to its place in the waiting region. */
  lemma GateStepMovesSlot(c: Call, closed: bool, sem: nat)
    requires CallOk(c) && AtGate(c.pc)
    ensures var c' := GateStep(c, closed, sem);
            && CallOk(c') && !InRepair(c'.pc)
            && HoldsPermit(c') == (HoldsPermit(c) || ((c.pc.TryPermit? || c.pc.Block?) && sem > 0))
            && IsCounted(c') == (c.pc.CountFast? || c.pc.CountSlow?) && !IsCounted(c)
            && IsWaiting(c') == (c.pc.Enlist? || c.pc.Block?) && IsWaiting(c) == (c.pc.Block? || c.pc.Delist?)
            && (c.pc.TryPermit? || c.pc.Block? ==> !HoldsPermit(c))
  {
  }

  lemma GateStepWrites(c: Call, closed: bool, sem: nat)
    requires CallOk(c) && AtGate(c.pc)
    ensures (WillWrite(c) && !c.pc.Lapse?) || c.pc.Signal? ==> WillWrite(GateStep(c, closed, sem))
  {
  }

  lemma GateBalance(s: Pool, r: nat)
    requires r in s.calls && CallOk(s.calls[r]) && AtGate(s.calls[r].pc)
    ensures GateEffect(s, AdvanceAtGate(s, r), r)
  {
    hide CallOk, GateStep, HoldsPermit, IsCounted, IsWaiting;
    GateStepMovesSlot(s.calls[r], s.closed, s.sem);
  }

  lemma GateStepLockAndFlag(s: Pool, r: nat)
    requires r in s.calls && CallOk(s.calls[r]) && AtGate(s.calls[r].pc)
    ensures LockEffect(s, AdvanceAtGate(s, r), r) && FlagEffect(s, AdvanceAtGate(s, r), r)
  {
    hide CallOk, GateStep, WillWrite;
    GateStepMovesSlot(s.calls[r], s.closed, s.sem);
    GateStepWrites(s.calls[r], s.closed, s.sem);
  }

  lemma JobStepKeepsSlot(c: Call, newest: nat, broken: set<nat>, shut: set<nat>)
    requires CallOk(c) && !AtGate(c.pc) && !InRepair(c.pc) && !c.pc.RepairLock?
    requires c.pc.Unwind? ==> c.release.Released?
    ensures var c' := JobStep(c, newest, broken, shut);
            && CallOk(c') && c'.slot == c.slot && !IsWaiting(c) && !IsWaiting(c') && !InRepair(c'.pc)
            && (WillWrite(c) ==> WillWrite(c'))
  {
  }

  lemma JobStepEffect(s: Pool, r: nat)
    requires r in s.calls && CallOk(s.calls[r]) && CanAdvance(s, s.calls[r])
    requires !AtGate(s.calls[r].pc) && !InRepair(s.calls[r].pc) && !s.calls[r].pc.RepairLock?
    ensures CallEffect(s, AdvanceJob(s, r), r)
  {
    hide CallOk, JobStep, WillWrite;
    JobStepKeepsSlot(s.calls[r], s.newest, s.broken, s.shut);
  }

  lemma RepairStepKeepsSlot(c: Call, closed: bool)
    requires CallOk(c) && (InRepair(c.pc) || c.pc.RepairLock?)
    ensures var c' := RepairStep(c, closed);
            CallOk(c') && c'.slot == c.slot && !IsWaiting(c) && !IsWaiting(c')
  {
  }

  lemma RepairStepBalance(s: Pool, r: nat)
    requires r in s.calls && CallOk(s.calls[r]) && CanAdvance(s, s.calls[r])
    requires InRepair(s.calls[r].pc) || s.calls[r].pc.RepairLock?
    ensures GateEffect(s, AdvanceRepair(s, r), r)
  {
    hide CallOk, RepairStep;
    RepairStepKeepsSlot(s.calls[r], s.closed);
  }

  lemma RepairStepLockAndFlag(s: Pool, r: nat)
    requires r in s.calls && CallOk(s.calls[r]) && CanAdvance(s, s.calls[r])
    requires InRepair(s.calls[r].pc) || s.calls[r].pc.RepairLock?
    ensures LockEffect(s, AdvanceRepair(s, r), r) && FlagEffect(s, AdvanceRepair(s, r), r)
  {
  }

  lemma UnloadStepMovesSlot(c: Call, inUse: int)
    requires CallOk(c)
    ensures var c' := UnloadStep(c, inUse);
            && (c.release in {Discounting, Returning, Looking, Announcing} ==> CallOk(c'))
            && (c.release.Discounting? ==> c.slot.Counted? && c'.slot.Discounted?)
            && (c.release.Returning? ==> c.slot.Discounted? && c'.slot.NoSlot?)
            && (c.release.Looking? || c.release.Announcing? ==> c.slot.NoSlot? && c'.slot.NoSlot?)
            && (IsWaiting(c) <==> IsWaiting(c'))
  {
  }

  lemma UnloadBalance(s: Pool, r: nat)
    requires r in s.calls && CallOk(s.calls[r]) && Enabled(s, Unload(r))
    ensures GateEffect(s, UnloadSlot(s, r), r)
  {
    hide CallOk, UnloadStep;
    UnloadStepMovesSlot(s.calls[r], s.inUse);
  }

  lemma UnloadLockAndFlag(s: Pool, r: nat)
    requires r in s.calls && CallOk(s.calls[r]) && s.inUse >= One(IsCounted(s.calls[r]))
    requires Enabled(s, Unload(r))
    ensures LockEffect(s, UnloadSlot(s, r), r) && FlagEffect(s, UnloadSlot(s, r), r)
  {
  }

  lemma JobEffect(s: Pool, step: Step)
    requires step.Begin? || step.StartJob? || step.EndJob?
    requires Enabled(s, step) && (step.Begin? || CallOk(s.calls[Subject(step)]))
    ensures CallEffect(s, Do(s, step), Subject(step))
  {
  }

  lemma CallStepEffect(s: Pool, step: Step)
    requires CallsOk(s) && Balanced(s) && Enabled(s, step) && OnCall(step)
    ensures CallEffect(s, Do(s, step), Subject(step))
  {
    hide GateEffect, LockEffect, FlagEffect, CallOk, AdvanceAtGate, AdvanceJob, AdvanceRepair, UnloadSlot;
    match step
    case Advance(r) =>
      if AtGate(s.calls[r].pc) {
        GateBalance(s, r);
        GateStepLockAndFlag(s, r);
      } else if InRepair(s.calls[r].pc) || s.calls[r].pc.RepairLock? {
        RepairStepBalance(s, r);
        RepairStepLockAndFlag(s, r);
      } else {
        JobStepEffect(s, r);
      }
    case Unload(r) =>
      CountSome(s.calls, IsCounted);
      UnloadBalance(s, r);
      UnloadLockAndFlag(s, r);
    case _ =>
      JobEffect(s, step);
  }

  lemma CallStepKeepsGate(s: Pool, s': Pool, r: nat)
    requires CallsOk(s) && Balanced(s) && GateEffect(s, s', r)
    ensures CallsOk(s') && Balanced(s')
  {
    hide CallOk;
    CountUpdate(s.calls, r, s'.calls[r], HoldsPermit);
    CountUpdate(s.calls, r, s'.calls[r], IsCounted);
    CountUpdate(s.calls, r, s'.calls[r], IsWaiting);
  }

  lemma CallStepKeepsLock(s: Pool, s': Pool, r: nat)
    requires LockOk(s) && GateEffect(s, s', r) && LockEffect(s, s', r)
    ensures LockOk(s')
  {
    hide CallOk;
  }

  lemma CallStepKeepsFlag(s: Pool, s': Pool, r: nat)
    requires Balanced(s) && FlagOk(s) && GateEffect(s, s', r) && FlagEffect(s, s', r)
    ensures FlagOk(s')
  {
    hide CallOk, WillWrite;
    if s'.overloaded && !s'.lastWriter.Lapsed? && !Writes(s', r) {
      var q :| q in s.calls && WillWrite(s.calls[q]);
      if q == r {
        // The slot was given back while others are still counted.
        CountSome(s.calls, IsCounted);
        var other :| other in s.calls && IsCounted(s.calls[other]);
        CountedWillWrite(s.calls[other]);
        assert other in s'.calls && s'.calls[other] == s.calls[other];
      } else {
        assert q in s'.calls && s'.calls[q] == s.calls[q];
      }
    }
  }

  lemma CountedWillWrite(c: Call)
    requires IsCounted(c)
    ensures WillWrite(c)
  {
  }

  ghost predicate SameExecutors(s: Pool, s': Pool) {
    s'.newest == s.newest && s'.shut == s.shut && s'.restarts == s.restarts && s'.closed == s.closed
  }

  lemma GateStepAndExecutors(s: Pool, r: nat)
    requires r in s.calls
    ensures SameExecutors(s, AdvanceAtGate(s, r))
  {
    hide GateStep;
  }

  lemma UnloadAndExecutors(s: Pool, r: nat)
    requires r in s.calls
    ensures SameExecutors(s, UnloadSlot(s, r))
  {
    hide UnloadStep;
  }

  /** Outside `_restart_pool` nothing that happens to a call happens to the executors. */
  lemma ExecutorsUntouched(s: Pool, step: Step)
    requires Enabled(s, step) && OnCall(step)
    requires step.Advance? ==> !InRepair(s.calls[step.r].pc)
    ensures SameExecutors(s, Do(s, step))
  {
    hide AdvanceAtGate, UnloadSlot, RepairStep, JobStep;
    if step.Advance? {
      GateStepAndExecutors(s, step.r);
    } else if step.Unload? {
      UnloadAndExecutors(s, step.r);
    }
  }

  lemma IdleStepKeepsExecutors(s: Pool, s': Pool, r: nat)
    requires LockOk(s) && ExecutorsOk(s) && LockEffect(s, s', r)
    requires SameExecutors(s, s') && GateEffect(s, s', r) && !Repairs(s, r)
    requires Repairs(s', r) ==> s'.calls[r].pc == RepairCheck
    ensures ExecutorsOk(s')
  {
    hide CallOk;
  }

  lemma RepairStepKeepsExecutors(s: Pool, r: nat)
    requires LockOk(s) && ExecutorsOk(s) && r in s.calls && InRepair(s.calls[r].pc)
    ensures ExecutorsOk(AdvanceRepair(s, r))
  {
    hide LockOk, ExecutorsOk, AdvanceRepair;
    if s.calls[r].pc.RepairCheck? || s.calls[r].pc.RepairMark? {
      RepairStartKeepsExecutors(s, r);
    } else {
      RepairEndKeepsExecutors(s, r);
    }
  }

  lemma RepairStartKeepsExecutors(s: Pool, r: nat)
    requires LockOk(s) && ExecutorsOk(s) && r in s.calls && (s.calls[r].pc.RepairCheck? || s.calls[r].pc.RepairMark?)
    ensures ExecutorsOk(AdvanceRepair(s, r))
  {
  }

  lemma RepairEndKeepsExecutors(s: Pool, r: nat)
    requires LockOk(s) && ExecutorsOk(s) && r in s.calls
    requires var pc := s.calls[r].pc; pc.RepairShut? || pc.RepairSpawn? || pc.RepairCount?
    ensures ExecutorsOk(AdvanceRepair(s, r))
  {
  }

  lemma CloserStepKeepsExecutors(s: Pool, c: nat)
    requires LockOk(s) && ExecutorsOk(s) && Enabled(s, AdvanceClose(c))
    ensures ExecutorsOk(AdvanceCloser(s, c))
  {
  }

  lemma StepOutsideRepair(s: Pool, step: Step)
    requires CallsOk(s) && Enabled(s, step) && OnCall(step)
    requires step.Advance? ==> !InRepair(s.calls[step.r].pc)
    ensures !Repairs(s, Subject(step))
  {
    assert !step.Begin? ==> CallOk(s.calls[Subject(step)]);
  }

  lemma StepEntersRepairAtCheck(s: Pool, step: Step)
    requires Enabled(s, step) && OnCall(step) && !Repairs(s, Subject(step))
    ensures Repairs(Do(s, step), Subject(step)) ==> Do(s, step).calls[Subject(step)].pc == RepairCheck
  {
  }

  lemma StepKeepsExecutors(s: Pool, step: Step)
    requires Inv(s) && Enabled(s, step)
    ensures ExecutorsOk(Do(s, step))
  {
    hide CallsOk, Balanced, FlagOk, AdvanceAtGate, AdvanceJob, AdvanceRepair, UnloadSlot, AdvanceCloser;
    hide GateEffect, LockEffect, FlagEffect;
    if step.AdvanceClose? {
      CloserStepKeepsExecutors(s, step.c);
    } else if step.Advance? && InRepair(s.calls[step.r].pc) {
      RepairStepKeepsExecutors(s, step.r);
    } else if OnCall(step) {
      CallStepEffect(s, step);
      ExecutorsUntouched(s, step);
      StepOutsideRepair(s, step);
      StepEntersRepairAtCheck(s, step);
      IdleStepKeepsExecutors(s, Do(s, step), Subject(step));
    }
  }

  lemma CloserStepKeepsLock(s: Pool, c: nat)
    requires LockOk(s) && Enabled(s, AdvanceClose(c))
    ensures LockOk(AdvanceCloser(s, c))
  {
  }

  /** The steps that are not on a call leave the calls and the gate as they are. */
  lemma OtherStepAndGate(s: Pool, step: Step)
    requires Enabled(s, step) && !OnCall(step)
    ensures var s' := Do(s, step);
            && s'.calls == s.calls && s'.permits == s.permits
            && s'.sem == s.sem && s'.inUse == s.inUse && s'.waiting == s.waiting
            && (s'.overloaded ==> s.overloaded && s'.lastWriter == s.lastWriter)
            && (!step.AdvanceClose? && !step.BeginClose? ==> s'.lock == s.lock && s'.closers == s.closers)
  {
  }

  lemma OtherStepKeeps(s: Pool, step: Step)
    requires Inv(s) && Enabled(s, step) && !OnCall(step)
    ensures var s' := Do(s, step); CallsOk(s') && Balanced(s') && LockOk(s') && FlagOk(s')
  {
    hide CallOk, WillWrite, AdvanceCloser;
    OtherStepAndGate(s, step);
    match step
    case AdvanceClose(c) => CloserStepKeepsLock(s, c);
    case BeginClose(c) => assert LockOk(Do(s, step));
    case _ =>
  }

  lemma StepKeepsInv(s: Pool, step: Step)
    requires Inv(s) && Enabled(s, step)
    ensures Inv(Do(s, step))
  {
    hide Do, Enabled, CallsOk, Balanced, LockOk, ExecutorsOk, FlagOk, GateEffect, LockEffect, FlagEffect;
    StepKeepsExecutors(s, step);
    if OnCall(step) {
      var r := Subject(step);
      CallStepEffect(s, step);
      CallStepKeepsGate(s, Do(s, step), r);
      CallStepKeepsLock(s, Do(s, step), r);
      CallStepKeepsFlag(s, Do(s, step), r);
    } else {
      OtherStepKeeps(s, step);
    }
  }
}
