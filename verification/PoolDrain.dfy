/**
 The pool cannot get stuck: while any call is unsettled some thread can move,
 every move brings the end nearer, and at the end every permit is back.
 */
module PoolDrain {
  import opened Counting
  import opened PoolProtocol
  import opened PoolInvariants
  import opened PoolSafety

  /** The steps of work already in the pool: no new caller, no new close, no new crash. */
  predicate Internal(step: Step) {
    step.Advance? || step.Unload? || step.StartJob? || step.EndJob? || step.AdvanceClose?
  }

  function PcWeight(pc: Pc): nat {
    match pc
    case CheckOpen => 23
    case TryPermit => 22
    case Signal => 21
    case Enlist => 20
    case Block => 19
    case Delist(got) => if got then 18 else 2
    case CountSlow => 17
    case CountFast => 17
    case Grab => 16
    case Submit(_) => 15
    case Await => 12
    case RepairLock => 11
    case RepairCheck => 10
    case RepairMark => 9
    case RepairShut => 8
    case RepairSpawn => 7
    case RepairCount => 6
    case Cancel => 7
    case Arm => 6
    case Lapse => 1
    case Unwind(_) => 1
    case Over(_) => 0
  }

  function JobWeight(job: Job): nat {
    match job
    case Queued(_) => 2
    case Running(_) => 1
    case _ => 0
  }

  function ReleaseWeight(release: Release): nat {
    match release
    case Armed => 4
    case Discounting => 4
    case Returning => 3
    case Looking => 2
    case Announcing => 1
    case _ => 0
  }

  /** A bound on the steps left in a call. */
  function Weight(c: Call): nat {
    PcWeight(c.pc) + JobWeight(c.job) + ReleaseWeight(c.release)
  }

  function CloserWeight(c: Closer): nat {
    match c
    case CloseLock => 5
    case CloseCheck => 4
    case CloseSet => 3
    case CloseShut => 2
    case CloseWait => 1
    case CloseDone => 0
  }

  /** A bound on the internal steps left in the pool. */
  ghost function Work(s: Pool): nat {
    Total(s.calls, Weight) + Total(s.closers, CloserWeight)
  }

  lemma GateStepLightens(s: Pool, r: nat)
    requires r in s.calls && AtGate(s.calls[r].pc)
    ensures var s' := AdvanceAtGate(s, r);
            r in s'.calls && Weight(s'.calls[r]) < Weight(s.calls[r]) && s'.closers == s.closers
  {
    hide GateStep, Weight;
    GateCallLightens(s.calls[r], s.closed, s.sem);
  }

  lemma GateCallLightens(c: Call, closed: bool, sem: nat)
    requires AtGate(c.pc)
    ensures Weight(GateStep(c, closed, sem)) < Weight(c)
  {
  }

  lemma JobStepLightens(c: Call, newest: nat, broken: set<nat>, shut: set<nat>)
    requires CallOk(c) && !AtGate(c.pc) && !InRepair(c.pc) && !c.pc.RepairLock? && !c.pc.Over?
    requires c.pc.Unwind? ==> c.release.Released?
    ensures Weight(JobStep(c, newest, broken, shut)) < Weight(c)
  {
  }

  lemma RepairStepLightens(c: Call, closed: bool)
    requires c.release.Unreleased? && (InRepair(c.pc) || c.pc.RepairLock?)
    ensures Weight(RepairStep(c, closed)) < Weight(c)
  {
  }

  lemma RepairingIsUnreleased(c: Call)
    requires CallOk(c) && (InRepair(c.pc) || c.pc.RepairLock?)
    ensures c.release.Unreleased?
  {
  }

  lemma OtherStepLightens(s: Pool, step: Step)
    requires step.Unload? || step.StartJob? || step.EndJob?
    requires Enabled(s, step)
    ensures var s', r := Do(s, step), Subject(step);
            r in s'.calls && Weight(s'.calls[r]) < Weight(s.calls[r]) && s'.closers == s.closers
  {
  }

  /** Every internal step leaves strictly less work. */
  lemma StepLightens(s: Pool, step: Step)
    requires Inv(s) && Enabled(s, step) && Internal(step)
    ensures Work(Do(s, step)) < Work(s)
  {
    hide LockOk, ExecutorsOk, FlagOk, Weight, JobStep, RepairStep, AdvanceAtGate, CallOk;
    var s' := Do(s, step);
    if step.AdvanceClose? {
      TotalUpdate(s.closers, step.c, s'.closers[step.c], CloserWeight);
    } else {
      var r := Subject(step);
      CallStepEffect(s, step);
      if !step.Advance? {
        OtherStepLightens(s, step);
      } else if AtGate(s.calls[r].pc) {
        GateStepLightens(s, r);
      } else if InRepair(s.calls[r].pc) || s.calls[r].pc.RepairLock? {
        RepairingIsUnreleased(s.calls[r]);
        RepairStepLightens(s.calls[r], s.closed);
      } else {
        JobStepLightens(s.calls[r], s.newest, s.broken, s.shut);
      }
      TotalUpdate(s.calls, r, s'.calls[r], Weight);
    }
  }

  /** While a call is unsettled some internal step can be taken. */
  lemma NeverStuck(s: Pool) returns (step: Step)
    requires Inv(s) && !Quiescent(s)
    ensures Internal(step) && Enabled(s, step)
  {
    var r :| r in s.calls && !Settled(s.calls[r]);
    var c := s.calls[r];
    assert CallOk(c);
    if c.release in {Discounting, Returning, Looking, Announcing} {
      step := Unload(r);
    } else if c.pc.Over? {
      step := JobCanMove(s, r);
    } else if c.pc.RepairLock? {
      step := LockCanMove(s, r);
    } else {
      step := Advance(r);
    }
  }

  lemma JobCanMove(s: Pool, r: nat) returns (step: Step)
    requires r in s.calls && s.calls[r].job.Unfinished()
    ensures Internal(step) && Enabled(s, step)
  {
    step := if s.calls[r].job.Queued? then StartJob(r) else EndJob(r, Value);
  }

  /** Whoever holds the lifecycle lock can move, or is a close waiting for a job that can. */
  lemma LockCanMove(s: Pool, r: nat) returns (step: Step)
    requires LockOk(s) && r in s.calls && s.calls[r].pc.RepairLock?
    ensures Internal(step) && Enabled(s, step)
  {
    match s.lock
    case Free =>
      step := Advance(r);
    case HeldByCall(q) =>
      step := Advance(q);
    case HeldByCloser(c) =>
      if Enabled(s, AdvanceClose(c)) {
        step := AdvanceClose(c);
      } else {
        var q :| q in s.calls && s.calls[q].job.Unfinished();
        step := JobCanMove(s, q);
      }
  }

  ghost predicate InternalNext(s: Pool, s': Pool) {
    exists step :: Internal(step) && Enabled(s, step) && s' == Do(s, step)
  }

  /** States one internal step apart. */
  ghost predicate InternalRun(run: seq<Pool>) {
    run != [] && forall i :: 0 < i < |run| ==> InternalNext(run[i - 1], run[i])
  }

  /** Without arrivals, closes and crashes the pool takes no more steps than its work. */
  lemma {:induction false} InternalRunsEnd(run: seq<Pool>)
    requires InternalRun(run) && Inv(run[0])
    ensures Inv(run[|run| - 1]) && Work(run[|run| - 1]) + |run| - 1 <= Work(run[0])
    decreases |run|
  {
    hide Inv, Work, Do, Enabled, Internal, InternalNext;
    if |run| > 1 {
      var shorter := run[..|run| - 1];
      InternalRunsEnd(shorter);
      var i := |run| - 1;
      assert InternalNext(run[i - 1], run[i]);
      InternalStepKeeps(run[i - 1], run[i]);
    }
  }

  lemma InternalStepKeeps(s: Pool, s': Pool)
    requires InternalNext(s, s')
    ensures s'.permits == s.permits
    ensures Inv(s) ==> Inv(s') && Work(s') < Work(s)
  {
    hide Inv, Work, Do, Enabled, Internal;
    var step :| Internal(step) && Enabled(s, step) && s' == Do(s, step);
    StepKeepsPermits(s, step);
    if Inv(s) {
      StepKeepsInv(s, step);
      StepLightens(s, step);
    }
  }

  /**
   From every state of every run, a run of internal steps that goes on as long
   as it can ends, and where it ends every call is settled and every permit is
   back: no timeout, crash, cancellation or close loses one.
   */
  lemma PermitsComeBack(permits: nat, run: seq<Pool>, i: nat, after: seq<Pool>)
    requires IsRun(permits, run) && i < |run|
    requires InternalRun(after) && after[0] == run[i]
    ensures |after| - 1 <= Work(run[i])
    ensures var last := after[|after| - 1];
            (forall step :: Internal(step) ==> !Enabled(last, step)) ==>
              Quiescent(last) && last.sem == permits && last.inUse == 0 && last.waiting == 0
  {
    hide Work, Do, InternalNext, Internal, Enabled;
    RunKeepsInv(permits, run, i);
    InternalRunsEnd(after);
    var last := after[|after| - 1];
    InternalRunKeepsPermits(after);
    if forall step :: Internal(step) ==> !Enabled(last, step) {
      if !Quiescent(last) {
        var step := NeverStuck(last);
      }
      QuiescentGate(last);
    }
  }

  lemma {:induction false} InternalRunKeepsPermits(run: seq<Pool>)
    requires InternalRun(run)
    ensures run[|run| - 1].permits == run[0].permits
    decreases |run|
  {
    hide InternalNext;
    if |run| > 1 {
      InternalRunKeepsPermits(run[..|run| - 1]);
      var i := |run| - 1;
      assert InternalNext(run[i - 1], run[i]);
      InternalStepKeeps(run[i - 1], run[i]);
    }
  }
}
