/** Where jobs run: on the executor in service, again on one after a crash, and on none once the pool has closed. */
module PoolJobs {
  import opened Options
  import opened PoolProtocol
  import opened PoolInvariants
  import opened PoolSafety
  import opened PoolTraces
  import opened PoolEndings

  // Which executor a job is on.

  /** The executor that a call is bound for, or its unfinished job is on. */
  function BoundTo(c: Call): Option<nat> {
    if c.pc.Submit? then Some(c.pc.on)
    else if c.job.Unfinished() then Some(c.job.on)
    else None
  }

  /** In the step from `j` call `r`, having counted itself in, takes executor `on`, which is in service then. */
  ghost predicate TakesAt(ps: seq<Pool>, j: nat, r: nat, on: nat) {
    MovesAt(ps, j, r) && IsCounted(ps[j].calls[r]) && ps[j].newest == on
  }

  lemma StepBindsTo(s: Pool, step: Step, r: nat)
    requires CallsOk(s) && Enabled(s, step) && r in Do(s, step).calls && BoundTo(Do(s, step).calls[r]).Some?
    ensures r in s.calls
    ensures || BoundTo(s.calls[r]) == BoundTo(Do(s, step).calls[r])
            || (&& step == Advance(r) && IsCounted(s.calls[r]) && Do(s, step).calls[r].pc != s.calls[r].pc
                && BoundTo(Do(s, step).calls[r]) == Some(s.newest))
  {
    hide NextCall, AdvanceCall, UnloadSlot, AdvanceCloser, CallOk, UnloadStep;
    match step
    case Advance(q) =>
      AdvanceIsNextCall(s, q);
      if q == r {
        AdvanceBindsTo(s, r);
      }
    case Unload(q) =>
      UnloadIsNextRelease(s, q);
      UnloadKeepsPc(s.calls[q], s.inUse);
    case AdvanceClose(_) => OtherStepAndGate(s, step);
    case _ =>
  }

  lemma AdvanceBindsTo(s: Pool, r: nat)
    requires CallsOk(s) && Enabled(s, Advance(r)) && BoundTo(NextCall(s, r)).Some?
    ensures || BoundTo(s.calls[r]) == BoundTo(NextCall(s, r))
            || (&& IsCounted(s.calls[r]) && NextCall(s, r).pc != s.calls[r].pc
                && BoundTo(NextCall(s, r)) == Some(s.newest))
  {
    assert CallOk(s.calls[r]);
  }

  /** A job is on an executor that was in service when its caller took it. */
  lemma {:induction false} JobsOnService(permits: nat, ps: seq<Pool>, i: nat, r: nat, on: nat)
    requires IsTrace(permits, ps) && i < |ps| && r in ps[i].calls && BoundTo(ps[i].calls[r]) == Some(on)
    ensures exists j: nat :: j < i && TakesAt(ps, j, r, on)
  {
    hide IsTrace, TakesAt, BoundTo;
    NotAtStart(permits, ps, i, r);
    BoundBefore(permits, ps, i - 1, r, on);
    if !TakesAt(ps, i - 1, r, on) {
      JobsOnService(permits, ps, i - 1, r, on);
    }
  }

  lemma NotAtStart(permits: nat, ps: seq<Pool>, i: nat, r: nat)
    requires IsTrace(permits, ps) && i < |ps| && r in ps[i].calls
    ensures i > 0
  {
  }

  lemma BoundBefore(permits: nat, ps: seq<Pool>, i: nat, r: nat, on: nat)
    requires IsTrace(permits, ps) && i + 1 < |ps| && r in ps[i + 1].calls && BoundTo(ps[i + 1].calls[r]) == Some(on)
    ensures (r in ps[i].calls && BoundTo(ps[i].calls[r]) == Some(on)) || TakesAt(ps, i, r, on)
  {
    hide IsTrace, Do, Enabled, BoundTo;
    if ps[i + 1] != ps[i] {
      var step := TraceStep(permits, ps, i);
      StepBindsTo(ps[i], step, r);
    }
  }

  // After a crash.

  lemma ExecutorsGrow(s: Pool, step: Step)
    requires Enabled(s, step)
    ensures s.newest <= Do(s, step).newest && (s.closed ==> Do(s, step).closed)
  {
    if OnCall(step) && (step.Advance? ==> !InRepair(s.calls[step.r].pc)) {
      hide Do;
      ExecutorsUntouched(s, step);
    } else {
      hide AdvanceAtGate, AdvanceJob, UnloadSlot, RepairStep;
    }
  }

  /** The call has left its restart behind, or its last steps of it. */
  predicate PastSpawn(c: Call) {
    c.pc.RepairCount? || c.pc.Unwind? || c.pc.Over?
  }

  lemma PastSpawnBy(s: Pool, r: nat)
    requires Enabled(s, Advance(r)) && BoundFor(s.calls[r], PoolBroken)
    ensures PastSpawn(NextCall(s, r)) ==>
              PastSpawn(s.calls[r]) || Do(s, Advance(r)).closed || Do(s, Advance(r)).newest > s.newest
  {
  }

  lemma CauseIsNotPast(s: Pool, r: nat)
    requires Enabled(s, Advance(r)) && Calls(s, s.calls[r], PoolBroken)
    ensures !PastSpawn(NextCall(s, r))
  {
  }

  lemma {:induction false} BrokenIsReplaced(permits: nat, ps: seq<Pool>, j: nat, i: nat, r: nat)
    requires IsTrace(permits, ps) && j < i < |ps| && CausedAt(ps, j, r, PoolBroken)
    ensures r in ps[i].calls && ps[j].newest <= ps[i].newest
    ensures PastSpawn(ps[i].calls[r]) ==> ps[i].closed || ps[j].newest < ps[i].newest
  {
    hide IsTrace, Calls, CausedAt, BoundFor, PastSpawn;
    CausedIsBound(permits, ps, j, i, r, PoolBroken);
    if i == j + 1 {
      BreaksAt(permits, ps, j, r);
    } else {
      BrokenIsReplaced(permits, ps, j, i - 1, r);
      CausedIsBound(permits, ps, j, i - 1, r, PoolBroken);
      ReplacedStays(permits, ps, i - 1, r);
    }
  }

  lemma BreaksAt(permits: nat, ps: seq<Pool>, j: nat, r: nat)
    requires IsTrace(permits, ps) && CausedAt(ps, j, r, PoolBroken)
    ensures r in ps[j + 1].calls && ps[j].newest <= ps[j + 1].newest && !PastSpawn(ps[j + 1].calls[r])
  {
    MoveIsAdvance(permits, ps, j, r);
    CauseIsNotPast(ps[j], r);
    hide IsTrace, Calls, NextCall, Do, Enabled;
    ExecutorsGrow(ps[j], Advance(r));
  }

  lemma ReplacedStays(permits: nat, ps: seq<Pool>, i: nat, r: nat)
    requires IsTrace(permits, ps) && i + 1 < |ps| && r in ps[i].calls && BoundFor(ps[i].calls[r], PoolBroken)
    ensures r in ps[i + 1].calls && ps[i].newest <= ps[i + 1].newest && (ps[i].closed ==> ps[i + 1].closed)
    ensures PastSpawn(ps[i + 1].calls[r]) ==>
              PastSpawn(ps[i].calls[r]) || ps[i + 1].closed || ps[i].newest < ps[i + 1].newest
  {
    hide IsTrace, BoundFor, NextCall, Do, Enabled;
    if ps[i + 1] != ps[i] {
      var step := TraceStep(permits, ps, i);
      OwnStepsMove(ps[i], step, r);
      ExecutorsGrow(ps[i], step);
      if step == Advance(r) {
        PastSpawnBy(ps[i], r);
      }
    }
  }

  /**
   A caller told that the pool is broken met a crash, and by then the executor of
   that time has been replaced, unless the pool has been closed.
   */
  lemma CrashesAreRepaired(permits: nat, ps: seq<Pool>, i: nat, r: nat) returns (j: nat)
    requires IsTrace(permits, ps) && i < |ps| && r in ps[i].calls && ps[i].calls[r].pc == Over(PoolBroken)
    ensures j < i && CausedAt(ps, j, r, PoolBroken) && (ps[i].closed || ps[j].newest < ps[i].newest)
  {
    BoundIsCaused(permits, ps, i, r, PoolBroken);
    j :| j < i && CausedAt(ps, j, r, PoolBroken);
    BrokenIsReplaced(permits, ps, j, i, r);
  }

  // After a close.

  /** In the step from `j` a close returns, having waited for the executor it shut down. */
  ghost predicate CloseReturnsAt(ps: seq<Pool>, j: nat, c: nat) {
    && j + 1 < |ps| && c in ps[j].closers && c in ps[j + 1].closers
    && ps[j].closers[c].CloseWait? && ps[j + 1].closers[c].CloseDone?
  }

  /** The last executor is shut down and has no unfinished job. */
  predicate Drained(s: Pool) {
    && s.closed && s.newest in s.shut
    && forall r :: r in s.calls && s.calls[r].job.Unfinished() ==> s.calls[r].job.on != s.newest
  }

  lemma CloseDrains(s: Pool, step: Step, c: nat)
    requires Inv(s) && Enabled(s, step) && c in s.closers && s.closers[c].CloseWait?
    requires c in Do(s, step).closers && Do(s, step).closers[c].CloseDone?
    ensures Drained(Do(s, step))
  {
    hide AdvanceCall, UnloadSlot;
    if OnCall(step) {
      ClosersUntouched(s, step);
    }
  }

  lemma ClosersUntouched(s: Pool, step: Step)
    requires Enabled(s, step) && OnCall(step)
    ensures Do(s, step).closers == s.closers
  {
    hide GateStep, RepairStep, JobStep, UnloadStep;
  }

  lemma {:induction false} DrainedStays(permits: nat, ps: seq<Pool>, j: nat, i: nat)
    requires IsTrace(permits, ps) && j <= i < |ps| && Drained(ps[j])
    ensures Drained(ps[i])
  {
    hide IsTrace, Drained, Inv, Do, Enabled;
    if j < i {
      DrainedStays(permits, ps, j, i - 1);
      if ps[i] != ps[i - 1] {
        var step := TraceStep(permits, ps, i - 1);
        StepKeepsDrained(ps[i - 1], step);
      }
    }
  }

  lemma StepKeepsDrained(s: Pool, step: Step)
    requires Inv(s) && Enabled(s, step) && Drained(s)
    ensures Drained(Do(s, step))
  {
    ClosedStaysClosed(s, step);
    ShutStaysShut(s, step);
    var s' := Do(s, step);
    hide Do, Enabled, CallsOk, Balanced, LockOk, ExecutorsOk, FlagOk;
    forall r | r in s'.calls && s'.calls[r].job.Unfinished() ensures s'.calls[r].job.on != s'.newest {
      JobsStayOff(s, step, r);
    }
  }

  lemma ShutStaysShut(s: Pool, step: Step)
    requires Enabled(s, step)
    ensures s.shut <= Do(s, step).shut
  {
    hide GateStep, RepairStep, JobStep, UnloadStep;
  }

  /** No job comes to be on an executor that is shut. */
  lemma JobsStayOff(s: Pool, step: Step, r: nat)
    requires CallsOk(s) && Enabled(s, step) && r in Do(s, step).calls && Do(s, step).calls[r].job.Unfinished()
    ensures r in s.calls
    ensures || (s.calls[r].job.Unfinished() && s.calls[r].job.on == Do(s, step).calls[r].job.on)
            || Do(s, step).calls[r].job.on !in s.shut
  {
    hide NextCall, AdvanceCall, UnloadSlot, AdvanceCloser, UnloadStep, CallOk;
    match step
    case Advance(q) =>
      AdvanceIsNextCall(s, q);
      if q == r {
        AdvanceStaysOff(s, r);
      }
    case Unload(q) =>
      UnloadIsNextRelease(s, q);
      UnloadKeepsPc(s.calls[q], s.inUse);
    case AdvanceClose(_) => OtherStepAndGate(s, step);
    case _ =>
  }

  lemma AdvanceStaysOff(s: Pool, r: nat)
    requires CallsOk(s) && Enabled(s, Advance(r)) && NextCall(s, r).job.Unfinished()
    ensures || (s.calls[r].job.Unfinished() && s.calls[r].job.on == NextCall(s, r).job.on)
            || NextCall(s, r).job.on !in s.shut
  {
    assert CallOk(s.calls[r]);
  }

  /** Once a close that waited has returned, the last executor never has an unfinished job again. */
  lemma ClosedMeansDrained(permits: nat, ps: seq<Pool>, j: nat, i: nat, c: nat)
    requires IsTrace(permits, ps) && j < i < |ps| && CloseReturnsAt(ps, j, c)
    ensures Drained(ps[i])
  {
    hide IsTrace;
    var step := TraceStep(permits, ps, j);
    CloseDrains(ps[j], step, c);
    DrainedStays(permits, ps, j + 1, i);
  }
}
