/** What decides how a call ends: for every ending one kind of event, and for every such event that ending. */
module PoolEndings {
  import opened PoolProtocol
  import opened PoolInvariants
  import opened PoolSafety
  import opened PoolTraces

  /** The event at hand, as call `c` of pool `s` takes its next step, that calls for `ending`. */
  predicate Calls(s: Pool, c: Call, ending: Ending) {
    match ending
    case Answered => c.pc.Await? && c.job == Finished(Value)
    case JobFailed => c.pc.Await? && (c.job == Finished(Error) || c.job == Finished(Cancelled))
    case TimedOut => c.pc.Await? && (c.job.Unfinished() || c.job == Finished(OwnTimeout))
    case PoolBroken => (c.pc.Await? && c.job == Finished(Crash)) || (c.pc.Submit? && c.pc.on in s.broken)
    case PoolShut => (c.pc.CheckOpen? && s.closed) || (c.pc.Submit? && c.pc.on !in s.broken && c.pc.on in s.shut)
    case Overloaded => c.pc.Block? && s.sem == 0
  }

  /** In the step from `j` call `r` meets an event that calls for `ending`. */
  ghost predicate CausedAt(ps: seq<Pool>, j: nat, r: nat, ending: Ending) {
    MovesAt(ps, j, r) && Calls(ps[j], ps[j].calls[r], ending)
  }

  /** The ending a call is bound for. */
  predicate BoundFor(c: Call, ending: Ending) {
    match c.pc
    case Unwind(e) => e == ending
    case Over(e) => e == ending
    case Cancel => ending.TimedOut?
    case Arm => ending.TimedOut?
    case Delist(got) => !got && ending.Overloaded?
    case Lapse => ending.Overloaded?
    case _ => (InRepair(c.pc) || c.pc.RepairLock?) && ending.PoolBroken?
  }

  lemma GateStepBinds(s: Pool, c: Call, ending: Ending)
    requires CallOk(c) && AtGate(c.pc)
    ensures BoundFor(GateStep(c, s.closed, s.sem), ending) <==> BoundFor(c, ending) || Calls(s, c, ending)
  {
  }

  lemma JobStepBinds(s: Pool, c: Call, ending: Ending)
    requires CallOk(c) && !AtGate(c.pc) && !InRepair(c.pc) && !c.pc.RepairLock? && !c.pc.Over?
    ensures BoundFor(JobStep(c, s.newest, s.broken, s.shut), ending) <==> BoundFor(c, ending) || Calls(s, c, ending)
  {
  }

  lemma RepairStepBinds(s: Pool, c: Call, ending: Ending)
    requires InRepair(c.pc) || c.pc.RepairLock?
    ensures BoundFor(RepairStep(c, s.closed), ending) <==> BoundFor(c, ending) || Calls(s, c, ending)
  {
  }

  /** A call's own step binds it exactly to what the event it meets calls for, and never unbinds it. */
  lemma StepBinds(s: Pool, r: nat, ending: Ending)
    requires CallsOk(s) && Enabled(s, Advance(r))
    ensures BoundFor(NextCall(s, r), ending) <==> BoundFor(s.calls[r], ending) || Calls(s, s.calls[r], ending)
  {
    hide CallOk, GateStep, JobStep, RepairStep, BoundFor, Calls;
    var c := s.calls[r];
    if AtGate(c.pc) {
      GateStepBinds(s, c, ending);
    } else if InRepair(c.pc) || c.pc.RepairLock? {
      RepairStepBinds(s, c, ending);
    } else {
      JobStepBinds(s, c, ending);
    }
  }

  lemma PcBinds(c: Call, c': Call, ending: Ending)
    requires c.pc == c'.pc
    ensures BoundFor(c, ending) <==> BoundFor(c', ending)
  {
  }

  lemma NewIsUnbound(s: Pool, step: Step, r: nat, ending: Ending)
    requires Enabled(s, step) && r !in s.calls && r in Do(s, step).calls
    ensures !BoundFor(Do(s, step).calls[r], ending)
  {
    hide AdvanceCall, UnloadSlot, AdvanceCloser;
    match step
    case Advance(q) => AdvanceIsNextCall(s, q);
    case Unload(q) => UnloadIsNextRelease(s, q);
    case AdvanceClose(_) => OtherStepAndGate(s, step);
    case _ =>
  }

  /** One step of a trace, as far as one call's ending goes. */
  lemma TraceBinds(permits: nat, ps: seq<Pool>, i: nat, r: nat, ending: Ending)
    requires IsTrace(permits, ps) && i + 1 < |ps| && r in ps[i + 1].calls
    ensures BoundFor(ps[i + 1].calls[r], ending) <==>
            (r in ps[i].calls && BoundFor(ps[i].calls[r], ending)) || CausedAt(ps, i, r, ending)
  {
    hide BoundFor, Calls, NextCall, Enabled, Do;
    if ps[i + 1] != ps[i] {
      var step := TraceStep(permits, ps, i);
      if r !in ps[i].calls {
        NewIsUnbound(ps[i], step, r, ending);
      } else {
        OwnStepsMove(ps[i], step, r);
        if step == Advance(r) {
          StepBinds(ps[i], r, ending);
          AdvanceMoves(ps[i], r);
        } else {
          PcBinds(ps[i].calls[r], ps[i + 1].calls[r], ending);
        }
      }
    }
  }

  lemma AdvanceMoves(s: Pool, r: nat)
    requires CallsOk(s) && Enabled(s, Advance(r))
    ensures NextCall(s, r).pc != s.calls[r].pc
  {
    assert CallOk(s.calls[r]);
  }

  lemma {:induction false} BoundIsCaused(permits: nat, ps: seq<Pool>, i: nat, r: nat, ending: Ending)
    requires IsTrace(permits, ps) && i < |ps| && r in ps[i].calls && BoundFor(ps[i].calls[r], ending)
    ensures exists j: nat :: j < i && CausedAt(ps, j, r, ending)
  {
    hide BoundFor, Calls;
    assert i > 0;
    TraceBinds(permits, ps, i - 1, r, ending);
    if !CausedAt(ps, i - 1, r, ending) {
      BoundIsCaused(permits, ps, i - 1, r, ending);
    }
  }

  lemma {:induction false} CausedIsBound(permits: nat, ps: seq<Pool>, j: nat, i: nat, r: nat, ending: Ending)
    requires IsTrace(permits, ps) && j < i < |ps| && CausedAt(ps, j, r, ending)
    ensures r in ps[i].calls && BoundFor(ps[i].calls[r], ending)
  {
    hide IsTrace, BoundFor, Calls;
    CallsStay(permits, ps, j, i, r);
    TraceBinds(permits, ps, i - 1, r, ending);
    if j < i - 1 {
      CausedIsBound(permits, ps, j, i - 1, r, ending);
    }
  }

  /**
   A call that is over ended in a given way exactly if it met, at some step of its
   own, an event that calls for it: its job finished while it waited, its time
   lapsed before that, its executor was broken or shut when it submitted, the pool
   was closed when it came, or its wait for a permit ended without one.
   */
  lemma EndingsExplained(permits: nat, ps: seq<Pool>, i: nat, r: nat, ending: Ending)
    requires IsTrace(permits, ps) && i < |ps| && r in ps[i].calls && ps[i].calls[r].pc.Over?
    ensures ps[i].calls[r].pc.ending == ending <==> exists j: nat :: j < i && CausedAt(ps, j, r, ending)
  {
    if ps[i].calls[r].pc.ending == ending {
      BoundIsCaused(permits, ps, i, r, ending);
    }
    if j: nat :| j < i && CausedAt(ps, j, r, ending) {
      CausedIsBound(permits, ps, j, i, r, ending);
    }
  }

  /** A call waits for its job. */
  predicate Awaits(s: Pool, r: nat, how: Finish) {
    r in s.calls && s.calls[r].pc.Await? && s.calls[r].job == Finished(how)
  }

  /** The ending that a job's own end calls for. */
  function EndingOf(how: Finish): Ending {
    match how
    case Value => Answered
    case Error => JobFailed
    case Cancelled => JobFailed
    case Crash => PoolBroken
    case OwnTimeout => TimedOut
  }

  /** A job that has finished while its caller still waits decides how the caller ends. */
  lemma {:induction false} FinishedInTime(permits: nat, ps: seq<Pool>, j: nat, i: nat, r: nat, how: Finish)
    requires IsTrace(permits, ps) && j <= i < |ps| && Awaits(ps[j], r, how)
    ensures r in ps[i].calls && (ps[i].calls[r].pc.Over? ==> ps[i].calls[r].pc.ending == EndingOf(how))
  {
    WaitsOrBound(permits, ps, j, i, r, how);
  }

  lemma {:induction false} WaitsOrBound(permits: nat, ps: seq<Pool>, j: nat, i: nat, r: nat, how: Finish)
    requires IsTrace(permits, ps) && j <= i < |ps| && Awaits(ps[j], r, how)
    ensures Awaits(ps[i], r, how) || (r in ps[i].calls && BoundFor(ps[i].calls[r], EndingOf(how)))
  {
    hide IsTrace, BoundFor, Awaits;
    if j < i {
      WaitsOrBound(permits, ps, j, i - 1, r, how);
      WaitsOrBinds(permits, ps, i - 1, r, how);
    }
  }

  lemma WaitsOrBinds(permits: nat, ps: seq<Pool>, i: nat, r: nat, how: Finish)
    requires IsTrace(permits, ps) && i + 1 < |ps|
    requires Awaits(ps[i], r, how) || (r in ps[i].calls && BoundFor(ps[i].calls[r], EndingOf(how)))
    ensures Awaits(ps[i + 1], r, how) || (r in ps[i + 1].calls && BoundFor(ps[i + 1].calls[r], EndingOf(how)))
  {
    CallsStay(permits, ps, i, i + 1, r);
    TraceBinds(permits, ps, i, r, EndingOf(how));
    hide IsTrace, BoundFor, NextCall;
    if Awaits(ps[i], r, how) && ps[i] != ps[i + 1] {
      var step := TraceStep(permits, ps, i);
      if step == Advance(r) {
        OwnStepsMove(ps[i], step, r);
        AdvanceMoves(ps[i], r);
        assert CausedAt(ps, i, r, EndingOf(how));
      } else {
        FinishedStays(ps[i], step, r, how);
      }
    }
  }

  lemma FinishedStays(s: Pool, step: Step, r: nat, how: Finish)
    requires CallsOk(s) && Enabled(s, step) && Awaits(s, r, how) && step != Advance(r)
    ensures Awaits(Do(s, step), r, how)
  {
    hide NextCall, AdvanceCall;
    OwnStepsMove(s, step, r);
    assert CallOk(s.calls[r]);
  }
}
