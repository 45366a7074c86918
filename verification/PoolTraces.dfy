/**
 How the pool's states follow one another: which call a step moves, and where it
 moves it. A trace may stand still, so a part of a larger system has one too.
 */
module PoolTraces {
  import opened PoolProtocol
  import opened PoolInvariants
  import opened PoolSafety

  /** States from the initial one on, each the one before or a step after it. */
  ghost predicate IsTrace(permits: nat, ps: seq<Pool>) {
    && ps != [] && ps[0] == Init(permits)
    && forall i :: 0 < i < |ps| ==> ps[i] == ps[i - 1] || Next(ps[i - 1], ps[i])
  }

  lemma RunIsTrace(permits: nat, run: seq<Pool>)
    requires IsRun(permits, run)
    ensures IsTrace(permits, run)
  {
  }

  /** A step that leads from one state to the next, unless the trace stands still. */
  ghost predicate Follows(s: Pool, step: Step, s': Pool) {
    Enabled(s, step) && s' == Do(s, step)
  }

  lemma {:induction false} TraceKeepsInv(permits: nat, ps: seq<Pool>, i: nat)
    requires IsTrace(permits, ps) && i < |ps|
    ensures Inv(ps[i]) && ps[i].permits == permits
  {
    hide Inv, Enabled, Do;
    if i == 0 {
      InitInv(permits);
    } else {
      TraceKeepsInv(permits, ps, i - 1);
      if ps[i] != ps[i - 1] {
        assert Next(ps[i - 1], ps[i]);
        var step :| Enabled(ps[i - 1], step) && ps[i] == Do(ps[i - 1], step);
        StepKeepsInv(ps[i - 1], step);
        StepKeepsPermits(ps[i - 1], step);
      }
    }
  }

  lemma TraceStep(permits: nat, ps: seq<Pool>, i: nat) returns (step: Step)
    requires IsTrace(permits, ps) && i + 1 < |ps| && ps[i + 1] != ps[i]
    ensures Inv(ps[i]) && Follows(ps[i], step, ps[i + 1])
  {
    TraceKeepsInv(permits, ps, i);
    hide Inv, Enabled, Do;
    assert Next(ps[(i + 1) - 1], ps[i + 1]);
    step :| Enabled(ps[i], step) && ps[i + 1] == Do(ps[i], step);
  }

  /** The call as its next step leaves it. */
  function NextCall(s: Pool, r: nat): Call
    requires r in s.calls
  {
    var c := s.calls[r];
    if AtGate(c.pc) then GateStep(c, s.closed, s.sem)
    else if InRepair(c.pc) || c.pc.RepairLock? then RepairStep(c, s.closed)
    else JobStep(c, s.newest, s.broken, s.shut)
  }

  lemma AdvanceIsNextCall(s: Pool, r: nat)
    requires Enabled(s, Advance(r))
    ensures r in s.calls && Do(s, Advance(r)).calls == s.calls[r := NextCall(s, r)]
  {
    hide GateStep, RepairStep, JobStep, GatePool, RepairPool;
    PoolsKeepCalls(s, r);
  }

  lemma PoolsKeepCalls(s: Pool, r: nat)
    requires r in s.calls
    ensures GatePool(s, r).calls == s.calls && RepairPool(s, r).calls == s.calls && UnloadPool(s, r).calls == s.calls
  {
  }

  lemma UnloadIsNextRelease(s: Pool, r: nat)
    requires Enabled(s, Unload(r))
    ensures r in s.calls && Do(s, Unload(r)).calls == s.calls[r := UnloadStep(s.calls[r], s.inUse)]
  {
    hide UnloadStep, UnloadPool;
    PoolsKeepCalls(s, r);
  }

  /** A call stays in the table, and only its own steps move it. */
  lemma OwnStepsMove(s: Pool, step: Step, r: nat)
    requires Enabled(s, step) && r in s.calls
    ensures r in Do(s, step).calls
    ensures Do(s, step).calls[r].pc != s.calls[r].pc ==> step == Advance(r)
    ensures step == Advance(r) ==> Do(s, step).calls[r] == NextCall(s, r)
    ensures step != Advance(r) && step != Unload(r) && !((step.StartJob? || step.EndJob?) && step.r == r)
            ==> Do(s, step).calls[r] == s.calls[r]
  {
    hide NextCall, AdvanceCall, UnloadStep, UnloadSlot, AdvanceCloser;
    match step
    case Advance(q) => AdvanceIsNextCall(s, q);
    case Unload(q) =>
      UnloadIsNextRelease(s, q);
      UnloadKeepsPc(s.calls[q], s.inUse);
    case AdvanceClose(_) => OtherStepAndGate(s, step);
    case _ =>
  }

  lemma UnloadKeepsPc(c: Call, inUse: int)
    ensures UnloadStep(c, inUse).pc == c.pc && UnloadStep(c, inUse).job == c.job
  {
  }

  /** Call `r` takes a step of its own from `j`. */
  ghost predicate MovesAt(ps: seq<Pool>, j: nat, r: nat) {
    && j + 1 < |ps| && r in ps[j].calls && r in ps[j + 1].calls
    && ps[j + 1].calls[r].pc != ps[j].calls[r].pc
  }

  lemma MoveIsAdvance(permits: nat, ps: seq<Pool>, j: nat, r: nat)
    requires IsTrace(permits, ps) && MovesAt(ps, j, r)
    ensures Inv(ps[j]) && Follows(ps[j], Advance(r), ps[j + 1]) && ps[j + 1].calls[r] == NextCall(ps[j], r)
  {
    var step := TraceStep(permits, ps, j);
    OwnStepsMove(ps[j], step, r);
  }

  /** Calls that have begun stay in the table. */
  lemma {:induction false} CallsStay(permits: nat, ps: seq<Pool>, j: nat, i: nat, r: nat)
    requires IsTrace(permits, ps) && j <= i < |ps| && r in ps[j].calls
    ensures r in ps[i].calls
  {
    hide IsTrace, Inv, Enabled, Do;
    if j < i {
      CallsStay(permits, ps, j, i - 1, r);
      if ps[i] != ps[i - 1] {
        var step := TraceStep(permits, ps, i - 1);
        OwnStepsMove(ps[i - 1], step, r);
      }
    }
  }
}
