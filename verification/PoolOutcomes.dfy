/** What a caller of the pool is told is what became of its job. */
module PoolOutcomes {
  import opened PoolProtocol
  import opened PoolInvariants
  import opened PoolSafety

  /** How a call may end, given its job as it ended or, after a timeout, still goes on. */
  predicate Fits(ending: Ending, job: Job) {
    match ending
    case Answered => job == Finished(Value)
    case JobFailed => job == Finished(Error) || job == Finished(Cancelled)
    case TimedOut => !job.NoJob? && !job.Queued?
    case Overloaded => job.NoJob?
    case PoolBroken => job.NoJob? || job == Finished(Crash)
    case PoolShut => job.NoJob?
  }

  predicate Honest(c: Call) {
    match c.pc
    case Unwind(ending) => Fits(ending, c.job)
    case Over(ending) => Fits(ending, c.job)
    case Arm => Fits(TimedOut, c.job)
    case _ => InRepair(c.pc) || c.pc.RepairLock? ==> Fits(PoolBroken, c.job)
  }

  ghost predicate AllHonest(s: Pool) {
    forall r :: r in s.calls ==> Honest(s.calls[r])
  }

  lemma GateStepKeepsHonest(c: Call, closed: bool, sem: nat)
    requires CallOk(c) && AtGate(c.pc)
    ensures Honest(GateStep(c, closed, sem))
  {
  }

  lemma JobStepKeepsHonest(c: Call, newest: nat, broken: set<nat>, shut: set<nat>)
    requires CallOk(c) && Honest(c) && !AtGate(c.pc) && !InRepair(c.pc) && !c.pc.RepairLock?
    ensures Honest(JobStep(c, newest, broken, shut))
  {
  }

  lemma RepairStepKeepsHonest(c: Call, closed: bool)
    requires Honest(c) && (InRepair(c.pc) || c.pc.RepairLock?)
    ensures Honest(RepairStep(c, closed))
  {
  }

  lemma OtherStepKeepsHonest(s: Pool, step: Step)
    requires Enabled(s, step) && (step.Begin? || step.Unload? || step.StartJob? || step.EndJob?)
    requires !step.Begin? ==> CallOk(s.calls[Subject(step)]) && Honest(s.calls[Subject(step)])
    ensures var s', r := Do(s, step), Subject(step); r in s'.calls && Honest(s'.calls[r])
  {
  }

  lemma AdvanceKeepsHonest(s: Pool, r: nat)
    requires r in s.calls && CallOk(s.calls[r]) && CanAdvance(s, s.calls[r]) && Honest(s.calls[r])
    ensures r in AdvanceCall(s, r).calls && Honest(AdvanceCall(s, r).calls[r])
  {
    hide CallOk, Honest, GateStep, JobStep, RepairStep;
    var c := s.calls[r];
    if AtGate(c.pc) {
      GateStepKeepsHonest(c, s.closed, s.sem);
    } else if InRepair(c.pc) || c.pc.RepairLock? {
      RepairStepKeepsHonest(c, s.closed);
    } else {
      JobStepKeepsHonest(c, s.newest, s.broken, s.shut);
    }
  }

  lemma StepKeepsHonest(s: Pool, step: Step)
    requires Inv(s) && AllHonest(s) && Enabled(s, step)
    ensures AllHonest(Do(s, step))
  {
    hide Balanced, LockOk, ExecutorsOk, FlagOk, CallOk, Honest, LockEffect, FlagEffect, AdvanceCall;
    if OnCall(step) {
      CallStepEffect(s, step);
      if step.Advance? {
        AdvanceKeepsHonest(s, step.r);
      } else {
        OtherStepKeepsHonest(s, step);
      }
      hide Do, Enabled;
    } else {
      OtherStepAndGate(s, step);
    }
  }

  lemma {:induction false} RunKeepsHonest(permits: nat, run: seq<Pool>, i: nat)
    requires IsRun(permits, run) && i < |run|
    ensures AllHonest(run[i])
  {
    hide Inv;
    if i > 0 {
      RunKeepsHonest(permits, run, i - 1);
      RunKeepsInv(permits, run, i - 1);
      assert Next(run[i - 1], run[i]);
      var step :| Enabled(run[i - 1], step) && run[i] == Do(run[i - 1], step);
      StepKeepsHonest(run[i - 1], step);
    }
  }

  /**
   A caller gets an answer only from its own finished job, an error only from a
   failed or cancelled one, a broken pool only if its job crashed or could not be
   submitted; refused for load or a closed pool, it never had a job; and a caller
   that timed out leaves no job behind that has not started yet.
   */
  lemma EndingsTellTheTruth(permits: nat, run: seq<Pool>, i: nat, r: nat)
    requires IsRun(permits, run) && i < |run|
    requires r in run[i].calls && run[i].calls[r].pc.Over?
    ensures var c := run[i].calls[r];
            && Fits(c.pc.ending, c.job)
            && (c.job == Finished(Value) ==> c.pc.ending.Answered? || c.pc.ending.TimedOut?)
            && (c.job.Unfinished() ==> c.pc.ending.TimedOut?)
  {
    RunKeepsHonest(permits, run, i);
    assert Honest(run[i].calls[r]);
  }
}
