/** The properties of the extraction pool, for every state of every run. */
module PoolSafety {
  import opened Counting
  import opened PoolProtocol
  import opened PoolInvariants

  lemma {:induction false} RunKeepsInv(permits: nat, run: seq<Pool>, i: nat)
    requires IsRun(permits, run) && i < |run|
    ensures Inv(run[i]) && run[i].permits == permits
  {
    hide Inv;
    if i == 0 {
      InitInv(permits);
    } else {
      RunKeepsInv(permits, run, i - 1);
      assert Next(run[i - 1], run[i]);
      var step :| Enabled(run[i - 1], step) && run[i] == Do(run[i - 1], step);
      StepKeepsInv(run[i - 1], step);
      StepKeepsPermits(run[i - 1], step);
    }
  }

  lemma StepKeepsPermits(s: Pool, step: Step)
    requires Enabled(s, step)
    ensures Do(s, step).permits == s.permits
  {
  }

  predicate IsUncounted(c: Call) {
    c.slot.Uncounted?
  }

  predicate IsDiscounted(c: Call) {
    c.slot.Discounted?
  }

  predicate IsCountedOrUncounted(c: Call) {
    c.slot.Counted? || c.slot.Uncounted?
  }

  predicate JobUnfinished(c: Call) {
    c.job.Unfinished()
  }

  /**
   The permits free, counted, acquired but not yet counted, and taken off the
   count but not yet given back always add up to the permits there are; the
   counters tell what they claim and stay in their bounds.
   */
  lemma PermitsConserved(permits: nat, run: seq<Pool>, i: nat)
    requires IsRun(permits, run) && i < |run|
    ensures var s := run[i];
            && s.sem + s.inUse + Count(s.calls, IsUncounted) + Count(s.calls, IsDiscounted) == permits
            && s.inUse == Count(s.calls, IsCounted) && 0 <= s.inUse <= permits
            && s.waiting == Count(s.calls, IsWaiting)
  {
    RunKeepsInv(permits, run, i);
    var s := run[i];
    CountSplit(s.calls, IsCounted, IsUncounted, IsCountedOrUncounted);
    CountSplit(s.calls, IsCountedOrUncounted, IsDiscounted, HoldsPermit);
  }

  /** Jobs submitted and not finished never outnumber `inflight`, so never the permits. */
  lemma JobsWithinPermits(permits: nat, run: seq<Pool>, i: nat)
    requires IsRun(permits, run) && i < |run|
    ensures Count(run[i].calls, JobUnfinished) <= run[i].inUse <= permits
  {
    RunKeepsInv(permits, run, i);
    var s := run[i];
    PermitsConserved(permits, run, i);
    forall r | r in s.calls && JobUnfinished(s.calls[r]) ensures IsCounted(s.calls[r]) {
      assert CallOk(s.calls[r]);
    }
    CountAtMost(s.calls, JobUnfinished, IsCounted);
  }

  /** Nothing is left to be done for the call, by its caller or by the callback of its job. */
  predicate Settled(c: Call) {
    c.pc.Over? && (c.release.Unreleased? || c.release.Released?)
  }

  /**
   A call acquires at most one permit and gives back no more than it acquired;
   once settled it has given back exactly what it acquired. A call that is over
   but not settled is one that timed out, and its permit is held for as long as
   its job runs.
   */
  lemma ReleasedExactlyOnce(permits: nat, run: seq<Pool>, i: nat, r: nat)
    requires IsRun(permits, run) && i < |run| && r in run[i].calls
    ensures var c := run[i].calls[r];
            && c.releases <= c.acquires <= 1
            && (c.acquires == c.releases <==> c.slot.NoSlot?)
            && (Settled(c) ==> c.releases == c.acquires)
            && (c.pc.Over? && !Settled(c) ==> c.pc.ending.TimedOut? && c.acquires == 1)
            && (c.job.Unfinished() ==> c.acquires == 1 && c.releases == 0)
            && (c.pc.Over? && c.pc.ending.Overloaded? ==> c.acquires == 0)
  {
    RunKeepsInv(permits, run, i);
    assert CallOk(run[i].calls[r]);
  }

  /** The bounded semaphore is never released past its permits. */
  lemma NeverOverReleased(permits: nat, run: seq<Pool>, i: nat, r: nat)
    requires IsRun(permits, run) && i < |run|
    requires r in run[i].calls && run[i].calls[r].release.Returning?
    ensures run[i].sem < permits
  {
    RunKeepsInv(permits, run, i);
    assert CallOk(run[i].calls[r]);
    CountSome(run[i].calls, HoldsPermit);
  }

  ghost predicate Quiescent(s: Pool) {
    forall r :: r in s.calls ==> Settled(s.calls[r])
  }

  /**
   With every call settled, all permits are back, both counters are zero, and
   a flag still raised was last written by a caller whose queue timeout lapsed:
   a waiter that got in, or a restart, never leaves it raised.
   */
  lemma QuiescentPool(permits: nat, run: seq<Pool>, i: nat)
    requires IsRun(permits, run) && i < |run| && Quiescent(run[i])
    ensures var s := run[i];
            && s.sem == permits && s.inUse == 0 && s.waiting == 0
            && (s.overloaded ==> s.lastWriter.Lapsed?)
  {
    RunKeepsInv(permits, run, i);
    QuiescentGate(run[i]);
  }

  lemma QuiescentGate(s: Pool)
    requires Inv(s) && Quiescent(s)
    ensures s.sem == s.permits && s.inUse == 0 && s.waiting == 0
    ensures s.overloaded ==> s.lastWriter.Lapsed?
  {
    forall r | r in s.calls ensures !HoldsPermit(s.calls[r]) && !IsWaiting(s.calls[r]) && !WillWrite(s.calls[r]) {
      assert Settled(s.calls[r]) && CallOk(s.calls[r]);
    }
    CountSome(s.calls, HoldsPermit);
    CountSome(s.calls, IsWaiting);
    CountAtMost(s.calls, IsCounted, HoldsPermit);
  }

  /**
   In every interleaving of restarts and closes: every executor but the newest
   has been shut down, `restarts` is the number created after the first, except
   between a restart's creation and its count, and a closed pool has none in
   service once `close` has passed its shutdown.
   */
  lemma ExecutorsAccountedFor(permits: nat, run: seq<Pool>, i: nat)
    requires IsRun(permits, run) && i < |run|
    ensures var s := run[i];
            && (forall e :: 0 <= e < s.newest ==> e in s.shut)
            && (s.lock.Free? ==> s.newest == s.restarts)
            && s.restarts <= s.newest <= s.restarts + 1
            && (s.lock.Free? ==> (s.newest in s.shut <==> s.closed))
  {
    RunKeepsInv(permits, run, i);
  }

  /** Mutual exclusion: at most one restart or close is past the lifecycle lock. */
  lemma OneInLifecycle(permits: nat, run: seq<Pool>, i: nat, r: nat, q: nat, c: nat)
    requires IsRun(permits, run) && i < |run|
    requires r in run[i].calls && InRepair(run[i].calls[r].pc)
    ensures q in run[i].calls && InRepair(run[i].calls[q].pc) ==> q == r
    ensures c in run[i].closers ==> !InClose(run[i].closers[c])
  {
    RunKeepsInv(permits, run, i);
  }

  /** Once closed, the pool stays closed and no executor is ever created again. */
  lemma {:induction false} ClosedForGood(permits: nat, run: seq<Pool>, i: nat, j: nat)
    requires IsRun(permits, run) && i <= j < |run| && run[i].closed
    ensures run[j].closed && run[j].newest == run[i].newest && run[j].restarts == run[i].restarts
  {
    hide Inv, Do, Enabled;
    if i < j {
      ClosedForGood(permits, run, i, j - 1);
      RunKeepsInv(permits, run, j - 1);
      assert Next(run[j - 1], run[j]);
      var step :| Enabled(run[j - 1], step) && run[j] == Do(run[j - 1], step);
      ClosedStaysClosed(run[j - 1], step);
    }
  }

  lemma ClosedStaysClosed(s: Pool, step: Step)
    requires Inv(s) && s.closed && Enabled(s, step)
    ensures Do(s, step).closed && Do(s, step).newest == s.newest && Do(s, step).restarts == s.restarts
  {
    hide CallsOk, Balanced, FlagOk, Do;
    if step.Advance? && InRepair(s.calls[step.r].pc) {
      RepairAfterClose(s, step.r);
    } else if OnCall(step) {
      ExecutorsUntouched(s, step);
    } else {
      CloseAfterClose(s, step);
    }
  }

  lemma RepairAfterClose(s: Pool, r: nat)
    requires LockOk(s) && ExecutorsOk(s) && s.closed && Enabled(s, Advance(r)) && InRepair(s.calls[r].pc)
    ensures var s' := Do(s, Advance(r)); s'.closed && s'.newest == s.newest && s'.restarts == s.restarts
  {
    hide RepairStep;
  }

  lemma CloseAfterClose(s: Pool, step: Step)
    requires s.closed && Enabled(s, step) && !OnCall(step)
    ensures Do(s, step).closed && Do(s, step).newest == s.newest && Do(s, step).restarts == s.restarts
  {
  }
}
