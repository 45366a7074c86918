/**
 Who raises the readiness flag and who lowers it. What has to raise it does so in
 its very next step; it stays raised until a release has read that nothing is in
 flight, or some other component marks the instance ready.
 */
module PoolReadiness {
  import opened Counting
  import opened PoolProtocol
  import opened PoolInvariants
  import opened PoolTraces

  // Lowering.

  /** The release of call `r`'s slot takes a step from `j`. */
  ghost predicate UnloadsAt(ps: seq<Pool>, j: nat, r: nat) {
    && j + 1 < |ps| && r in ps[j].calls && r in ps[j + 1].calls
    && ps[j].calls[r].release != ps[j + 1].calls[r].release
  }

  /** In the step from `m` the release of `r`'s slot, already given back, looks and no call is counted. */
  ghost predicate ReadsEmptyAt(ps: seq<Pool>, m: nat, r: nat) {
    UnloadsAt(ps, m, r) && ps[m].calls[r].release.Looking? && Count(ps[m].calls, IsCounted) == 0
  }

  /** Some other component marks the instance ready; nothing else changes. */
  predicate MarkedFromOutside(s: Pool, s': Pool) {
    s' == s.(overloaded := false, lastWriter := Outside)
  }

  /** The only ways to lower the flag. */
  ghost predicate RightlyLowered(ps: seq<Pool>, k: nat) {
    && k + 1 < |ps|
    && (|| MarkedFromOutside(ps[k], ps[k + 1])
        || exists r, m: nat :: m < k && ReadsEmptyAt(ps, m, r) && UnloadsAt(ps, k, r))
  }

  /** How a step changes the release of a call. */
  lemma ReleaseChanges(s: Pool, step: Step, r: nat)
    requires CallsOk(s) && Balanced(s) && Enabled(s, step) && r in Do(s, step).calls
    ensures var c' := Do(s, step).calls[r];
            && (c'.release.Announcing? ==>
                  && r in s.calls
                  && (|| s.calls[r].release.Announcing?
                      || (s.calls[r].release.Looking? && Count(s.calls, IsCounted) == 0)))
            && (r in s.calls && step == Unload(r) ==> c' == UnloadStep(s.calls[r], s.inUse))
  {
    hide NextCall, AdvanceCall, UnloadSlot, AdvanceCloser, CallOk, Count;
    match step
    case Advance(q) =>
      AdvanceIsNextCall(s, q);
      AdvanceStartsRelease(s, q);
    case Unload(q) => UnloadIsNextRelease(s, q);
    case AdvanceClose(_) => OtherStepAndGate(s, step);
    case _ =>
  }

  lemma AdvanceStartsRelease(s: Pool, r: nat)
    requires CallsOk(s) && Enabled(s, Advance(r))
    ensures NextCall(s, r).release == s.calls[r].release || !NextCall(s, r).release.Announcing?
  {
    assert CallOk(s.calls[r]);
  }

  lemma {:induction false} AnnouncingReadEmpty(permits: nat, ps: seq<Pool>, i: nat, r: nat)
    requires IsTrace(permits, ps) && i < |ps| && r in ps[i].calls && ps[i].calls[r].release.Announcing?
    ensures exists m: nat :: m < i && ReadsEmptyAt(ps, m, r)
  {
    assert i > 0;
    AnnouncingBefore(permits, ps, i - 1, r);
    hide IsTrace, ReadsEmptyAt;
    if !ReadsEmptyAt(ps, i - 1, r) {
      AnnouncingReadEmpty(permits, ps, i - 1, r);
    }
  }

  lemma AnnouncingBefore(permits: nat, ps: seq<Pool>, i: nat, r: nat)
    requires IsTrace(permits, ps) && i + 1 < |ps| && r in ps[i + 1].calls && ps[i + 1].calls[r].release.Announcing?
    ensures r in ps[i].calls && (ps[i].calls[r].release.Announcing? || ReadsEmptyAt(ps, i, r))
  {
    hide IsTrace, Enabled, Do, Count;
    if ps[i + 1] != ps[i] {
      var step := TraceStep(permits, ps, i);
      hide CallsOk, LockOk, ExecutorsOk, FlagOk;
      ReleaseChanges(ps[i], step, r);
    }
  }

  lemma StepLowers(s: Pool, step: Step)
    requires Enabled(s, step) && s.overloaded && !Do(s, step).overloaded
    ensures step.MarkReady? || (step.Unload? && step.r in s.calls && s.calls[step.r].release.Announcing?)
  {
    hide GateStep, RepairStep, JobStep, UnloadStep;
  }

  /** Nothing else lowers the flag. */
  lemma LoweredRightly(permits: nat, ps: seq<Pool>, k: nat)
    requires IsTrace(permits, ps) && k + 1 < |ps| && ps[k].overloaded && !ps[k + 1].overloaded
    ensures RightlyLowered(ps, k)
  {
    hide IsTrace, ReadsEmptyAt;
    var step := TraceStep(permits, ps, k);
    StepLowers(ps[k], step);
    if step.Unload? {
      AnnouncingReadEmpty(permits, ps, k, step.r);
      OwnStepsMove(ps[k], step, step.r);
      hide Do, Enabled;
      UnloadLowers(ps[k], step.r);
      assert UnloadsAt(ps, k, step.r);
    }
  }

  lemma UnloadLowers(s: Pool, r: nat)
    requires r in s.calls && s.calls[r].release.Announcing? && Enabled(s, Unload(r))
    ensures r in Do(s, Unload(r)).calls && Do(s, Unload(r)).calls[r].release.Released? && !Do(s, Unload(r)).overloaded
  {
  }

  /** The flag, once raised, stays raised until it is lowered in one of these ways. */
  lemma {:induction false} RaisedUntilLowered(permits: nat, ps: seq<Pool>, j: nat, i: nat)
    requires IsTrace(permits, ps) && j <= i < |ps| && ps[j].overloaded
    ensures ps[i].overloaded || exists k: nat :: j <= k < i && RightlyLowered(ps, k)
  {
    hide IsTrace, RightlyLowered;
    if j < i {
      RaisedUntilLowered(permits, ps, j, i - 1);
      if ps[i - 1].overloaded && !ps[i].overloaded {
        LoweredRightly(permits, ps, i - 1);
      }
    }
  }

  /** A release that read that nothing is in flight lowers the flag in its next step. */
  lemma ReadEmptyLowers(permits: nat, ps: seq<Pool>, m: nat, k: nat, r: nat)
    requires IsTrace(permits, ps) && m < k && ReadsEmptyAt(ps, m, r) && UnloadsAt(ps, k, r)
    requires forall i :: m < i <= k ==> r in ps[i].calls && ps[i].calls[r].release == ps[m + 1].calls[r].release
    ensures !ps[k + 1].overloaded
  {
    var look := UnloadIsUnload(permits, ps, m, r);
    UnloadIsNextRelease(ps[m], r);
    assert ps[m + 1].calls[r].release.Announcing?;
    assert ps[k].calls[r].release == ps[m + 1].calls[r].release;
    var step := UnloadIsUnload(permits, ps, k, r);
    UnloadLowers(ps[k], r);
  }

  /** Past its start, only its own steps change a release. */
  lemma UnloadIsUnload(permits: nat, ps: seq<Pool>, j: nat, r: nat) returns (step: Step)
    requires IsTrace(permits, ps) && UnloadsAt(ps, j, r)
    requires ps[j].calls[r].release.Looking? || ps[j].calls[r].release.Announcing?
    ensures step == Unload(r) && Inv(ps[j]) && Follows(ps[j], step, ps[j + 1])
  {
    hide IsTrace;
    step := TraceStep(permits, ps, j);
    if step != Unload(r) {
      ReleaseStays(ps[j], step, r);
    }
  }

  lemma ReleaseStays(s: Pool, step: Step, r: nat)
    requires CallsOk(s) && Enabled(s, step) && r in s.calls && step != Unload(r)
    requires s.calls[r].release.Looking? || s.calls[r].release.Announcing?
    ensures r in Do(s, step).calls && Do(s, step).calls[r].release == s.calls[r].release
  {
    hide AdvanceCall;
    OwnStepsMove(s, step, r);
    assert CallOk(s.calls[r]);
  }

  // Raising.

  /** Call `r` takes a step from `j` and its next one from `k`. */
  ghost predicate NextMove(ps: seq<Pool>, j: nat, k: nat, r: nat) {
    && j < k && MovesAt(ps, j, r) && MovesAt(ps, k, r)
    && forall i :: j < i <= k ==> r in ps[i].calls && ps[i].calls[r].pc == ps[j + 1].calls[r].pc
  }

  /** A caller that found no permit raises the flag in its next step. */
  lemma FullGateRaises(permits: nat, ps: seq<Pool>, j: nat, k: nat, r: nat)
    requires IsTrace(permits, ps) && NextMove(ps, j, k, r) && ps[j].calls[r].pc.TryPermit? && ps[j].sem == 0
    ensures ps[k + 1].overloaded
  {
    MoveIsAdvance(permits, ps, j, r);
    MoveIsAdvance(permits, ps, k, r);
    assert ps[k].calls[r].pc == ps[j + 1].calls[r].pc;
    RaisingStep(ps[j], r);
    RaisingStep(ps[k], r);
  }

  /** A restart that found the pool open raises the flag in its next step, before anything else. */
  lemma RestartRaises(permits: nat, ps: seq<Pool>, j: nat, k: nat, r: nat)
    requires IsTrace(permits, ps) && NextMove(ps, j, k, r) && ps[j].calls[r].pc.RepairCheck? && !ps[j].closed
    ensures ps[k + 1].overloaded
  {
    MoveIsAdvance(permits, ps, j, r);
    MoveIsAdvance(permits, ps, k, r);
    assert ps[k].calls[r].pc == ps[j + 1].calls[r].pc;
    RaisingStep(ps[j], r);
    RaisingStep(ps[k], r);
  }

  /** The step in which a caller is turned away leaves the flag raised. */
  lemma LapseRaises(permits: nat, ps: seq<Pool>, j: nat, r: nat)
    requires IsTrace(permits, ps) && MovesAt(ps, j, r) && ps[j + 1].calls[r].pc == Over(Overloaded)
    ensures ps[j + 1].overloaded
  {
    MoveIsAdvance(permits, ps, j, r);
    TurnedAway(ps[j], r);
  }

  lemma TurnedAway(s: Pool, r: nat)
    requires CallsOk(s) && Enabled(s, Advance(r)) && NextCall(s, r).pc == Over(Overloaded)
    ensures Do(s, Advance(r)).overloaded
  {
    assert CallOk(s.calls[r]);
  }

  lemma RaisingStep(s: Pool, r: nat)
    requires Enabled(s, Advance(r))
    ensures s.calls[r].pc.TryPermit? && s.sem == 0 ==> NextCall(s, r).pc.Signal?
    ensures s.calls[r].pc.RepairCheck? && !s.closed ==> NextCall(s, r).pc.RepairMark?
    ensures s.calls[r].pc.Signal? || s.calls[r].pc.RepairMark? ==> Do(s, Advance(r)).overloaded
  {
  }
}
