/**
 Who lowers the readiness flag of the instance: a release of the pool that read
 that nothing is in flight, or a request whose own release left nobody behind.
 */
module ServiceReadiness {
  import opened BufferPool
  import opened Counting
  import opened ServiceProtocol
  import opened ServiceInvariants
  import opened ServiceSafety
  import PoolProtocol
  import PoolInvariants
  import PoolTraces
  import PoolReadiness

  /** What the pool goes through. */
  ghost function Pools(run: seq<Service>): (ps: seq<PoolProtocol.Pool>)
    ensures |ps| == |run| && forall i :: 0 <= i < |run| ==> ps[i] == run[i].pool
  {
    seq(|run|, i requires 0 <= i < |run| => run[i].pool)
  }

  /** What is said of all traces of the pool is said of it inside the instance. */
  lemma PoolsAreTrace(doorLimit: nat, capacity: nat, maxUpload: nat, run: seq<Service>)
    requires IsRun(doorLimit, capacity, maxUpload, run)
    ensures PoolTraces.IsTrace(capacity, Pools(run))
  {
    var ps := Pools(run);
    forall i | 0 < i < |ps| ensures ps[i] == ps[i - 1] || PoolProtocol.Next(ps[i - 1], ps[i]) {
      NoneStarvedBefore(doorLimit, capacity, maxUpload, run, i);
      PoolMovesByItsSteps(run[i - 1], run[i]);
    }
  }

  lemma RunStep(doorLimit: nat, capacity: nat, maxUpload: nat, run: seq<Service>, i: nat) returns (step: Step)
    requires IsRun(doorLimit, capacity, maxUpload, run) && i + 1 < |run|
    ensures Inv(run[i]) && Inv(run[i + 1]) && Enabled(run[i], step) && run[i + 1] == Do(run[i], step)
  {
    RunKeepsInv(doorLimit, capacity, maxUpload, run, i);
    RunKeepsInv(doorLimit, capacity, maxUpload, run, i + 1);
    hide Inv, Enabled, Do;
    assert Next(run[(i + 1) - 1], run[i + 1]);
    step :| Enabled(run[i], step) && run[i + 1] == Do(run[i], step);
  }

  /** Request `r` gives its admission slot back in the step from `m`. */
  ghost predicate ReleasesAt(run: seq<Service>, m: nat, r: nat) {
    && m + 1 < |run| && r in run[m].requests && r in run[m + 1].requests
    && IsAdmitted(run[m].requests[r]) && !IsAdmitted(run[m + 1].requests[r])
  }

  /** No request is admitted, and none is counted as waiting to be. */
  ghost predicate Nobody(s: Service) {
    Count(s.requests, IsAdmitted) == 0 && Count(s.requests, IsCountedWaiter) == 0
  }

  /** In the step from `m` request `r` gives its slot back and leaves nobody behind. */
  ghost predicate EmptiesAt(run: seq<Service>, m: nat, r: nat) {
    ReleasesAt(run, m, r) && Nobody(run[m + 1])
  }

  ghost predicate ChangesAt(run: seq<Service>, k: nat, r: nat) {
    && k + 1 < |run| && r in run[k].requests && r in run[k + 1].requests
    && run[k + 1].requests[r] != run[k].requests[r]
  }

  /** From after `m` up to `k` request `r` stays as it is. */
  ghost predicate Rests(run: seq<Service>, m: nat, k: nat, r: nat) {
    && m < k < |run| && r in run[m + 1].requests
    && forall i :: m < i <= k ==> r in run[i].requests && run[i].requests[r] == run[m + 1].requests[r]
  }

  /** The next step of request `r` after the one from `m` is the one from `k`. */
  ghost predicate NextChange(run: seq<Service>, m: nat, k: nat, r: nat) {
    Rests(run, m, k, r) && ChangesAt(run, m, r) && ChangesAt(run, k, r)
  }

  /** What a request's slot comes to when it is given back. */
  lemma ReleaseMarks(s: Service, step: Step, r: nat)
    requires Inv(s) && Enabled(s, step) && Inv(Do(s, step)) && r in s.requests && r in Do(s, step).requests
    ensures var s' := Do(s, step);
            && (IsAdmitted(s.requests[r]) && !IsAdmitted(s'.requests[r]) ==> s'.requests[r] == Marking(Nobody(s')))
            && (s'.requests[r].Marking? && !s.requests[r].Marking? ==>
                  IsAdmitted(s.requests[r]) && s'.requests[r] == Marking(Nobody(s')))
            && (s'.requests[r].Marking? && s.requests[r].Marking? ==> s'.requests[r] == s.requests[r])
  {
    hide BuffersOk, CallsLinked, PoolInvariants.Inv, NobodyQueues, FlagOk, PoolProtocol.Do, PoolProtocol.Enabled;
    hide DoorFree, AdmissionFree, Exhausted, Lent, AfterLoan, AfterReturn, Count, LoopOk;
  }

  lemma NewcomersAtDoor(s: Service, step: Step, r: nat)
    requires Enabled(s, step) && r !in s.requests && r in Do(s, step).requests
    ensures !Do(s, step).requests[r].Marking?
  {
    StepShape(s, step);
    hide DoorFree, AdmissionFree, Exhausted, Lent, AfterLoan, AfterReturn, PoolProtocol.Do, PoolProtocol.Enabled;
  }

  /** A request about to mark the instance ready left nobody behind when it gave its slot back. */
  lemma {:induction false} MarkersLeftNobody(
    doorLimit: nat, capacity: nat, maxUpload: nat, run: seq<Service>, i: nat, r: nat) returns (m: nat)
    requires IsRun(doorLimit, capacity, maxUpload, run) && i < |run|
    requires r in run[i].requests && run[i].requests[r] == Marking(true)
    ensures m < i && EmptiesAt(run, m, r) && Rests(run, m, i, r)
  {
    assert i > 0;
    MarkerBefore(doorLimit, capacity, maxUpload, run, i - 1, r);
    hide IsRun, EmptiesAt;
    if EmptiesAt(run, i - 1, r) {
      m := i - 1;
    } else {
      m := MarkersLeftNobody(doorLimit, capacity, maxUpload, run, i - 1, r);
      hide Rests;
      RestsOn(run, m, i - 1, r);
    }
  }

  lemma RestsOn(run: seq<Service>, m: nat, i: nat, r: nat)
    requires Rests(run, m, i, r) && i + 1 < |run|
    requires r in run[i + 1].requests && run[i + 1].requests[r] == run[i].requests[r]
    ensures Rests(run, m, i + 1, r)
  {
  }

  lemma MarkerBefore(doorLimit: nat, capacity: nat, maxUpload: nat, run: seq<Service>, i: nat, r: nat)
    requires IsRun(doorLimit, capacity, maxUpload, run) && i + 1 < |run|
    requires r in run[i + 1].requests && run[i + 1].requests[r] == Marking(true)
    ensures r in run[i].requests && (run[i].requests[r] == Marking(true) || EmptiesAt(run, i, r))
  {
    hide Inv, Enabled, Do, IsRun, Nobody;
    var step := RunStep(doorLimit, capacity, maxUpload, run, i);
    if r !in run[i].requests {
      NewcomersAtDoor(run[i], step, r);
    } else {
      ReleaseMarks(run[i], step, r);
    }
  }

  /** The flag is lowered by the pool, or by a request at its mark. */
  lemma StepLowers(s: Service, step: Step)
    requires NoneStarved(s) && Enabled(s, step) && s.pool.overloaded && !Do(s, step).pool.overloaded
    ensures step.Thread? || (step.Mark? && step.r in s.requests && s.requests[step.r] == Marking(true))
    ensures step.Mark? ==> Do(s, step).requests == s.requests[step.r := Leaving]
  {
    hide DoorFree, AdmissionFree, Exhausted, Lent, AfterLoan, AfterReturn;
    if !step.Thread? {
      hide PoolProtocol.Enabled;
    }
  }

  lemma ThreadIsNoMark(p: PoolProtocol.Pool, step: PoolProtocol.Step)
    requires PoolProtocol.Enabled(p, step) && p.overloaded && !PoolProtocol.Do(p, step).overloaded && !step.MarkReady?
    ensures step.Unload? && step.r in p.calls && p.calls[step.r].release.Announcing?
  {
    PoolReadiness.StepLowers(p, step);
  }

  /** A release of the pool lowers the flag after it read that nothing is in flight. */
  ghost predicate PoolLowersAt(run: seq<Service>, k: nat) {
    exists q, m: nat ::
      m < k && PoolReadiness.ReadsEmptyAt(Pools(run), m, q) && PoolReadiness.UnloadsAt(Pools(run), k, q)
  }

  /** A request lowers it, in its next step after the release that left nobody behind. */
  ghost predicate RequestLowersAt(run: seq<Service>, k: nat) {
    exists r, m: nat :: EmptiesAt(run, m, r) && NextChange(run, m, k, r)
  }

  /** Whenever the flag goes from raised to lowered, it is in one of these two ways. */
  lemma FlagLoweredRightly(doorLimit: nat, capacity: nat, maxUpload: nat, run: seq<Service>, k: nat)
    requires IsRun(doorLimit, capacity, maxUpload, run) && k + 1 < |run|
    requires run[k].pool.overloaded && !run[k + 1].pool.overloaded
    ensures PoolLowersAt(run, k) || RequestLowersAt(run, k)
  {
    hide IsRun, Inv, Enabled, Do, PoolLowersAt, RequestLowersAt;
    var step := RunStep(doorLimit, capacity, maxUpload, run, k);
    NoneStarvedIn(run[k]);
    StepLowers(run[k], step);
    if step.Mark? {
      MarkLowers(doorLimit, capacity, maxUpload, run, k, step.r);
    } else {
      ThreadLowers(doorLimit, capacity, maxUpload, run, k, step.step);
    }
  }

  lemma MarkLowers(doorLimit: nat, capacity: nat, maxUpload: nat, run: seq<Service>, k: nat, r: nat)
    requires IsRun(doorLimit, capacity, maxUpload, run) && k + 1 < |run|
    requires r in run[k].requests && run[k].requests[r] == Marking(true)
    requires run[k + 1].requests == run[k].requests[r := Leaving]
    ensures RequestLowersAt(run, k)
  {
    hide IsRun, Nobody;
    var m := MarkersLeftNobody(doorLimit, capacity, maxUpload, run, k, r);
    assert NextChange(run, m, k, r);
  }

  lemma ThreadLowers(doorLimit: nat, capacity: nat, maxUpload: nat, run: seq<Service>, k: nat, p: PoolProtocol.Step)
    requires IsRun(doorLimit, capacity, maxUpload, run) && k + 1 < |run|
    requires Enabled(run[k], Thread(p)) && run[k + 1] == Do(run[k], Thread(p))
    requires run[k].pool.overloaded && !run[k + 1].pool.overloaded
    ensures PoolLowersAt(run, k)
  {
    PoolsAreTrace(doorLimit, capacity, maxUpload, run);
    ThreadIsNoMark(run[k].pool, p);
    UnloadChanges(run[k], run[k + 1], p.r);
    hide IsRun, PoolTraces.IsTrace, PoolReadiness.ReadsEmptyAt, Do, Enabled, PoolProtocol.Do, PoolProtocol.Enabled;
    var ps := Pools(run);
    PoolReadiness.AnnouncingReadEmpty(capacity, ps, k, p.r);
    var m: nat :| m < k && PoolReadiness.ReadsEmptyAt(ps, m, p.r);
    assert PoolReadiness.UnloadsAt(ps, k, p.r);
  }

  lemma NoneStarvedIn(s: Service)
    requires Inv(s)
    ensures NoneStarved(s)
  {
  }

  lemma UnloadChanges(s: Service, s': Service, q: nat)
    requires q in s.pool.calls && s.pool.calls[q].release.Announcing?
    requires PoolProtocol.Enabled(s.pool, PoolProtocol.Unload(q))
    requires s'.pool == PoolProtocol.Do(s.pool, PoolProtocol.Unload(q))
    ensures q in s'.pool.calls && s'.pool.calls[q].release != s.pool.calls[q].release
  {
    PoolReadiness.UnloadLowers(s.pool, q);
  }

  /** Once raised, the flag stays raised until it is lowered in one of these two ways. */
  lemma {:induction false} RaisedUntilLowered(
    doorLimit: nat, capacity: nat, maxUpload: nat, run: seq<Service>, j: nat, i: nat)
    requires IsRun(doorLimit, capacity, maxUpload, run) && j <= i < |run| && run[j].pool.overloaded
    ensures run[i].pool.overloaded || exists k: nat :: j <= k < i && (PoolLowersAt(run, k) || RequestLowersAt(run, k))
  {
    hide IsRun, PoolLowersAt, RequestLowersAt;
    if j < i {
      RaisedUntilLowered(doorLimit, capacity, maxUpload, run, j, i - 1);
      if run[i - 1].pool.overloaded && !run[i].pool.overloaded {
        FlagLoweredRightly(doorLimit, capacity, maxUpload, run, i - 1);
      }
    }
  }

  /** A request whose release leaves nobody behind lowers the flag in its next step; any other leaves it alone. */
  lemma LastOneOutLowers(
    doorLimit: nat, capacity: nat, maxUpload: nat, run: seq<Service>, m: nat, k: nat, r: nat)
    requires IsRun(doorLimit, capacity, maxUpload, run) && NextChange(run, m, k, r) && ReleasesAt(run, m, r)
    ensures if Nobody(run[m + 1]) then !run[k + 1].pool.overloaded else run[k + 1].pool == run[k].pool
    ensures run[m + 1].loop && run[k].loop && !run[k + 1].loop
  {
    hide IsRun, Inv, Nobody, Enabled, Do;
    var release := RunStep(doorLimit, capacity, maxUpload, run, m);
    ReleaseMarks(run[m], release, r);
    assert run[k].requests[r] == run[m + 1].requests[r];
    var step := RunStep(doorLimit, capacity, maxUpload, run, k);
    MarkersHoldLoop(run[m + 1], r);
    MarkersHoldLoop(run[k], r);
    OnlyMarkMoves(run[k], step, r);
  }

  lemma MarkersHoldLoop(s: Service, r: nat)
    requires Inv(s) && r in s.requests && s.requests[r].Marking?
    ensures s.loop
  {
  }

  lemma OnlyMarkMoves(s: Service, step: Step, r: nat)
    requires Enabled(s, step) && r in s.requests && s.requests[r].Marking?
    requires r in Do(s, step).requests && Do(s, step).requests[r] != s.requests[r]
    ensures step == Mark(r) && !Do(s, step).loop
    ensures if s.requests[r].idle then !Do(s, step).pool.overloaded else Do(s, step).pool == s.pool
  {
    StepShape(s, step);
    hide DoorFree, AdmissionFree, Exhausted, Lent, AfterLoan, AfterReturn;
  }
}
