/** Runs of the pool in which calls end in each of the ways they may end. */
module PoolWitnesses {
  import opened PoolProtocol

  ghost predicate Reachable(permits: nat, s: Pool) {
    exists run :: IsRun(permits, run) && run[|run| - 1] == s
  }

  lemma ReachInit(permits: nat)
    ensures Reachable(permits, Init(permits))
  {
    var s := Init(permits);
    assert IsRun(permits, [s]) && [s][|[s]| - 1] == s;
  }

  lemma ReachNext(permits: nat, s: Pool, step: Step)
    requires Reachable(permits, s) && Enabled(s, step)
    ensures Reachable(permits, Do(s, step))
  {
    hide Enabled, Do, Init;
    var run :| IsRun(permits, run) && run[|run| - 1] == s;
    var longer := run + [Do(s, step)];
    assert Next(s, Do(s, step));
    assert IsRun(permits, longer) && longer[|longer| - 1] == Do(s, step);
  }

  /** The pool with one call, and otherwise as given. */
  function With(s: Pool, c: Call): Pool {
    s.(calls := map[0 := c])
  }

  lemma ReachAdvance(permits: nat, s: Pool, c: Call, s': Pool, c': Call)
    requires Reachable(permits, With(s, c)) && Enabled(With(s, c), Advance(0))
    requires Do(With(s, c), Advance(0)) == With(s', c')
    ensures Reachable(permits, With(s', c'))
  {
    hide Reachable, Enabled, Do;
    ReachNext(permits, With(s, c), Advance(0));
  }

  /** A call whose job was submitted, with a permit taken. */
  function Waiting(job: Job): Call {
    Call(Await, Counted, job, Unreleased, 1, 0)
  }

  /** The first call takes a permit and its job starts. */
  lemma ReachRunning(permits: nat)
    requires permits >= 1
    ensures Reachable(permits, With(Init(permits).(sem := permits - 1, inUse := 1), Waiting(Running(0))))
  {
    hide Reachable;
    var s := Init(permits);
    ReachInit(permits);
    ReachNext(permits, s, Begin(0));
    var c := NEW_CALL;
    assert Do(s, Begin(0)) == With(s, c);
    ReachAdvance(permits, s, c, s, c.(pc := TryPermit));
    var t := s.(sem := permits - 1);
    c := c.(pc := CountFast, slot := Uncounted, acquires := 1);
    ReachAdvance(permits, s, NEW_CALL.(pc := TryPermit), t, c);
    ReachGrabbed(permits, t, c);
  }

  lemma ReachGrabbed(permits: nat, t: Pool, c: Call)
    requires permits >= 1 && t == Init(permits).(sem := permits - 1)
    requires c == NEW_CALL.(pc := CountFast, slot := Uncounted, acquires := 1) && Reachable(permits, With(t, c))
    ensures Reachable(permits, With(t.(inUse := 1), Waiting(Running(0))))
  {
    hide Reachable;
    var u := t.(inUse := 1);
    var d := c.(pc := Grab, slot := Counted);
    ReachAdvance(permits, t, c, u, d);
    ReachAdvance(permits, u, d, u, d.(pc := Submit(0)));
    ReachAdvance(permits, u, d.(pc := Submit(0)), u, Waiting(Queued(0)));
    ReachNext(permits, With(u, Waiting(Queued(0))), StartJob(0));
    assert Do(With(u, Waiting(Queued(0))), StartJob(0)) == With(u, Waiting(Running(0)));
  }

  lemma ReachUnload(permits: nat, s: Pool, c: Call)
    requires Reachable(permits, With(s, c)) && c.release in {Discounting, Returning, Looking, Announcing}
    ensures Reachable(permits, With(UnloadPool(With(s, c), 0), UnloadStep(c, s.inUse)))
  {
    hide Reachable, UnloadStep, UnloadPool;
    ReachNext(permits, With(s, c), Unload(0));
    UnloadKeepsCalls(s, c);
    var c' := UnloadStep(c, s.inUse);
    assert map[0 := c][0 := c'] == map[0 := c'];
  }

  lemma UnloadKeepsCalls(s: Pool, c: Call)
    ensures UnloadPool(With(s, c), 0).calls == map[0 := c]
  {
  }

  /** The pool is left by its only call. */
  lemma ReachLeft(permits: nat, s: Pool, job: Job, ending: Ending)
    requires s.inUse == 1 && Reachable(permits, With(s, Call(Unwind(ending), Counted, job, Discounting, 1, 0)))
    ensures var t := s.(sem := s.sem + 1, inUse := 0, overloaded := false, lastWriter := Releaser(0));
            Reachable(permits, With(t, Call(Over(ending), NoSlot, job, Released, 1, 1)))
  {
    hide Reachable;
    var c := Call(Unwind(ending), Counted, job, Discounting, 1, 0);
    ReachUnload(permits, s, c);
    var s1 := s.(inUse := 0);
    var c1 := c.(release := Returning, slot := Discounted);
    ReachUnload(permits, s1, c1);
    ReachOver(permits, s1.(sem := s.sem + 1), job, ending);
  }

  lemma ReachOver(permits: nat, s: Pool, job: Job, ending: Ending)
    requires s.inUse == 0 && Reachable(permits, With(s, Call(Unwind(ending), NoSlot, job, Looking, 1, 1)))
    ensures var t := s.(overloaded := false, lastWriter := Releaser(0));
            Reachable(permits, With(t, Call(Over(ending), NoSlot, job, Released, 1, 1)))
  {
    hide Reachable;
    var c := Call(Unwind(ending), NoSlot, job, Looking, 1, 1);
    ReachUnload(permits, s, c);
    ReachUnload(permits, s, c.(release := Announcing));
    var t := s.(overloaded := false, lastWriter := Releaser(0));
    ReachJobStep(permits, t, c.(release := Released));
  }

  /** Some call of some run ends so. */
  ghost predicate Happens(permits: nat, ending: Ending) {
    exists s, r :: Reachable(permits, s) && r in s.calls && s.calls[r].pc == Over(ending)
  }

  /** How a job that ends on its own lets its call end. */
  lemma JobEnds(permits: nat, how: Finish, ending: Ending)
    requires permits >= 1 && ((how.Value? && ending.Answered?) || (how.Error? && ending.JobFailed?))
    ensures Happens(permits, ending)
  {
    hide Reachable;
    var s := Init(permits).(sem := permits - 1, inUse := 1);
    ReachRunning(permits);
    var c := Waiting(Running(0));
    ReachNext(permits, With(s, c), EndJob(0, how));
    var d := Waiting(Finished(how));
    assert Do(With(s, c), EndJob(0, how)) == With(s, d);
    ReachAdvance(permits, s, d, s, d.(pc := Unwind(ending), release := Discounting));
    ReachLeft(permits, s, Finished(how), ending);
    var t := s.(sem := permits, inUse := 0, lastWriter := Releaser(0));
    Witness(permits, t, Call(Over(ending), NoSlot, Finished(how), Released, 1, 1), ending);
  }

  lemma Witness(permits: nat, s: Pool, c: Call, ending: Ending)
    requires Reachable(permits, With(s, c)) && c.pc == Over(ending)
    ensures Happens(permits, ending)
  {
    hide Reachable;
    assert 0 in With(s, c).calls;
  }

  lemma ReachJobStep(permits: nat, s: Pool, c: Call)
    requires Reachable(permits, With(s, c))
    requires c.pc.Await? || c.pc.Cancel? || c.pc.Arm? || (c.pc.Unwind? && c.release.Released?)
    ensures Reachable(permits, With(s, JobStep(c, s.newest, s.broken, s.shut)))
  {
    hide Reachable, JobStep;
    ReachAdvance(permits, s, c, s, JobStep(c, s.newest, s.broken, s.shut));
  }

  /** A job may outlast its caller's time. */
  lemma TimeoutHappens(permits: nat)
    requires permits >= 1
    ensures Happens(permits, TimedOut)
  {
    hide Reachable;
    var s := Init(permits).(sem := permits - 1, inUse := 1);
    ReachRunning(permits);
    var c := Waiting(Running(0));
    ReachJobStep(permits, s, c);
    ReachJobStep(permits, s, c.(pc := Cancel));
    ReachJobStep(permits, s, c.(pc := Arm));
    Witness(permits, s, c.(pc := Over(TimedOut), release := Armed), TimedOut);
  }

  /** A worker may die, and the executor be replaced. */
  lemma CrashHappens(permits: nat)
    requires permits >= 1
    ensures Happens(permits, PoolBroken)
    ensures exists s :: Reachable(permits, s) && s.newest == 1 && s.restarts == 1 && !s.overloaded && s.sem == permits
  {
    hide Reachable;
    var b := Init(permits).(sem := permits - 1, inUse := 1, broken := {0});
    var d := Waiting(Finished(Crash));
    ReachCrashed(permits);
    ReachRepaired(permits, b, d);
    var t := b.(overloaded := true, lastWriter := Repairer(0), shut := {0}, newest := 1, restarts := 1);
    ReachLeft(permits, t, Finished(Crash), PoolBroken);
    var u := t.(sem := permits, inUse := 0, overloaded := false, lastWriter := Releaser(0));
    var o := Call(Over(PoolBroken), NoSlot, Finished(Crash), Released, 1, 1);
    Witness(permits, u, o, PoolBroken);
    assert With(u, o).newest == 1;
  }

  lemma ReachCrashed(permits: nat)
    requires permits >= 1
    ensures var b := Init(permits).(sem := permits - 1, inUse := 1, broken := {0});
            Reachable(permits, With(b, Waiting(Finished(Crash)).(pc := RepairLock)))
  {
    hide Reachable;
    var s := Init(permits).(sem := permits - 1, inUse := 1);
    ReachRunning(permits);
    var c := Waiting(Running(0));
    ReachNext(permits, With(s, c), Break(0));
    var b := s.(broken := {0});
    assert Do(With(s, c), Break(0)) == With(b, c);
    ReachNext(permits, With(b, c), EndJob(0, Crash));
    var d := Waiting(Finished(Crash));
    assert Do(With(b, c), EndJob(0, Crash)) == With(b, d);
    ReachAdvance(permits, b, d, b, d.(pc := RepairLock));
  }

  lemma ReachRepaired(permits: nat, b: Pool, d: Call)
    requires b == Init(permits).(sem := b.sem, inUse := 1, broken := {0}) && d == Waiting(Finished(Crash))
    requires Reachable(permits, With(b, d.(pc := RepairLock)))
    ensures var t := b.(overloaded := true, lastWriter := Repairer(0), shut := {0}, newest := 1, restarts := 1);
            Reachable(permits, With(t, d.(pc := Unwind(PoolBroken), release := Discounting)))
  {
    hide Reachable;
    var l := b.(lock := HeldByCall(0));
    ReachAdvance(permits, b, d.(pc := RepairLock), l, d.(pc := RepairCheck));
    ReachAdvance(permits, l, d.(pc := RepairCheck), l, d.(pc := RepairMark));
    var m := l.(overloaded := true, lastWriter := Repairer(0));
    ReachAdvance(permits, l, d.(pc := RepairMark), m, d.(pc := RepairShut));
    var t := m.(shut := {0});
    assert {} + {0} == {0};
    ReachAdvance(permits, m, d.(pc := RepairShut), t, d.(pc := RepairSpawn));
    ReachSpawned(permits, t, d);
  }

  lemma ReachSpawned(permits: nat, t: Pool, d: Call)
    requires t.newest == 0 && t.restarts == 0 && t.lock == HeldByCall(0) && d == Waiting(Finished(Crash))
    requires Reachable(permits, With(t, d.(pc := RepairSpawn)))
    ensures var u := t.(newest := 1, restarts := 1, lock := Free);
            Reachable(permits, With(u, d.(pc := Unwind(PoolBroken), release := Discounting)))
  {
    hide Reachable;
    ReachAdvance(permits, t, d.(pc := RepairSpawn), t.(newest := 1), d.(pc := RepairCount));
    ReachRestarted(permits, t.(newest := 1), d);
  }

  lemma ReachRestarted(permits: nat, t: Pool, d: Call)
    requires t.restarts == 0 && t.lock == HeldByCall(0) && d == Waiting(Finished(Crash))
    requires Reachable(permits, With(t, d.(pc := RepairCount)))
    ensures var u := t.(restarts := 1, lock := Free);
            Reachable(permits, With(u, d.(pc := Unwind(PoolBroken), release := Discounting)))
  {
    hide Reachable;
    var u := t.(restarts := 1, lock := Free);
    ReachAdvance(permits, t, d.(pc := RepairCount), u, d.(pc := Unwind(PoolBroken), release := Discounting));
  }

  /** A call may come to a closed pool. */
  lemma CloseHappens(permits: nat)
    ensures Happens(permits, PoolShut)
  {
    hide Reachable;
    var s := Init(permits);
    ReachInit(permits);
    ReachNext(permits, s, BeginClose(0));
    var s1 := Do(s, BeginClose(0));
    ReachNext(permits, s1, AdvanceClose(0));
    var s2 := Do(s1, AdvanceClose(0));
    ReachNext(permits, s2, AdvanceClose(0));
    var s3 := Do(s2, AdvanceClose(0));
    ReachNext(permits, s3, AdvanceClose(0));
    var s4 := Do(s3, AdvanceClose(0));
    ReachComes(permits, s4);
  }

  lemma ReachComes(permits: nat, s: Pool)
    requires Reachable(permits, s) && s.closed && s.calls == map[]
    ensures Happens(permits, PoolShut)
  {
    hide Reachable;
    ReachNext(permits, s, Begin(0));
    assert Do(s, Begin(0)) == With(s, NEW_CALL);
    ReachAdvance(permits, s, NEW_CALL, s, NEW_CALL.(pc := Over(PoolShut)));
    Witness(permits, s, NEW_CALL.(pc := Over(PoolShut)), PoolShut);
  }

  /** A call that has a permit, and calls 0..k that do. */
  const HOLDER := NEW_CALL.(pc := CountFast, slot := Uncounted, acquires := 1)

  function Holders(k: nat): map<nat, Call> {
    if k == 0 then map[] else Holders(k - 1)[k - 1 := HOLDER]
  }

  lemma {:induction false} HoldersBelow(k: nat)
    ensures forall r :: r in Holders(k) ==> r < k
  {
    if k > 0 {
      HoldersBelow(k - 1);
    }
  }

  lemma {:induction false} ReachHolders(permits: nat, k: nat)
    requires k <= permits
    ensures Reachable(permits, Init(permits).(sem := permits - k, calls := Holders(k)))
  {
    hide Reachable;
    if k == 0 {
      ReachInit(permits);
    } else {
      ReachHolders(permits, k - 1);
      HoldersBelow(k - 1);
      ReachHolder(permits, Init(permits).(sem := permits - (k - 1), calls := Holders(k - 1)), k - 1);
    }
  }

  lemma ReachHolder(permits: nat, s: Pool, r: nat)
    requires Reachable(permits, s) && r !in s.calls && !s.closed && s.sem > 0
    ensures Reachable(permits, s.(sem := s.sem - 1, calls := s.calls[r := HOLDER]))
  {
    hide Reachable;
    ReachNext(permits, s, Begin(r));
    var t := Do(s, Begin(r));
    ReachNext(permits, t, Advance(r));
    t := Do(t, Advance(r));
    ReachNext(permits, t, Advance(r));
    assert s.calls[r := NEW_CALL][r := NEW_CALL.(pc := TryPermit)][r := HOLDER] == s.calls[r := HOLDER];
  }

  /** Without a permit a call may be turned away. */
  lemma OverloadHappens(permits: nat)
    ensures Happens(permits, Overloaded)
  {
    hide Reachable;
    var s := Init(permits).(sem := 0, calls := Holders(permits));
    ReachHolders(permits, permits);
    HoldersBelow(permits);
    ReachNext(permits, s, Begin(permits));
    ReachTurnedAway(permits, Do(s, Begin(permits)), permits);
  }

  lemma ReachTurnedAway(permits: nat, s: Pool, r: nat)
    requires Reachable(permits, s) && r in s.calls && s.calls[r] == NEW_CALL && !s.closed && s.sem == 0
    ensures Happens(permits, Overloaded)
  {
    hide Reachable;
    var t := s;
    ReachNext(permits, t, Advance(r));
    t := Do(t, Advance(r));
    ReachNext(permits, t, Advance(r));
    t := Do(t, Advance(r));
    ReachNext(permits, t, Advance(r));
    t := Do(t, Advance(r));
    ReachNext(permits, t, Advance(r));
    t := Do(t, Advance(r));
    ReachDelisted(permits, t, r);
  }

  lemma ReachDelisted(permits: nat, s: Pool, r: nat)
    requires Reachable(permits, s) && r in s.calls && s.calls[r].pc.Block? && s.sem == 0
    ensures Happens(permits, Overloaded)
  {
    hide Reachable;
    var t := s;
    ReachNext(permits, t, Advance(r));
    t := Do(t, Advance(r));
    ReachNext(permits, t, Advance(r));
    t := Do(t, Advance(r));
    ReachNext(permits, t, Advance(r));
    t := Do(t, Advance(r));
    assert t.calls[r].pc == Over(Overloaded);
  }

  /** Every ending does happen. */
  lemma EveryEndingHappens(permits: nat, ending: Ending)
    requires permits >= 1
    ensures Happens(permits, ending)
  {
    hide Happens;
    match ending
    case Answered => JobEnds(permits, Value, Answered);
    case JobFailed => JobEnds(permits, Error, JobFailed);
    case TimedOut => TimeoutHappens(permits);
    case Overloaded => OverloadHappens(permits);
    case PoolBroken => CrashHappens(permits);
    case PoolShut => CloseHappens(permits);
  }
}
