/** What can happen once the door is wider than the gate: runs that show it. */
module ServiceCrowds {
  import opened ByteStrings
  import opened BufferPool
  import opened ServiceProtocol
  import opened ServiceInvariants
  import Counting
  import ServiceSafety
  import PoolProtocol
  import PoolInvariants

  /** How an instance is configured. */
  datatype Config = Config(doorLimit: nat, capacity: nat, maxUpload: nat)

  ghost predicate Reachable(f: Config, s: Service) {
    exists run :: IsRun(f.doorLimit, f.capacity, f.maxUpload, run) && run[|run| - 1] == s
  }

  lemma ReachStart(f: Config)
    ensures Reachable(f, Init(f.doorLimit, f.capacity, f.maxUpload))
  {
    var s := Init(f.doorLimit, f.capacity, f.maxUpload);
    assert IsRun(f.doorLimit, f.capacity, f.maxUpload, [s]) && [s][|[s]| - 1] == s;
  }

  lemma ReachNext(f: Config, s: Service, step: Step)
    requires Reachable(f, s) && Enabled(s, step)
    ensures Reachable(f, Do(s, step))
  {
    hide Enabled, Do, Init;
    var run :| IsRun(f.doorLimit, f.capacity, f.maxUpload, run) && run[|run| - 1] == s;
    var longer := run + [Do(s, step)];
    assert Next(s, Do(s, step));
    assert IsRun(f.doorLimit, f.capacity, f.maxUpload, longer) && longer[|longer| - 1] == Do(s, step);
  }

  lemma ReachableInv(f: Config, s: Service)
    requires Reachable(f, s)
    ensures Inv(s) && s.doorLimit == f.doorLimit && s.capacity == f.capacity
  {
    var run :| IsRun(f.doorLimit, f.capacity, f.maxUpload, run) && run[|run| - 1] == s;
    ServiceSafety.RunKeepsInv(f.doorLimit, f.capacity, f.maxUpload, run, |run| - 1);
  }

  // Queueing at the gate.

  /** Requests 0..k are reading their bodies, each into its own buffer; nothing else is going on. */
  ghost function Full(f: Config, k: nat): Service
    requires k <= f.doorLimit && k <= f.capacity
  {
    Service(f.doorLimit, f.capacity, f.maxUpload, f.doorLimit - k, f.capacity - k, k, 0, Shelf([], k),
            EmptyBuffers(k), map r: nat | r < k :: Reading(r), false, PoolProtocol.Init(f.capacity))
  }

  /** Buffers 0..k, all empty. */
  function EmptyBuffers(k: nat): map<nat, Bytes> {
    if k == 0 then map[] else EmptyBuffers(k - 1)[k - 1 := []]
  }

  /** A newcomer passes the door, and the gate if nobody queues there. */
  lemma ReachArrival(f: Config, s: Service, r: nat)
    requires Reachable(f, s) && r !in s.requests && !s.loop && DoorFree(s)
    ensures var t := Put(s, r, Inside).(door := s.door - 1);
            Enabled(t, AdmitTry(r)) && Reachable(f, Do(t, AdmitTry(r)))
  {
    hide Reachable;
    var t := Do(s, Arrive(r));
    ReachNext(f, s, Arrive(r));
    assert DoorFree(t);
    ReachNext(f, t, DoorTry(r));
    assert t.requests[r := Inside] == s.requests[r := Inside];
    ReachNext(f, Do(t, DoorTry(r)), AdmitTry(r));
  }

  lemma {:induction false} ReachFull(f: Config, k: nat)
    requires k <= f.doorLimit && k <= f.capacity
    ensures Reachable(f, Full(f, k))
  {
    hide Reachable;
    if k == 0 {
      ReachStart(f);
      assert Full(f, 0) == Init(f.doorLimit, f.capacity, f.maxUpload);
    } else {
      var s := Full(f, k - 1);
      ReachFull(f, k - 1);
      ReachArrival(f, s, k - 1);
      FullGrows(f, k);
    }
  }

  lemma FullGrows(f: Config, k: nat)
    requires 0 < k <= f.doorLimit && k <= f.capacity
    ensures var s := Full(f, k - 1);
            Do(Put(s, k - 1, Inside).(door := s.door - 1), AdmitTry(k - 1)) == Full(f, k)
  {
    hide AdmissionFree, TryAdmission;
    var s := Full(f, k - 1);
    FullIsFree(f, k);
    FullMaps(f, k);
    NextBuffer(Put(s, k - 1, Inside).(door := s.door - 1), k - 1);
  }

  lemma FullIsFree(f: Config, k: nat)
    requires 0 < k <= f.doorLimit && k <= f.capacity
    ensures AdmissionFree(Put(Full(f, k - 1), k - 1, Inside).(door := f.doorLimit - k))
  {
  }

  lemma FullMaps(f: Config, k: nat)
    requires 0 < k <= f.doorLimit && k <= f.capacity
    ensures Full(f, k - 1).requests[k - 1 := Inside][k - 1 := Reading(k - 1)] == Full(f, k).requests
    ensures Full(f, k - 1).memory[k - 1 := []] == Full(f, k).memory
  {
  }

  /** With every buffer created on loan, the newly admitted request gets a new one. */
  lemma NextBuffer(s: Service, r: nat)
    requires AdmissionFree(s) && s.shelf.free == [] && s.shelf.created < s.capacity
    ensures var b := s.shelf.created;
            TryAdmission(s, r, s.inUse >= s.capacity) ==
            s.(admission := s.admission - 1, inUse := s.inUse + 1, shelf := Shelf([], b + 1),
               requests := s.requests[r := Reading(b)], memory := s.memory[b := []])
  {
    hide AdmissionFree;
  }

  ghost predicate SomeoneQueues(s: Service) {
    exists r :: r in s.requests && InAdmitQueue(s.requests[r])
  }

  /** Requests may queue at the gate exactly when the door is wider than the gate. */
  lemma QueuesOnlyBehindWiderDoor(f: Config)
    ensures (exists s :: Reachable(f, s) && SomeoneQueues(s)) <==> f.doorLimit > f.capacity
  {
    if f.doorLimit > f.capacity {
      var s := Full(f, f.capacity);
      ReachFull(f, f.capacity);
      ReachArrival(f, s, f.capacity);
      var t := Put(s, f.capacity, Inside).(door := s.door - 1);
      assert InAdmitQueue(Do(t, AdmitTry(f.capacity)).requests[f.capacity]);
      assert SomeoneQueues(Do(t, AdmitTry(f.capacity)));
    } else if s :| Reachable(f, s) && SomeoneQueues(s) {
      ReachableInv(f, s);
    }
  }

  // Turned away at the door.

  /** Requests 0..k, all inside and none at the gate yet. */
  function Entered(k: nat): map<nat, Request> {
    if k == 0 then map[] else Entered(k - 1)[k - 1 := Inside]
  }

  lemma {:induction false} EnteredInside(k: nat)
    ensures forall r :: r in Entered(k) ==> r < k && Entered(k)[r].Inside?
  {
    if k > 0 {
      EnteredInside(k - 1);
    }
  }

  lemma {:induction false} ReachEntered(f: Config, k: nat)
    requires k <= f.doorLimit
    ensures var s := Init(f.doorLimit, f.capacity, f.maxUpload);
            Reachable(f, s.(door := f.doorLimit - k, requests := Entered(k)))
  {
    hide Reachable;
    var s := Init(f.doorLimit, f.capacity, f.maxUpload);
    if k == 0 {
      ReachStart(f);
    } else {
      ReachEntered(f, k - 1);
      EnteredInside(k - 1);
      ReachEntry(f, s.(door := f.doorLimit - (k - 1), requests := Entered(k - 1)), k - 1);
    }
  }

  lemma ReachEntry(f: Config, s: Service, r: nat)
    requires Reachable(f, s) && r !in s.requests && !s.loop && DoorFree(s)
    ensures Reachable(f, s.(door := s.door - 1, requests := s.requests[r := Inside]))
  {
    hide Reachable;
    var t := Do(s, Arrive(r));
    ReachNext(f, s, Arrive(r));
    assert DoorFree(t);
    ReachNext(f, t, DoorTry(r));
    assert t.requests[r := Inside] == s.requests[r := Inside];
  }

  /** With the door full a newcomer may wait in vain and be gone without having been inside. */
  lemma DoorTurnsAway(f: Config)
    ensures exists s :: Reachable(f, s) && s.door == 0 && f.doorLimit in s.requests && s.requests[f.doorLimit].Gone?
  {
    hide Reachable;
    var k := f.doorLimit;
    var s := Init(f.doorLimit, f.capacity, f.maxUpload).(door := 0, requests := Entered(k));
    ReachEntered(f, k);
    EnteredInside(k);
    ReachNext(f, s, Arrive(k));
    s := Do(s, Arrive(k));
    ReachNext(f, s, DoorTry(k));
    s := Do(s, DoorTry(k));
    ReachNext(f, s, DoorExpire(k));
    s := Do(s, DoorExpire(k));
  }

  // Not ready with nobody admitted.

  /** `/ready` would answer "not ready" though no request is at work or waiting for a slot. */
  ghost predicate NotReadyForNobody(s: Service) {
    s.pool.overloaded && !s.loop
    && forall r :: r in s.requests ==> !HoldsAdmission(s.requests[r]) && !InAdmitQueue(s.requests[r])
  }

  /** A call whose job runs on past its timeout. */
  const DEFERRED := PoolProtocol.Call(
    PoolProtocol.Over(PoolProtocol.TimedOut), PoolProtocol.Counted, PoolProtocol.Running(0), PoolProtocol.Armed, 1, 0)

  /** Calls 0..k, all deferred. */
  function Deferred(k: nat): map<nat, PoolProtocol.Call> {
    if k == 0 then map[] else Deferred(k - 1)[k - 1 := DEFERRED]
  }

  lemma {:induction false} DeferredCalls(k: nat)
    ensures forall r :: r in Deferred(k) <==> 0 <= r < k
    ensures forall r :: r in Deferred(k) ==> Deferred(k)[r] == DEFERRED
  {
    if k > 0 {
      DeferredCalls(k - 1);
    }
  }

  /** A call refused by a full gate. */
  const REFUSED := PoolProtocol.NEW_CALL.(pc := PoolProtocol.Over(PoolProtocol.Overloaded))

  /** The instance with its pool in state `p`, but for call `r`. */
  ghost function With(s: Service, p: PoolProtocol.Pool, r: nat, c: PoolProtocol.Call): Service {
    s.(pool := p.(calls := p.calls[r := c]))
  }

  lemma ReachPool(f: Config, s: Service, step: PoolProtocol.Step)
    requires Reachable(f, s) && PoolProtocol.Enabled(s.pool, step) && !step.Begin? && !step.MarkReady?
    ensures Reachable(f, s.(pool := PoolProtocol.Do(s.pool, step)))
  {
    hide Reachable, PoolProtocol.Do, PoolProtocol.Enabled;
    ReachNext(f, s, Thread(step));
  }

  /** One step of call `r`, which makes it `c'` and the rest of the pool `p'`. */
  lemma ReachAdvance(f: Config, s: Service, p: PoolProtocol.Pool, r: nat, c: PoolProtocol.Call,
                     p': PoolProtocol.Pool, c': PoolProtocol.Call)
    requires Reachable(f, With(s, p, r, c)) && PoolProtocol.CanAdvance(With(s, p, r, c).pool, c)
    requires p'.calls == p.calls
    requires var q := PoolProtocol.AdvanceCall(With(s, p, r, c).pool, r);
             r in q.calls && q.calls[r] == c' && q.(calls := p.calls) == p'
             && q.calls == p.calls[r := c][r := c']
    ensures Reachable(f, With(s, p', r, c'))
  {
    hide Reachable, PoolProtocol.CanAdvance, PoolProtocol.AdvanceCall;
    ReachPool(f, With(s, p, r, c), PoolProtocol.Advance(r));
    assert p.calls[r := c][r := c'] == p.calls[r := c'];
  }

  /** The pool is open and its first executor serves. */
  predicate Serves(p: PoolProtocol.Pool) {
    !p.closed && p.newest == 0 && p.shut == {} && p.broken == {}
  }

  lemma ReachCounted(f: Config, s: Service, p: PoolProtocol.Pool, r: nat)
    requires Reachable(f, With(s, p, r, PoolProtocol.NEW_CALL)) && Serves(p) && p.sem > 0
    ensures Reachable(f, With(s, p.(sem := p.sem - 1, inUse := p.inUse + 1), r,
                              PoolProtocol.Call(PoolProtocol.Grab, PoolProtocol.Counted, PoolProtocol.NoJob,
                                                PoolProtocol.Unreleased, 1, 0)))
  {
    hide Reachable;
    var c := PoolProtocol.NEW_CALL;
    var d := c.(pc := PoolProtocol.TryPermit);
    ReachAdvance(f, s, p, r, c, p, d);
    var e := d.(pc := PoolProtocol.CountFast, slot := PoolProtocol.Uncounted, acquires := 1);
    var q := p.(sem := p.sem - 1);
    ReachAdvance(f, s, p, r, d, q, e);
    ReachAdvance(f, s, q, r, e, q.(inUse := q.inUse + 1), e.(pc := PoolProtocol.Grab, slot := PoolProtocol.Counted));
  }

  /** A call whose job was submitted. */
  function Awaiting(job: PoolProtocol.Job): PoolProtocol.Call {
    PoolProtocol.Call(PoolProtocol.Await, PoolProtocol.Counted, job, PoolProtocol.Unreleased, 1, 0)
  }

  lemma ReachAwaiting(f: Config, s: Service, p: PoolProtocol.Pool, r: nat)
    requires Reachable(f, With(s, p, r, PoolProtocol.NEW_CALL)) && Serves(p) && p.sem > 0
    ensures Reachable(f, With(s, p.(sem := p.sem - 1, inUse := p.inUse + 1), r, Awaiting(PoolProtocol.Queued(0))))
  {
    hide Reachable;
    ReachCounted(f, s, p, r);
    var q := p.(sem := p.sem - 1, inUse := p.inUse + 1);
    var c := Awaiting(PoolProtocol.NoJob);
    ReachAdvance(f, s, q, r, c.(pc := PoolProtocol.Grab), q, c.(pc := PoolProtocol.Submit(0)));
    ReachAdvance(f, s, q, r, c.(pc := PoolProtocol.Submit(0)), q, Awaiting(PoolProtocol.Queued(0)));
  }

  lemma ReachRunning(f: Config, s: Service, p: PoolProtocol.Pool, r: nat)
    requires Reachable(f, With(s, p, r, Awaiting(PoolProtocol.Queued(0))))
    ensures Reachable(f, With(s, p, r, Awaiting(PoolProtocol.Running(0))))
  {
    hide Reachable;
    var c, d := Awaiting(PoolProtocol.Queued(0)), Awaiting(PoolProtocol.Running(0));
    ReachPool(f, With(s, p, r, c), PoolProtocol.StartJob(r));
    assert p.calls[r := c][r := d] == p.calls[r := d];
  }

  lemma ReachDeferred(f: Config, s: Service, p: PoolProtocol.Pool, r: nat)
    requires Reachable(f, With(s, p, r, PoolProtocol.NEW_CALL)) && Serves(p) && p.sem > 0
    ensures Reachable(f, With(s, p.(sem := p.sem - 1, inUse := p.inUse + 1), r, DEFERRED))
  {
    hide Reachable;
    var q := p.(sem := p.sem - 1, inUse := p.inUse + 1);
    ReachAwaiting(f, s, p, r);
    ReachRunning(f, s, q, r);
    ReachTimeout(f, s, q, r);
  }

  lemma ReachTimeout(f: Config, s: Service, p: PoolProtocol.Pool, r: nat)
    requires Reachable(f, With(s, p, r, Awaiting(PoolProtocol.Running(0))))
    ensures Reachable(f, With(s, p, r, DEFERRED))
  {
    hide Reachable, With;
    var c := Awaiting(PoolProtocol.Running(0));
    ReachJobStep(f, s, p, r, c);
    ReachJobStep(f, s, p, r, c.(pc := PoolProtocol.Cancel));
    ReachJobStep(f, s, p, r, c.(pc := PoolProtocol.Arm));
  }

  lemma ReachJobStep(f: Config, s: Service, p: PoolProtocol.Pool, r: nat, c: PoolProtocol.Call)
    requires Reachable(f, With(s, p, r, c)) && (c.pc.Await? || c.pc.Cancel? || c.pc.Arm?)
    ensures Reachable(f, With(s, p, r, PoolProtocol.JobStep(c, p.newest, p.broken, p.shut)))
  {
    hide Reachable, PoolProtocol.JobStep;
    ReachAdvance(f, s, p, r, c, p, PoolProtocol.JobStep(c, p.newest, p.broken, p.shut));
  }

  lemma ReachRefused(f: Config, s: Service, p: PoolProtocol.Pool, r: nat)
    requires Reachable(f, With(s, p, r, PoolProtocol.NEW_CALL)) && Serves(p) && p.sem == 0
    ensures Reachable(f, With(s, p.(overloaded := true, lastWriter := PoolProtocol.Lapsed(r)), r, REFUSED))
  {
    hide Reachable;
    var c := PoolProtocol.NEW_CALL;
    var q := p.(overloaded := true, lastWriter := PoolProtocol.Waiter(r));
    ReachBlocked(f, s, p, r);
    var w := q.(waiting := q.waiting + 1);
    ReachAdvance(f, s, w, r, c.(pc := PoolProtocol.Delist(false)), q, c.(pc := PoolProtocol.Lapse));
    var z := p.(overloaded := true, lastWriter := PoolProtocol.Lapsed(r));
    ReachAdvance(f, s, q, r, c.(pc := PoolProtocol.Lapse), z, REFUSED);
  }

  /** It waits in the queue for a permit until its time is up. */
  lemma ReachBlocked(f: Config, s: Service, p: PoolProtocol.Pool, r: nat)
    requires Reachable(f, With(s, p, r, PoolProtocol.NEW_CALL)) && Serves(p) && p.sem == 0
    ensures var w := p.(overloaded := true, lastWriter := PoolProtocol.Waiter(r), waiting := p.waiting + 1);
            Reachable(f, With(s, w, r, PoolProtocol.NEW_CALL.(pc := PoolProtocol.Delist(false))))
  {
    hide Reachable;
    var c := PoolProtocol.NEW_CALL;
    var q := p.(overloaded := true, lastWriter := PoolProtocol.Waiter(r));
    var w := q.(waiting := q.waiting + 1);
    ReachEnlisted(f, s, p, r);
    ReachAdvance(f, s, q, r, c.(pc := PoolProtocol.Enlist), w, c.(pc := PoolProtocol.Block));
    ReachAdvance(f, s, w, r, c.(pc := PoolProtocol.Block), w, c.(pc := PoolProtocol.Delist(false)));
  }

  lemma ReachEnlisted(f: Config, s: Service, p: PoolProtocol.Pool, r: nat)
    requires Reachable(f, With(s, p, r, PoolProtocol.NEW_CALL)) && Serves(p) && p.sem == 0
    ensures var q := p.(overloaded := true, lastWriter := PoolProtocol.Waiter(r));
            Reachable(f, With(s, q, r, PoolProtocol.NEW_CALL.(pc := PoolProtocol.Enlist)))
  {
    hide Reachable;
    var c := PoolProtocol.NEW_CALL;
    var q := p.(overloaded := true, lastWriter := PoolProtocol.Waiter(r));
    ReachAdvance(f, s, p, r, c, p, c.(pc := PoolProtocol.TryPermit));
    ReachAdvance(f, s, p, r, c.(pc := PoolProtocol.TryPermit), p, c.(pc := PoolProtocol.Signal));
    ReachAdvance(f, s, p, r, c.(pc := PoolProtocol.Signal), q, c.(pc := PoolProtocol.Enlist));
  }

  /** The full instance after the extractions of requests 0..k have timed out, their jobs running on. */
  ghost function Slow(f: Config, k: nat): Service
    requires k <= f.capacity <= f.doorLimit
  {
    Full(f, f.capacity).(
      requests := map r: nat | r < f.capacity :: SlowRequest(r, k),
      pool := PoolProtocol.Init(f.capacity).(sem := f.capacity - k, inUse := k, calls := Deferred(k)))
  }

  function SlowRequest(r: nat, k: nat): Request {
    if r < k then Extracting(r) else Reading(r)
  }

  lemma {:induction false} ReachSlow(f: Config, k: nat)
    requires k <= f.capacity <= f.doorLimit
    ensures Reachable(f, Slow(f, k))
  {
    hide Reachable;
    if k == 0 {
      ReachFull(f, f.capacity);
      assert Slow(f, 0).requests == Full(f, f.capacity).requests;
      assert Slow(f, 0).pool.calls == map[];
    } else {
      var s := Slow(f, k - 1);
      ReachSlow(f, k - 1);
      DeferredCalls(k - 1);
      ReachNext(f, s, Extract(k - 1));
      ReachDeferred(f, Put(s, k - 1, Extracting(k - 1)), s.pool, k - 1);
      assert s.requests[k - 1 := Extracting(k - 1)] == Slow(f, k).requests;
    }
  }

  /** An admitted request that has no call going on is done with, while another one waits. */
  lemma ReachOneLess(f: Config, s: Service, r: nat)
    requires Reachable(f, s) && !s.loop && s.waiting == 1 && r in s.requests && HasBuffer(s.requests[r])
    requires s.requests[r].Extracting? ==> r in s.pool.calls && s.pool.calls[r].pc.Over?
    ensures exists t :: OneLess(s, t, r) && Reachable(f, t)
  {
    hide Reachable, AfterReturn;
    ReachNext(f, s, Finish(r));
    var t := Do(s, Finish(r));
    ReachNext(f, t, Mark(r));
    assert OneLess(s, Do(t, Mark(r)), r);
  }

  ghost predicate OneLess(s: Service, t: Service, r: nat) {
    && t.pool == s.pool && !t.loop && t.waiting == s.waiting && t.admission == s.admission + 1
    && t.requests == s.requests[r := Leaving]
  }

  /**
   Everybody admitted leaves while one request, handed a slot but not yet
   resumed, runs out of time; nobody lowers the flag.
   */
  lemma {:induction false} ReachDeserted(f: Config, s: Service, w: nat)
    requires Reachable(f, s) && s.pool.overloaded && !s.loop && s.waiting == 1
    requires w in s.requests && s.requests[w] == AdmitGranted(true)
    requires forall r :: r in s.requests && r != w ==> !InAdmitQueue(s.requests[r])
    requires forall r :: r in s.pool.calls ==> s.pool.calls[r].pc.Over?
    ensures exists t :: Reachable(f, t) && NotReadyForNobody(t)
    decreases Counting.Count(s.requests, IsAdmitted)
  {
    hide Reachable, Balanced, BuffersOk, LoopOk, FlagOk, NobodyQueues, PoolInvariants.Inv, Do;
    ReachableInv(f, s);
    if r :| r in s.requests && IsAdmitted(s.requests[r]) {
      ReachOneLess(f, s, r);
      var t :| OneLess(s, t, r) && Reachable(f, t);
      Counting.CountUpdate(s.requests, r, Leaving, IsAdmitted);
      ReachDeserted(f, t, w);
    } else {
      ReachNext(f, s, AdmitExpire(w));
      Deserts(s, w);
    }
  }

  lemma Deserts(s: Service, w: nat)
    requires s.pool.overloaded && !s.loop && w in s.requests && s.requests[w] == AdmitGranted(true)
    requires forall r :: r in s.requests && r != w ==> !InAdmitQueue(s.requests[r]) && !IsAdmitted(s.requests[r])
    ensures NotReadyForNobody(Do(s, AdmitExpire(w)))
  {
  }

  /** One of the requests that timed out has left; its slot at the gate is free again. */
  lemma ReachRoom(f: Config) returns (s: Service)
    requires 1 <= f.capacity < f.doorLimit
    ensures Reachable(f, s) && !s.loop && s.door == f.doorLimit - f.capacity + 1 && s.admission == 1
    ensures s.inUse == f.capacity - 1 && s.waiting == 0 && s.shelf == Shelf([0], f.capacity)
    ensures s.capacity == f.capacity && s.requests == Slow(f, f.capacity).requests[0 := Gone]
    ensures s.pool.calls == Slow(f, f.capacity).pool.calls && s.pool.sem == 0 && Serves(s.pool)
  {
    hide Reachable;
    var n := f.capacity;
    s := Slow(f, n);
    ReachSlow(f, n);
    DeferredCalls(n);
    FirstFinished(f, s);
    s := Do(s, Finish(0));
    ReachLeft(f, s);
    var requests := s.requests;
    s := Do(Do(s, Mark(0)), Leave(0));
    assert s.requests == requests[0 := Leaving][0 := Gone];
  }

  lemma FirstFinished(f: Config, s: Service)
    requires 1 <= f.capacity < f.doorLimit && s == Slow(f, f.capacity) && Reachable(f, s)
    ensures Enabled(s, Finish(0)) && Reachable(f, Do(s, Finish(0)))
  {
    hide Reachable;
    DeferredCalls(f.capacity);
    ReachNext(f, s, Finish(0));
  }

  lemma ReachLeft(f: Config, s: Service)
    requires Reachable(f, s) && 0 in s.requests && s.requests[0].Marking? && s.loop
    ensures Enabled(s, Mark(0)) && Enabled(Do(s, Mark(0)), Leave(0)) && Reachable(f, Do(Do(s, Mark(0)), Leave(0)))
  {
    hide Reachable;
    ReachNext(f, s, Mark(0));
    ReachNext(f, Do(s, Mark(0)), Leave(0));
  }

  /** Another request takes that slot, finds the pool full and is refused. */
  lemma ReachLapse(f: Config) returns (s: Service)
    requires 1 <= f.capacity < f.doorLimit
    ensures Reachable(f, s) && !s.loop && s.door == f.doorLimit - f.capacity && s.admission == 0
    ensures s.inUse == s.capacity == f.capacity && s.waiting == 0
    ensures s.requests == Slow(f, f.capacity).requests[0 := Gone][f.capacity := Extracting(0)]
    ensures f.capacity in s.pool.calls
    ensures s.pool.overloaded && forall r :: r in s.pool.calls ==> s.pool.calls[r].pc.Over?
  {
    hide Reachable;
    var n := f.capacity;
    s := ReachRoom(f);
    DeferredCalls(n);
    ReachArrival(f, s, n);
    var t := Put(s, n, Inside).(door := s.door - 1);
    assert AdmissionFree(t);
    s := Do(t, AdmitTry(n));
    assert s.requests[n] == Reading(0);
    ReachNext(f, s, Extract(n));
    var u := s.(requests := s.requests[n := Extracting(0)]);
    ReachRefused(f, u, s.pool, n);
    s := With(u, s.pool.(overloaded := true, lastWriter := PoolProtocol.Lapsed(n)), n, REFUSED);
  }

  /**
   The instance can be "not ready" with nobody at work or waiting exactly when
   the door is wider than the gate: then the last one out may leave the flag
   raised for a waiter that was handed a slot and gives up.
   */
  lemma ReadinessNeedsNarrowDoor(f: Config)
    requires f.capacity >= 1
    ensures (exists s :: Reachable(f, s) && NotReadyForNobody(s)) <==> f.doorLimit > f.capacity
  {
    hide Reachable, NotReadyForNobody;
    if f.doorLimit > f.capacity {
      ReachNobody(f);
    } else if s :| Reachable(f, s) && NotReadyForNobody(s) {
      ReadyForNobody(f, s);
    }
  }

  lemma ReadyForNobody(f: Config, s: Service)
    requires Reachable(f, s) && f.doorLimit <= f.capacity
    ensures !NotReadyForNobody(s)
  {
    ReachableInv(f, s);
    Counting.CountSome(s.requests, IsAdmitted);
  }

  lemma ReachNobody(f: Config)
    requires 1 <= f.capacity < f.doorLimit
    ensures exists s :: Reachable(f, s) && NotReadyForNobody(s)
  {
    hide Reachable;
    var s := ReachLapse(f);
    var w := f.capacity + 1;
    ReachArrival(f, s, w);
    var t := Put(s, w, Inside).(door := s.door - 1);
    s := Do(t, AdmitTry(w));
    ReachOneLess(f, s, f.capacity);
    t :| OneLess(s, t, f.capacity) && Reachable(f, t);
    ReachNext(f, t, AdmitGrant(w));
    ReachDeserted(f, Do(t, AdmitGrant(w)), w);
  }
}
