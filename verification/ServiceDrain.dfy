/**
 The instance cannot get stuck and it drains: as long as a request is not gone
 the instance can proceed, even if no timeout ever fires; every step of what is
 in it brings the end nearer; and at the end all that was lent is back.
 */
module ServiceDrain {
  import opened ByteStrings
  import opened BufferPool
  import opened Counting
  import opened ServiceProtocol
  import opened ServiceInvariants
  import opened ServiceSafety
  import PoolProtocol
  import PoolInvariants
  import PoolSafety
  import PoolDrain

  /** Steps of what is already in the instance: no arrivals, no crashes, no closes. */
  predicate Internal(step: Step) {
    if step.Thread? then PoolDrain.Internal(step.step)
    else !step.Arrive? && (step.Receive? ==> step.data != [])
  }

  /** An internal step by which a request gets on: it is neither timed out nor refused. */
  predicate Proceeds(s: Service, step: Step) {
    && Internal(step) && !step.DoorExpire? && !step.AdmitExpire? && !step.Refuse?
    && (step.Finish? && step.r in s.requests ==> !s.requests[step.r].Reading?)
  }

  // Progress.

  /** As long as a request is not gone some request can proceed: door, gate, buffers and pool never deadlock. */
  lemma NeverStuck(doorLimit: nat, capacity: nat, maxUpload: nat, run: seq<Service>, i: nat, r: nat)
    returns (step: Step)
    requires IsRun(doorLimit, capacity, maxUpload, run) && i < |run| && doorLimit >= 1 && capacity >= 1
    requires r in run[i].requests && !run[i].requests[r].Gone?
    ensures Proceeds(run[i], step) && Enabled(run[i], step)
  {
    RunKeepsInv(doorLimit, capacity, maxUpload, run, i);
    step := NextStep(run[i], r);
  }

  lemma NextStep(s: Service, r: nat) returns (step: Step)
    requires Inv(s) && s.doorLimit >= 1 && s.capacity >= 1 && r in s.requests && !s.requests[r].Gone?
    ensures Proceeds(s, step) && Enabled(s, step)
  {
    hide BuffersOk, CallsLinked, NobodyQueues, FlagOk, PoolInvariants.Inv;
    if s.loop {
      var q :| q in s.requests && s.requests[q].Marking?;
      step := Mark(q);
    } else if s.requests[r].AtDoor? {
      step := DoorTry(r);
    } else if s.requests[r].DoorQueued? && s.door > 0 {
      step := DoorGrant(r);
    } else if s.requests[r].DoorQueued? {
      CountSome(s.requests, HoldsDoor);
      var q :| q in s.requests && HoldsDoor(s.requests[q]);
      step := InsideStep(s, q);
    } else {
      step := InsideStep(s, r);
    }
  }

  /** A request past the door can proceed, or one ahead of it at the gate can. */
  lemma InsideStep(s: Service, r: nat) returns (step: Step)
    requires Inv(s) && !s.loop && s.capacity >= 1 && r in s.requests && HoldsDoor(s.requests[r])
    ensures Proceeds(s, step) && Enabled(s, step)
  {
    hide BuffersOk, CallsLinked, NobodyQueues, FlagOk, PoolInvariants.Inv;
    if s.requests[r].AdmitQueued? && s.admission > 0 {
      step := AdmitGrant(r);
    } else if s.requests[r].AdmitQueued? {
      CountSome(s.requests, HoldsAdmission);
      var q :| q in s.requests && HoldsAdmission(s.requests[q]);
      step := AdmittedStep(s, q);
    } else if HoldsAdmission(s.requests[r]) {
      step := AdmittedStep(s, r);
    } else {
      match s.requests[r]
      case DoorGranted => step := DoorResume(r);
      case Inside => step := AdmitTry(r);
      case Leaving => step := Leave(r);
      case Marking(_) => step := Mark(r);
    }
  }

  lemma AdmittedStep(s: Service, r: nat) returns (step: Step)
    requires Inv(s) && !s.loop && r in s.requests && HoldsAdmission(s.requests[r])
    ensures Proceeds(s, step) && Enabled(s, step)
  {
    hide Balanced, BuffersOk, LoopOk, NobodyQueues, FlagOk, PoolInvariants.Inv;
    if s.requests[r].AdmitGranted? {
      step := AdmitResume(r);
    } else if s.requests[r].Reading? {
      step := Extract(r);
    } else if s.pool.calls[r].pc.Over? {
      step := Finish(r);
    } else {
      assert !PoolSafety.Settled(s.pool.calls[r]);
      var move := PoolDrain.NeverStuck(s.pool);
      step := Thread(move);
    }
  }

  // Work left.

  /** How many bytes the buffer may still take. */
  function Room(memory: map<nat, Bytes>, b: nat, maxUpload: nat): nat {
    if b in memory && |memory[b]| <= maxUpload then maxUpload - |memory[b]| else 0
  }

  /** An upper bound on the steps a request still takes on its own. */
  function Load(q: Request, memory: map<nat, Bytes>, maxUpload: nat): nat {
    match q
    case AtDoor => 33 + maxUpload
    case DoorQueued => 32 + maxUpload
    case DoorGranted => 31 + maxUpload
    case Inside => 30 + maxUpload
    case AdmitQueued(_) => 29 + maxUpload
    case AdmitGranted(_) => 28 + maxUpload
    case Starved => 27 + maxUpload
    case Reading(b) => 27 + Room(memory, b, maxUpload)  // more than the call it will start
    case Extracting(_) => 3
    case Marking(_) => 2
    case Leaving => 1
    case Gone => 0
  }

  ghost function Loads(s: Service): map<nat, nat> {
    map r | r in s.requests :: Load(s.requests[r], s.memory, s.maxUpload)
  }

  function Same(n: nat): nat {
    n
  }

  /** What is left to do in the instance. */
  ghost function Work(s: Service): nat {
    Total(Loads(s), Same) + PoolDrain.Work(s.pool)
  }

  /** The step of one request leaves the buffers of the others as they are. */
  lemma SparesOthers(s: Service, step: Step, q: nat)
    requires Unshared(s) && ShelfOk(s) && MemoryOk(s) && Enabled(s, step) && !step.Thread?
    requires q in s.requests && s.requests[q].Reading? && q != step.r
    ensures var b := s.requests[q].buffer;
            b in s.memory && b in Do(s, step).memory && Do(s, step).memory[b] == s.memory[b]
  {
    InBorrowed(s, q);
    if !Exhausted(s.shelf, s.capacity) {
      LendsTheUnheld(s.shelf, s.capacity, Borrowed(s));
    }
    hide Sound, Borrowed, DoorFree, AdmissionFree, Exhausted, Lent, AfterLoan, AfterReturn, PoolProtocol.Do;
  }

  /** Only the load of the step's own request changes. */
  lemma OneLoadChanges(s: Service, step: Step)
    requires Unshared(s) && ShelfOk(s) && MemoryOk(s) && Enabled(s, step) && !step.Thread?
    ensures var s', r := Do(s, step), step.r;
            r in s'.requests && Loads(s') == Loads(s)[r := Load(s'.requests[r], s'.memory, s'.maxUpload)]
  {
    hide Do, Enabled, Unshared, ShelfOk, MemoryOk;
    var s', r := Do(s, step), step.r;
    StepShape(s, step);
    assert r in s.requests || !step.Receive? by { ReceiversExist(s, step); }
    forall q | q in s.requests && q != r
      ensures Load(s'.requests[q], s'.memory, s'.maxUpload) == Load(s.requests[q], s.memory, s.maxUpload)
    {
      if s.requests[q].Reading? {
        SparesOthers(s, step, q);
      }
    }
    assert Loads(s').Keys == s.requests.Keys + {r};
  }

  lemma ReceiversExist(s: Service, step: Step)
    requires Enabled(s, step)
    ensures step.Receive? ==> step.r in s.requests
  {
  }

  /** What the step adds to the work of the pool. */
  function NewCallWeight(step: Step): nat {
    if step.Extract? then PoolDrain.Weight(PoolProtocol.NEW_CALL) else 0
  }

  /** It goes down, and by more than a call weighs if the request starts one. */
  lemma StepLowersLoad(s: Service, step: Step)
    requires Enabled(s, step) && Internal(step) && !step.Thread?
    ensures var s', r := Do(s, step), step.r;
            && r in s.requests && r in s'.requests
            && Load(s'.requests[r], s'.memory, s'.maxUpload) + NewCallWeight(step)
               < Load(s.requests[r], s.memory, s.maxUpload)
  {
    hide DoorFree, AdmissionFree, Exhausted, Lent, AfterLoan, AfterReturn, PoolProtocol.Do, PoolProtocol.Enabled;
  }

  lemma StepAndPoolWork(s: Service, step: Step)
    requires NoneStarved(s) && Enabled(s, step) && !step.Thread?
    ensures PoolDrain.Work(Do(s, step).pool) ==
            PoolDrain.Work(s.pool) + NewCallWeight(step)
  {
    hide DoorFree, AdmissionFree, Exhausted, Lent, AfterLoan, AfterReturn, PoolDrain.Weight;
    if step.Extract? {
      TotalInsert(s.pool.calls, step.r, PoolProtocol.NEW_CALL, PoolDrain.Weight);
    }
  }

  /** Every internal step leaves strictly less work. */
  lemma StepLowersWork(s: Service, step: Step)
    requires Inv(s) && Enabled(s, step) && Internal(step)
    ensures Work(Do(s, step)) < Work(s)
  {
    hide Do, Enabled, Balanced, Unshared, ShelfOk, MemoryOk, CallsLinked, LoopOk, PoolInvariants.Inv;
    hide Load, NewCallWeight, PoolDrain.Work, Internal, FlagOk, NobodyQueues;
    if step.Thread? {
      ThreadLowersWork(s, step.step);
    } else {
      OneLoadChanges(s, step);
      StepLowersLoad(s, step);
      StepAndPoolWork(s, step);
      var s', r := Do(s, step), step.r;
      TotalUpdate(Loads(s), r, Load(s'.requests[r], s'.memory, s'.maxUpload), Same);
    }
  }

  lemma ThreadLowersWork(s: Service, p: PoolProtocol.Step)
    requires PoolInvariants.Inv(s.pool) && Enabled(s, Thread(p)) && Internal(Thread(p))
    ensures Work(Do(s, Thread(p))) < Work(s)
  {
    hide PoolProtocol.Do, PoolProtocol.Enabled, PoolInvariants.Inv, PoolDrain.Work;
    PoolDrain.StepLightens(s.pool, p);
    assert Loads(Do(s, Thread(p))) == Loads(s);
  }

  // Draining.

  ghost predicate InternalNext(s: Service, s': Service) {
    exists step :: Internal(step) && Enabled(s, step) && s' == Do(s, step)
  }

  /** States one internal step apart. */
  ghost predicate InternalRun(run: seq<Service>) {
    run != [] && forall i :: 0 < i < |run| ==> InternalNext(run[i - 1], run[i])
  }

  ghost predicate SameLimits(s: Service, t: Service) {
    s.doorLimit == t.doorLimit && s.capacity == t.capacity
  }

  lemma {:induction false} InternalRunsEnd(run: seq<Service>)
    requires InternalRun(run) && Inv(run[0])
    ensures var last := run[|run| - 1];
            Inv(last) && SameLimits(last, run[0]) && Work(last) + |run| - 1 <= Work(run[0])
    decreases |run|
  {
    hide Inv, Work, Do, Enabled, Internal;
    if |run| > 1 {
      var before, i := run[..|run| - 1], |run| - 1;
      assert InternalRun(before);
      InternalRunsEnd(before);
      assert InternalNext(run[i - 1], run[i]);
      var step :| Internal(step) && Enabled(run[i - 1], step) && run[i] == Do(run[i - 1], step);
      StepKeepsInv(run[i - 1], step);
      StepShape(run[i - 1], step);
      StepLowersWork(run[i - 1], step);
    }
  }

  /** Nothing in the instance can proceed. */
  ghost predicate AtRest(s: Service) {
    forall step :: Proceeds(s, step) ==> !Enabled(s, step)
  }

  /**
   Without arrivals, crashes and closes, every continuation of every run takes no
   more steps than there is work; and when nothing can proceed any more, whether
   or not timeouts ever fired, all requests are gone, all slots, buffers and
   permits are back, and, with the door no wider than the gate, the instance is
   ready.
   */
  lemma InstanceDrains(
    doorLimit: nat, capacity: nat, maxUpload: nat, run: seq<Service>, i: nat, after: seq<Service>)
    requires IsRun(doorLimit, capacity, maxUpload, run) && i < |run| && doorLimit >= 1 && capacity >= 1
    requires InternalRun(after) && after[0] == run[i]
    ensures |after| - 1 <= Work(run[i])
    ensures var last := after[|after| - 1];
            AtRest(last) ==>
              && AllGone(last) && Returned(last) && last.door == doorLimit && last.admission == capacity
              && PoolSafety.Quiescent(last.pool) && last.pool.sem == capacity
              && last.pool.inUse == 0 && last.pool.waiting == 0
              && (doorLimit <= capacity ==> !last.pool.overloaded)
  {
    hide Inv, Work, AtRest;
    RunKeepsInv(doorLimit, capacity, maxUpload, run, i);
    InternalRunsEnd(after);
    var last := after[|after| - 1];
    if AtRest(last) {
      RestMeansGone(last);
      GoneMeansReturned(last);
      RestMeansQuiescent(last);
      if doorLimit <= capacity {
        GoneMeansReady(last);
      }
    }
  }

  lemma RestMeansGone(s: Service)
    requires Inv(s) && AtRest(s) && s.doorLimit >= 1 && s.capacity >= 1
    ensures AllGone(s)
  {
    hide Inv, Enabled, Proceeds;
    forall r | r in s.requests ensures s.requests[r].Gone? {
      if !s.requests[r].Gone? {
        var step := NextStep(s, r);
      }
    }
  }

  lemma RestMeansQuiescent(s: Service)
    requires Inv(s) && AtRest(s)
    ensures PoolSafety.Quiescent(s.pool) && s.pool.sem == s.capacity && s.pool.inUse == 0 && s.pool.waiting == 0
  {
    hide Balanced, BuffersOk, LoopOk, NobodyQueues, FlagOk, PoolInvariants.Inv;
    forall r | r in s.pool.calls ensures PoolSafety.Settled(s.pool.calls[r]) {
      if !PoolSafety.Settled(s.pool.calls[r]) {
        var step := UnsettledStep(s, r);
      }
    }
    PoolSafety.QuiescentGate(s.pool);
  }

  lemma UnsettledStep(s: Service, r: nat) returns (step: Step)
    requires PoolInvariants.Inv(s.pool) && r in s.pool.calls && !PoolSafety.Settled(s.pool.calls[r])
    ensures Proceeds(s, step) && Enabled(s, step)
  {
    var move := PoolDrain.NeverStuck(s.pool);
    step := Thread(move);
  }

  lemma GoneMeansReady(s: Service)
    requires Inv(s) && AllGone(s) && s.doorLimit <= s.capacity
    ensures !s.pool.overloaded
  {
    CountSome(s.requests, IsAdmitted);
  }
}
