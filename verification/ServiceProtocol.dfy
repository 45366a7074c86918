/**
 The whole instance as a transition system: requests at the front door, at the
 admission gate, reading into a pooled buffer, and in the extraction pool.

 One event loop runs the requests: their steps interleave where they await,
 never in between, except that the threads of the extraction pool go on between
 any two writes of the readiness flag. Waiting callers may be handed a slot they
 have not woken up to yet, and may time out before or after that.
 */
module ServiceProtocol {
  import opened ByteStrings
  import opened BufferPool
  import PoolProtocol

  /** Where a request is. `counted` tells whether `AdmissionGate.waiting` counts it. */
  datatype Request =
    | AtDoor
    | DoorQueued
    | DoorGranted  // handed a door slot, not yet resumed
    | Inside
    | AdmitQueued(counted: bool)
    | AdmitGranted(counted: bool)  // handed an admission slot, not yet resumed
    | Starved  // admitted, but no buffer was to be had
    | Reading(buffer: nat)
    | Extracting(buffer: nat)
    | Marking(idle: bool)  // past the release of its slot; the event loop is still its own
    | Leaving
    | Gone

  datatype Service = Service(
    doorLimit: nat,
    capacity: nat,
    maxUpload: nat,
    door: nat,  // value of the door's semaphore
    admission: nat,  // value of the admission semaphore
    inUse: int,
    waiting: int,
    shelf: Shelf<nat>,
    memory: map<nat, Bytes>,  // contents of the buffers created, lent or free
    requests: map<nat, Request>,
    loop: bool,  // a request is between two flag writes of one event-loop step
    pool: PoolProtocol.Pool)

  /** The wiring of the application: gate, buffers and pool share one capacity. */
  function Init(doorLimit: nat, capacity: nat, maxUpload: nat): Service {
    Service(doorLimit, capacity, maxUpload, doorLimit, capacity, 0, 0, Shelf([], 0), map[], map[], false,
            PoolProtocol.Init(capacity))
  }

  datatype Step =
    | Arrive(r: nat)
    | DoorTry(r: nat)
    | DoorGrant(r: nat)
    | DoorResume(r: nat)
    | DoorExpire(r: nat)
    | Refuse(r: nat)  // no boundary, or not an extraction at all
    | AdmitTry(r: nat)
    | AdmitGrant(r: nat)
    | AdmitResume(r: nat)
    | AdmitExpire(r: nat)
    | Starve(r: nat)
    | Receive(r: nat, data: Bytes)  // the reader appends file bytes to the sink
    | Extract(r: nat)  // the body is framed; the extraction starts on a thread
    | Finish(r: nat)  // the body was refused, or the extraction has ended
    | Mark(r: nat)
    | Leave(r: nat)
    | Thread(step: PoolProtocol.Step)

  function Subject(step: Step): nat
    requires !step.Thread?
  {
    step.r
  }

  predicate HasBuffer(q: Request) {
    q.Reading? || q.Extracting?
  }

  /** Holds one of the admission gate's counted slots. */
  predicate IsAdmitted(q: Request) {
    q.Starved? || HasBuffer(q)
  }

  /** Has taken an admission slot off the semaphore. */
  predicate HoldsAdmission(q: Request) {
    q.AdmitGranted? || IsAdmitted(q)
  }

  predicate HoldsDoor(q: Request) {
    !q.AtDoor? && !q.DoorQueued? && !q.Gone?
  }

  predicate InDoorQueue(q: Request) {
    q.DoorQueued? || q.DoorGranted?
  }

  predicate InAdmitQueue(q: Request) {
    q.AdmitQueued? || q.AdmitGranted?
  }

  predicate IsCountedWaiter(q: Request) {
    InAdmitQueue(q) && q.counted
  }

  /** A semaphore lets a newcomer through at once only if nobody is ahead of it. */
  ghost predicate DoorFree(s: Service) {
    s.door > 0 && forall r :: r in s.requests ==> !InDoorQueue(s.requests[r])
  }

  ghost predicate AdmissionFree(s: Service) {
    s.admission > 0 && forall r :: r in s.requests ==> !InAdmitQueue(s.requests[r])
  }

  /** The steps the event loop takes on its own initiative. */
  predicate StartsLoopStep(step: Step) {
    !step.Thread? && !step.Arrive? && !step.Starve? && !step.Mark?
  }

  ghost predicate Enabled(s: Service, step: Step) {
    && (StartsLoopStep(step) ==> !s.loop)
    && (!step.Thread? && !step.Arrive? ==> step.r in s.requests)
    && match step
       case Arrive(r) => r !in s.requests
       case DoorTry(r) => s.requests[r].AtDoor?
       case DoorGrant(r) => s.requests[r].DoorQueued? && s.door > 0
       case DoorResume(r) => s.requests[r].DoorGranted?
       case DoorExpire(r) => InDoorQueue(s.requests[r])
       case Refuse(r) => s.requests[r].Inside?
       case AdmitTry(r) => s.requests[r].Inside?
       case AdmitGrant(r) => s.requests[r].AdmitQueued? && s.admission > 0
       case AdmitResume(r) => s.requests[r].AdmitGranted?
       case AdmitExpire(r) => InAdmitQueue(s.requests[r])
       case Starve(r) => s.requests[r].Starved?
       case Receive(r, data) =>
         && s.requests[r].Reading? && s.requests[r].buffer in s.memory
         && |s.memory[s.requests[r].buffer]| + |data| <= s.maxUpload
       case Extract(r) => s.requests[r].Reading? && r !in s.pool.calls
       case Finish(r) =>
         || s.requests[r].Reading?
         || (s.requests[r].Extracting? && r in s.pool.calls && s.pool.calls[r].pc.Over?)
       case Mark(r) => s.requests[r].Marking?
       case Leave(r) => s.requests[r].Leaving?
       case Thread(p) => !p.Begin? && !p.MarkReady? && PoolProtocol.Enabled(s.pool, p)
  }

  function Put(s: Service, r: nat, q: Request): Service {
    s.(requests := s.requests[r := q])
  }

  ghost function Do(s: Service, step: Step): Service
    requires Enabled(s, step)
  {
    match step
    case Arrive(r) => Put(s, r, AtDoor)
    // ConcurrencyLimitMiddleware
    case DoorTry(r) => if DoorFree(s) then Put(s, r, Inside).(door := s.door - 1) else Put(s, r, DoorQueued)
    case DoorGrant(r) => Put(s, r, DoorGranted).(door := s.door - 1)
    case DoorResume(r) => Put(s, r, Inside)
    case DoorExpire(r) => Put(s, r, Gone).(door := if s.requests[r].DoorGranted? then s.door + 1 else s.door)
    case Refuse(r) => Put(s, r, Leaving)
    case Leave(r) => Put(s, r, Gone).(door := s.door + 1)
    // AdmissionGate.admit
    case AdmitTry(r) => TryAdmission(s, r, s.inUse >= s.capacity)
    case AdmitGrant(r) => Put(s, r, AdmitGranted(s.requests[r].counted)).(admission := s.admission - 1)
    case AdmitResume(r) => Admit(s.(waiting := if s.requests[r].counted then s.waiting - 1 else s.waiting), r)
    case AdmitExpire(r) =>
      Put(s, r, Leaving).(
        admission := if s.requests[r].AdmitGranted? then s.admission + 1 else s.admission,
        waiting := if s.requests[r].counted then s.waiting - 1 else s.waiting)
    // extract_document
    case Starve(r) => Release(s.(pool := s.pool.(overloaded := true, lastWriter := PoolProtocol.Outside)), r)
    case Receive(r, data) => s.(memory := s.memory[s.requests[r].buffer := s.memory[s.requests[r].buffer] + data])
    case Extract(r) =>
      Put(s, r, Extracting(s.requests[r].buffer)).(pool := PoolProtocol.Do(s.pool, PoolProtocol.Begin(r)))
    case Finish(r) => Release(s.(shelf := AfterReturn(s.shelf, s.capacity, s.requests[r].buffer)), r)
    case Mark(r) =>
      Put(s, r, Leaving).(
        loop := false,
        pool := if s.requests[r].idle then PoolProtocol.Do(s.pool, PoolProtocol.MarkReady) else s.pool)
    case Thread(p) => s.(pool := PoolProtocol.Do(s.pool, p))
  }

  /**
   A free slot is taken and used in the same event-loop step, so the waiting
   counter, raised and lowered in it, does not move.
   */
  ghost function TryAdmission(s: Service, r: nat, saturated: bool): Service {
    if AdmissionFree(s) then Admit(s.(admission := s.admission - 1), r)
    else Put(s, r, AdmitQueued(saturated)).(waiting := if saturated then s.waiting + 1 else s.waiting)
  }

  /** The caller has its slot: it counts itself in and borrows a buffer. */
  function Admit(s: Service, r: nat): Service {
    var t := s.(inUse := s.inUse + 1);
    if Exhausted(s.shelf, s.capacity) then Put(t, r, Starved).(loop := true)
    else
      var b := Lent(s.shelf);
      Put(t, r, Reading(b)).(shelf := AfterLoan(s.shelf, s.capacity), memory := s.memory[b := []])
  }

  /** The buffer a loan hands out: the last free one, or a new one. */
  function Lent(shelf: Shelf<nat>): nat {
    if shelf.free != [] then shelf.free[|shelf.free| - 1] else shelf.created
  }

  /** `finally`: the slot goes back, and readiness is restored if nobody is left. */
  function Release(s: Service, r: nat): Service {
    var inUse := s.inUse - 1;
    Put(s, r, Marking(inUse == 0 && s.waiting == 0)).(inUse := inUse, admission := s.admission + 1, loop := true)
  }

  ghost predicate Next(s: Service, s': Service) {
    exists step :: Enabled(s, step) && s' == Do(s, step)
  }

  ghost predicate IsRun(doorLimit: nat, capacity: nat, maxUpload: nat, run: seq<Service>) {
    && run != [] && run[0] == Init(doorLimit, capacity, maxUpload)
    && forall i :: 0 < i < |run| ==> Next(run[i - 1], run[i])
  }
}
