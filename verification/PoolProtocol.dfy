/**
 The extraction pool as a transition system: callers in `extract`, the bounded
 gate, the jobs of the process pool, the deferred release of a slot whose call
 timed out, the readiness flag, and the restart and close of the executor.

 A step is one operation on something shared: one semaphore operation, one
 counter change under the gate's lock, one write of the flag, one use of the
 executor. Steps of all threads interleave in any order.
 */
module PoolProtocol {

  /** Where a gate permit is on behalf of a call. */
  datatype Slot =
    | NoSlot
    | Uncounted  // acquired, not yet in `inflight`
    | Counted
    | Discounted  // out of `inflight`, not yet given back

  datatype Finish = Value | Error | OwnTimeout | Crash | Cancelled

  datatype Job =
    | NoJob
    | Queued(on: nat)
    | Running(on: nat)
    | Finished(how: Finish)
  {
    predicate Unfinished() {
      Queued? || Running?
    }
  }

  /** The release of a call's slot, run by the caller or by the job's done-callback. */
  datatype Release =
    | Unreleased
    | Armed  // left to the callback of an unfinished job
    | Discounting  // about to lower `inflight`
    | Returning  // about to release the semaphore
    | Looking  // about to read `inflight`
    | Announcing  // read zero, about to mark ready
    | Released

  datatype Ending = Answered | JobFailed | TimedOut | Overloaded | PoolBroken | PoolShut

  /** Where a caller is in `extract`; `_Gate.acquire` and `_restart_pool` are unfolded. */
  datatype Pc =
    | CheckOpen
    | TryPermit
    | CountFast
    | Signal
    | Enlist
    | Block
    | Delist(got: bool)
    | CountSlow
    | Lapse
    | Grab
    | Submit(on: nat)
    | Await
    | Cancel
    | Arm
    | RepairLock
    | RepairCheck
    | RepairMark
    | RepairShut
    | RepairSpawn
    | RepairCount
    | Unwind(ending: Ending)
    | Over(ending: Ending)

  datatype Call = Call(pc: Pc, slot: Slot, job: Job, release: Release, acquires: nat, releases: nat)

  datatype Closer = CloseLock | CloseCheck | CloseSet | CloseShut | CloseWait | CloseDone

  /** Who holds the lifecycle lock. */
  datatype Owner = Free | HeldByCall(call: nat) | HeldByCloser(closer: nat)

  /** The last write of the readiness flag. */
  datatype Writer =
    NoWriter | Waiter(call: nat) | Lapsed(call: nat) | Repairer(call: nat) | Releaser(call: nat) | Outside

  datatype Pool = Pool(
    permits: nat,
    sem: nat,
    inUse: int,
    waiting: int,
    overloaded: bool,
    lastWriter: Writer,
    calls: map<nat, Call>,
    closers: map<nat, Closer>,
    lock: Owner,
    closed: bool,
    newest: nat,  // executors 0..newest have been created; the newest is in service
    shut: set<nat>,
    broken: set<nat>,
    restarts: nat)

  function Init(permits: nat): Pool {
    Pool(permits, permits, 0, 0, false, NoWriter, map[], map[], Free, false, 0, {}, {}, 0)
  }

  datatype Step =
    | Begin(r: nat)  // a caller enters `extract`
    | Advance(r: nat)  // a caller takes its next step
    | Unload(r: nat)  // the release of a call's slot takes its next step
    | StartJob(r: nat)
    | EndJob(r: nat, how: Finish)
    | Break(e: nat)  // a worker of executor `e` dies
    | BeginClose(c: nat)
    | AdvanceClose(c: nat)
    | MarkReady  // some other component marks the instance ready

  const NEW_CALL := Call(CheckOpen, NoSlot, NoJob, Unreleased, 0, 0)

  predicate Enabled(s: Pool, step: Step) {
    match step
    case Begin(r) => r !in s.calls
    case Advance(r) => r in s.calls && CanAdvance(s, s.calls[r])
    case Unload(r) => r in s.calls && s.calls[r].release in {Discounting, Returning, Looking, Announcing}
    case StartJob(r) => r in s.calls && s.calls[r].job.Queued?
    case EndJob(r, how) => r in s.calls && CanEnd(s, s.calls[r].job, how)
    case Break(e) => e <= s.newest
    case BeginClose(c) => c !in s.closers
    case AdvanceClose(c) => c in s.closers && CanAdvanceClose(s, s.closers[c])
    case MarkReady => true
  }

  /** Every step of a caller can be taken at once, but for the lock and for its own release. */
  predicate CanAdvance(s: Pool, c: Call) {
    match c.pc
    case RepairLock => s.lock.Free?
    case Unwind(_) => c.release.Released?
    case Over(_) => false
    case _ => true
  }

  /** How a job may end: on its own once it runs, by a dead worker, or dropped from a queue that is shut. */
  predicate CanEnd(s: Pool, job: Job, how: Finish) {
    match how
    case Crash => job.Unfinished() && job.on in s.broken
    case Cancelled => job.Queued? && job.on in s.shut
    case _ => job.Running?
  }

  /** Closing waits for the lock, then for every job of the executor it shut. */
  predicate CanAdvanceClose(s: Pool, c: Closer) {
    match c
    case CloseLock => s.lock.Free?
    case CloseWait => forall r :: r in s.calls && s.calls[r].job.Unfinished() ==> s.calls[r].job.on != s.newest
    case CloseDone => false
    case _ => true
  }

  function Do(s: Pool, step: Step): Pool
    requires Enabled(s, step)
  {
    match step
    case Begin(r) => s.(calls := s.calls[r := NEW_CALL])
    case Advance(r) => AdvanceCall(s, r)
    case Unload(r) => UnloadSlot(s, r)
    case StartJob(r) => Put(s, r, s.calls[r].(job := Running(s.calls[r].job.on)))
    case EndJob(r, how) => EndJobOf(s, r, how)
    case Break(e) => s.(broken := s.broken + {e})
    case BeginClose(c) => s.(closers := s.closers[c := CloseLock])
    case AdvanceClose(c) => AdvanceCloser(s, c)
    case MarkReady => s.(overloaded := false, lastWriter := Outside)
  }

  function Put(s: Pool, r: nat, c: Call): Pool {
    s.(calls := s.calls[r := c])
  }

  /** Leave `extract` through its `finally`, releasing the slot on the way. */
  function Leave(c: Call, ending: Ending): Call {
    c.(pc := Unwind(ending), release := Discounting)
  }

  function AdvanceCall(s: Pool, r: nat): Pool
    requires r in s.calls && CanAdvance(s, s.calls[r])
  {
    var pc := s.calls[r].pc;
    if AtGate(pc) then AdvanceAtGate(s, r)
    else if InRepair(pc) || pc.RepairLock? then AdvanceRepair(s, r)
    else AdvanceJob(s, r)
  }

  predicate AtGate(pc: Pc) {
    || pc.CheckOpen? || pc.TryPermit? || pc.CountFast? || pc.Signal? || pc.Enlist?
    || pc.Block? || pc.Delist? || pc.CountSlow? || pc.Lapse?
  }

  /** The call holds the lifecycle lock. */
  predicate InRepair(pc: Pc) {
    pc.RepairCheck? || pc.RepairMark? || pc.RepairShut? || pc.RepairSpawn? || pc.RepairCount?
  }

  /** `extract` up to the acquired slot, with `_Gate.acquire` inside: what it does to the call and what to the pool. */
  function AdvanceAtGate(s: Pool, r: nat): Pool
    requires r in s.calls
  {
    Put(GatePool(s, r), r, GateStep(s.calls[r], s.closed, s.sem))
  }

  function GateStep(c: Call, closed: bool, sem: nat): Call {
    match c.pc
    case CheckOpen => c.(pc := if closed then Over(PoolShut) else TryPermit)
    case TryPermit =>
      if sem > 0 then c.(pc := CountFast, slot := Uncounted, acquires := c.acquires + 1) else c.(pc := Signal)
    case CountFast => c.(pc := Grab, slot := Counted)
    case Signal => c.(pc := Enlist)
    case Enlist => c.(pc := Block)
    case Block =>
      if sem > 0 then c.(pc := Delist(true), slot := Uncounted, acquires := c.acquires + 1) else c.(pc := Delist(false))
    case Delist(got) => c.(pc := if got then CountSlow else Lapse)
    case CountSlow => c.(pc := Grab, slot := Counted)
    case Lapse => c.(pc := Over(Overloaded))
    case _ => c
  }

  function GatePool(s: Pool, r: nat): Pool
    requires r in s.calls
  {
    match s.calls[r].pc
    case TryPermit => TakePermit(s)
    case CountFast => s.(inUse := s.inUse + 1)
    case Signal => s.(overloaded := true, lastWriter := Waiter(r))
    case Enlist => s.(waiting := s.waiting + 1)
    case Block => TakePermit(s)
    case Delist(_) => s.(waiting := s.waiting - 1)
    case CountSlow => s.(inUse := s.inUse + 1)
    case Lapse => s.(overloaded := true, lastWriter := Lapsed(r))
    case _ => s
  }

  /** `acquire` on the semaphore, if it has a permit. */
  function TakePermit(s: Pool): Pool {
    if s.sem > 0 then s.(sem := s.sem - 1) else s
  }

  /** `extract` from the acquired slot on; nothing but the call itself changes. */
  function AdvanceJob(s: Pool, r: nat): Pool
    requires r in s.calls
  {
    Put(s, r, JobStep(s.calls[r], s.newest, s.broken, s.shut))
  }

  function JobStep(c: Call, newest: nat, broken: set<nat>, shut: set<nat>): Call {
    match c.pc
    case Grab => c.(pc := Submit(newest))
    case Submit(on) =>
      if on in broken then c.(pc := RepairLock)
      else if on in shut then Leave(c, PoolShut)
      else c.(pc := Await, job := Queued(on))
    case Await => if c.job.Finished? then JobResult(c, c.job.how) else c.(pc := Cancel)  // the timeout lapsed
    case Cancel => c.(pc := Arm, job := if c.job.Queued? then Finished(Cancelled) else c.job)
    case Arm => if c.job.Unfinished() then c.(pc := Over(TimedOut), release := Armed) else Leave(c, TimedOut)
    case Unwind(ending) => c.(pc := Over(ending))
    case _ => c
  }

  function JobResult(c: Call, how: Finish): Call {
    match how
    case Value => Leave(c, Answered)
    case OwnTimeout => c.(pc := Cancel)
    case Crash => c.(pc := RepairLock)
    case _ => Leave(c, JobFailed)
  }

  /** `_restart_pool`: what it does to the call and what to the pool. */
  function AdvanceRepair(s: Pool, r: nat): Pool
    requires r in s.calls
  {
    Put(RepairPool(s, r), r, RepairStep(s.calls[r], s.closed))
  }

  function RepairStep(c: Call, closed: bool): Call {
    match c.pc
    case RepairLock => c.(pc := RepairCheck)
    case RepairCheck => if closed then Leave(c, PoolBroken) else c.(pc := RepairMark)
    case RepairMark => c.(pc := RepairShut)
    case RepairShut => c.(pc := RepairSpawn)
    case RepairSpawn => c.(pc := RepairCount)
    case RepairCount => Leave(c, PoolBroken)
    case _ => c
  }

  function RepairPool(s: Pool, r: nat): Pool
    requires r in s.calls
  {
    match s.calls[r].pc
    case RepairLock => s.(lock := HeldByCall(r))
    case RepairCheck => if s.closed then s.(lock := Free) else s
    case RepairMark => s.(overloaded := true, lastWriter := Repairer(r))
    case RepairShut => ShutNewest(s)
    case RepairSpawn => s.(newest := s.newest + 1)
    case RepairCount => s.(restarts := s.restarts + 1, lock := Free)
    case _ => s
  }

  function ShutNewest(s: Pool): Pool {
    s.(shut := s.shut + {s.newest})
  }

  /** `_release_slot`: what it does to the call and what to the pool. */
  function UnloadSlot(s: Pool, r: nat): Pool
    requires r in s.calls
  {
    Put(UnloadPool(s, r), r, UnloadStep(s.calls[r], s.inUse))
  }

  function UnloadStep(c: Call, inUse: int): Call {
    match c.release
    case Discounting => c.(release := Returning, slot := Discounted)
    case Returning => c.(release := Looking, slot := NoSlot, releases := c.releases + 1)
    case Looking => c.(release := if inUse == 0 then Announcing else Released)
    case Announcing => c.(release := Released)
    case _ => c
  }

  function UnloadPool(s: Pool, r: nat): Pool
    requires r in s.calls
  {
    match s.calls[r].release
    case Discounting => s.(inUse := s.inUse - 1)
    case Returning => s.(sem := s.sem + 1)
    case Announcing => s.(overloaded := false, lastWriter := Releaser(r))
    case _ => s
  }

  /** A job ends; if its call left the release to it, the callback starts. */
  function EndJobOf(s: Pool, r: nat, how: Finish): Pool
    requires r in s.calls
  {
    var c := s.calls[r];
    Put(s, r, c.(job := Finished(how), release := if c.release.Armed? then Discounting else c.release))
  }

  /** `close`. */
  function AdvanceCloser(s: Pool, c: nat): Pool
    requires c in s.closers
  {
    match s.closers[c]
    case CloseLock => s.(closers := s.closers[c := CloseCheck], lock := HeldByCloser(c))
    case CloseCheck =>
      if s.closed then s.(closers := s.closers[c := CloseDone], lock := Free)
      else s.(closers := s.closers[c := CloseSet])
    case CloseSet => s.(closers := s.closers[c := CloseShut], closed := true)
    case CloseShut => ShutNewest(s.(closers := s.closers[c := CloseWait]))
    case CloseWait => s.(closers := s.closers[c := CloseDone], lock := Free)
    case CloseDone => s
  }

  ghost predicate Next(s: Pool, s': Pool) {
    exists step :: Enabled(s, step) && s' == Do(s, step)
  }

  /** A run: states from the initial one on, each a step after the one before. */
  ghost predicate IsRun(permits: nat, run: seq<Pool>) {
    && run != [] && run[0] == Init(permits)
    && forall i :: 0 < i < |run| ==> Next(run[i - 1], run[i])
  }
}
