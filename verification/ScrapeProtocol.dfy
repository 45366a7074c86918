/**
 The cached metrics exposition as a transition system: scrapes check a
 short-lived cache, and on a miss render the registry under a lock. A render
 runs on a thread, so the event loop goes on between any two of its steps; its
 restart counter accumulates what the pool restarted since the last render.
 */
module ScrapeProtocol {
  import opened Options

  /** What a render read of the pool's restarts, and what it exported as their counter. */
  datatype Body = Body(seen: nat, exported: nat)

  datatype Scrape =
    | Arrived
    | Queued  // missed the cache, waiting for the lock
    | Started  // its render is on a thread
    | Read(total: nat)
    | Compared(total: nat, delta: int)
    | Counted(total: nat)
    | Noted(total: nat)
    | Rendered(body: Body)
    | Broken  // its render raised
    | Served(body: Body)
    | Failed

  datatype Cache = Cache(
    ttl: real,
    now: real,  // the monotonic clock
    content: Option<Body>,  // none while the cached bytes are empty
    renderedAt: real,
    holder: Option<nat>,  // who has the lock
    scrapes: map<nat, Scrape>,
    restarts: nat,  // of the pool
    counter: nat,  // exported restarts
    last: int,  // restarts at the last render
    stores: nat)  // renders completed and cached

  function Init(ttl: real, start: real): Cache {
    Cache(ttl, start, None, 0.0, None, map[], 0, 0, 0, 0)
  }

  datatype Step =
    | Pass(time: real)
    | Restart
    | Arrive(r: nat)
    | Check(r: nat)
    | Acquire(r: nat)
    | Render(r: nat)  // the render takes its next step
    | Raise(r: nat)
    | Finish(r: nat)  // back on the event loop

  /** The cached body may be served. */
  predicate Fresh(s: Cache) {
    s.content.Some? && s.now - s.renderedAt < s.ttl
  }

  predicate OnThread(c: Scrape) {
    c.Started? || c.Read? || c.Compared? || c.Counted? || c.Noted?
  }

  predicate InRender(c: Scrape) {
    OnThread(c) || c.Rendered? || c.Broken?
  }

  predicate Enabled(s: Cache, step: Step) {
    && (!step.Pass? && !step.Restart? && !step.Arrive? ==> step.r in s.scrapes)
    && match step
       case Pass(time) => time >= 0.0
       case Restart => true
       case Arrive(r) => r !in s.scrapes
       case Check(r) => s.scrapes[r].Arrived?
       case Acquire(r) => s.scrapes[r].Queued? && s.holder.None?
       case Render(r) => OnThread(s.scrapes[r])
       // Reading the pool or printing the registry may raise; the counting in between does not.
       case Raise(r) => s.scrapes[r].Started? || s.scrapes[r].Noted?
       case Finish(r) => s.scrapes[r].Rendered? || s.scrapes[r].Broken?
  }

  function Put(s: Cache, r: nat, c: Scrape): Cache {
    s.(scrapes := s.scrapes[r := c])
  }

  function Do(s: Cache, step: Step): Cache
    requires Enabled(s, step)
  {
    match step
    case Pass(time) => s.(now := s.now + time)
    case Restart => s.(restarts := s.restarts + 1)
    case Arrive(r) => Put(s, r, Arrived)
    case Check(r) =>
      if s.ttl <= 0.0 then Put(s, r, Started)
      else if Fresh(s) then Put(s, r, Served(s.content.value))
      else Put(s, r, Queued)
    case Acquire(r) =>
      if Fresh(s) then Put(s, r, Served(s.content.value))
      else Put(s, r, Started).(holder := Some(r))
    case Render(r) => RenderStep(s, r)
    case Raise(r) => Put(s, r, Broken)
    case Finish(r) => FinishScrape(s, r)
  }

  /** `Metrics.render`, one access to something shared at a time. */
  function RenderStep(s: Cache, r: nat): Cache
    requires r in s.scrapes
  {
    match s.scrapes[r]
    case Started => Put(s, r, Read(s.restarts))
    case Read(total) => Put(s, r, Compared(total, total - s.last))
    case Compared(total, delta) =>
      Put(s, r, Counted(total)).(counter := if delta > 0 then s.counter + delta else s.counter)
    case Counted(total) => Put(s, r, Noted(total)).(last := total)
    case Noted(total) => Put(s, r, Rendered(Body(total, s.counter)))
    case _ => s
  }

  /** With the cache on, a successful render is stored; the lock is released either way. */
  function FinishScrape(s: Cache, r: nat): Cache
    requires r in s.scrapes && (s.scrapes[r].Rendered? || s.scrapes[r].Broken?)
  {
    var t := if s.ttl > 0.0 then s.(holder := None) else s;
    match s.scrapes[r]
    case Rendered(body) =>
      var u := Put(t, r, Served(body));
      if s.ttl > 0.0 then u.(content := Some(body), renderedAt := s.now, stores := s.stores + 1) else u
    case _ => Put(t, r, Failed)
  }

  ghost predicate Next(s: Cache, s': Cache) {
    exists step :: Enabled(s, step) && s' == Do(s, step)
  }

  ghost predicate IsRun(ttl: real, start: real, run: seq<Cache>) {
    && run != [] && run[0] == Init(ttl, start)
    && forall i :: 0 < i < |run| ==> Next(run[i - 1], run[i])
  }
}
