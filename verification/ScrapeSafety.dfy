/** What the metrics cache guarantees on every run, and that its TTL must be positive for it. */
module ScrapeSafety {
  import opened Options
  import opened ScrapeProtocol
  import opened MetricsRegistry

  /** Renders are one at a time, under the lock, and a due one at that. */
  ghost predicate OneRender(s: Cache) {
    && (forall r :: r in s.scrapes ==> (InRender(s.scrapes[r]) <==> s.holder == Some(r)))
    && (s.holder.Some? ==> s.holder.value in s.scrapes)
    && (s.holder.Some? && s.content.Some? ==> s.now - s.renderedAt >= s.ttl)
    && (s.content.Some? ==> s.renderedAt <= s.now)
    && (s.stores > 0 <==> s.content.Some?)
  }

  /** How far the one render has come, seen in the counter. */
  predicate Tallied(s: Cache, c: Scrape) {
    match c
    case Read(total) => s.counter == s.last <= total <= s.restarts
    case Compared(total, delta) => s.counter == s.last == total - delta && 0 <= delta && total <= s.restarts
    case Counted(total) => s.last <= s.counter == total <= s.restarts
    case Noted(total) => s.counter == s.last == total <= s.restarts
    case Rendered(body) => s.counter == s.last == body.seen == body.exported <= s.restarts
    case _ => s.counter == s.last <= s.restarts
  }

  predicate Truthful(s: Cache, body: Body) {
    body.exported == body.seen <= s.restarts
  }

  ghost predicate CounterOk(s: Cache) {
    && (if s.holder.Some? && s.holder.value in s.scrapes
        then Tallied(s, s.scrapes[s.holder.value])
        else s.counter == s.last <= s.restarts)
    && (s.content.Some? ==> Truthful(s, s.content.value))
    && (forall r :: r in s.scrapes && s.scrapes[r].Served? ==> Truthful(s, s.scrapes[r].body))
  }

  ghost predicate Inv(s: Cache) {
    s.ttl > 0.0 && OneRender(s) && CounterOk(s)
  }

  lemma StepKeepsOneRender(s: Cache, step: Step)
    requires s.ttl > 0.0 && OneRender(s) && Enabled(s, step)
    ensures OneRender(Do(s, step))
  {
  }

  lemma StepKeepsCounter(s: Cache, step: Step)
    requires Inv(s) && Enabled(s, step)
    ensures CounterOk(Do(s, step))
  {
    if step.Render? {
      hide FinishScrape;
    } else {
      hide RenderStep;
    }
  }

  lemma {:induction false} RunKeepsInv(ttl: real, start: real, run: seq<Cache>, i: nat)
    requires IsRun(ttl, start, run) && i < |run| && ttl > 0.0
    ensures Inv(run[i]) && run[i].ttl == ttl
  {
    if i > 0 {
      RunKeepsInv(ttl, start, run, i - 1);
      assert Next(run[i - 1], run[i]);
      var step :| Enabled(run[i - 1], step) && run[i] == Do(run[i - 1], step);
      StepKeepsOneRender(run[i - 1], step);
      StepKeepsCounter(run[i - 1], step);
      StepKeepsTtl(run[i - 1], step);
    }
  }

  lemma StepKeepsTtl(s: Cache, step: Step)
    requires Enabled(s, step)
    ensures Do(s, step).ttl == s.ttl
  {
  }

  /** Renders never overlap. */
  lemma RendersAlone(ttl: real, start: real, run: seq<Cache>, i: nat, r: nat, q: nat)
    requires IsRun(ttl, start, run) && i < |run| && ttl > 0.0
    requires r in run[i].scrapes && InRender(run[i].scrapes[r]) && q in run[i].scrapes && InRender(run[i].scrapes[q])
    ensures r == q
  {
    RunKeepsInv(ttl, start, run, i);
  }

  /** n times the TTL. */
  function Periods(n: int, ttl: real): (t: real) {
    (n as real) * ttl
  }

  /**
   A storm of scrapes collapses: between any two points of a run, of `n` renders
   completed the first and the last are at least `n - 1` TTLs apart.
   */
  lemma {:induction false} OneRenderPerTtl(ttl: real, start: real, run: seq<Cache>, i: nat, j: nat)
    requires IsRun(ttl, start, run) && i <= j < |run| && ttl > 0.0
    ensures Spaced(ttl, run[i], run[j])
  {
    hide Spaced, Inv, Do, Enabled;
    RunKeepsInv(ttl, start, run, j);
    if i == j {
      SpacedAtFirst(ttl, run[i]);
    } else {
      OneRenderPerTtl(ttl, start, run, i, j - 1);
      RunKeepsInv(ttl, start, run, j - 1);
      assert Next(run[j - 1], run[j]);
      var step :| Enabled(run[j - 1], step) && run[j] == Do(run[j - 1], step);
      StepKeepsSpaced(ttl, run[i], run[j - 1], step);
    }
  }

  /** The renders completed since `a`: the last of `n` came `n - 1` TTLs or more after it, and by now. */
  predicate Spaced(ttl: real, a: Cache, s: Cache) {
    var n := s.stores - a.stores;
    && n >= 0 && a.now <= s.now
    && (n > 0 ==> s.content.Some? && Periods(n - 1, ttl) <= s.renderedAt - a.now <= s.now - a.now)
  }

  lemma SpacedAtFirst(ttl: real, a: Cache)
    ensures Spaced(ttl, a, a)
  {
  }

  lemma StepKeepsSpaced(ttl: real, a: Cache, s: Cache, step: Step)
    requires Inv(s) && s.ttl == ttl && Enabled(s, step) && Spaced(ttl, a, s)
    ensures Spaced(ttl, a, Do(s, step))
  {
    StepStores(s, step);
    OneMorePeriod(s.stores - a.stores, ttl);
    hide Periods, Do, Enabled, OneRender, CounterOk;
  }

  lemma OneMorePeriod(n: int, ttl: real)
    ensures Periods(0, ttl) == 0.0 && Periods(n, ttl) == Periods(n - 1, ttl) + ttl
  {
  }

  /** A step stores nothing and moves the clock forward, or stores a render a TTL after the last. */
  lemma StepStores(s: Cache, step: Step)
    requires Inv(s) && Enabled(s, step)
    ensures var s' := Do(s, step);
            && s'.now >= s.now
            && (|| (s'.stores == s.stores && s'.content == s.content && s'.renderedAt == s.renderedAt)
                || (&& s'.stores == s.stores + 1 && s'.renderedAt == s.now == s'.now && s'.content.Some?
                    && (s.stores > 0 ==> s.now - s.renderedAt >= s.ttl)
                    && step.Finish? && s.scrapes[step.r] == Rendered(s'.content.value)))
  {
  }

  /** Render `body` completed and was cached in the step from `j`. */
  ghost predicate StoredAt(run: seq<Cache>, j: nat, body: Body) {
    && j + 1 < |run| && run[j + 1].stores == run[j].stores + 1 && run[j + 1].content == Some(body)
    && exists r :: r in run[j].scrapes && run[j].scrapes[r] == Rendered(body)
  }

  /** Of the renders completed by `i`, the last was `body`, in the step from `j`. */
  ghost predicate LatestAt(run: seq<Cache>, i: nat, j: nat, body: Body)
    requires i < |run|
  {
    j < i && StoredAt(run, j, body) && run[i].stores == run[j].stores + 1
  }

  /** The cache holds the render completed last, and the time it was. */
  lemma {:induction false} CacheHoldsLatest(ttl: real, start: real, run: seq<Cache>, i: nat) returns (j: nat)
    requires IsRun(ttl, start, run) && i < |run| && ttl > 0.0 && run[i].content.Some?
    ensures LatestAt(run, i, j, run[i].content.value) && run[i].renderedAt == run[j].now
  {
    RunKeepsInv(ttl, start, run, i - 1);
    assert Next(run[i - 1], run[i]);
    var step :| Enabled(run[i - 1], step) && run[i] == Do(run[i - 1], step);
    StepStores(run[i - 1], step);
    if run[i].stores == run[i - 1].stores {
      j := CacheHoldsLatest(ttl, start, run, i - 1);
    } else {
      j := i - 1;
    }
  }

  /** Scrape `r` gets its answer in the step from `i`. */
  predicate Answered(run: seq<Cache>, i: nat, r: nat) {
    && i + 1 < |run| && r in run[i].scrapes && r in run[i + 1].scrapes
    && !run[i].scrapes[r].Served? && run[i + 1].scrapes[r].Served?
  }

  /**
   A scrape is answered with its own render, or with the render completed last,
   less than a TTL ago: no other one completed in between.
   */
  lemma AnswersAreFresh(ttl: real, start: real, run: seq<Cache>, i: nat, r: nat)
    requires IsRun(ttl, start, run) && ttl > 0.0 && Answered(run, i, r)
    ensures var body := run[i + 1].scrapes[r].body;
            || run[i].scrapes[r] == Rendered(body)
            || exists j: nat :: LatestAt(run, i, j, body) && run[i].now - run[j].now < ttl
  {
    assert Next(run[i], run[i + 1]);
    var step :| Enabled(run[i], step) && run[i + 1] == Do(run[i], step);
    RunKeepsInv(ttl, start, run, i);
    if !run[i].scrapes[r].Rendered? {
      ServedFromCache(run[i], step, r);
      var j := CacheHoldsLatest(ttl, start, run, i);
    }
  }

  /** The render of scrape `r` begins in the step from `i`. */
  predicate Begun(run: seq<Cache>, i: nat, r: nat) {
    && i + 1 < |run| && r in run[i].scrapes && r in run[i + 1].scrapes
    && !InRender(run[i].scrapes[r]) && InRender(run[i + 1].scrapes[r])
  }

  /** A render begins alone, and a TTL or more after the last one that completed, if any did. */
  lemma RendersAreDue(ttl: real, start: real, run: seq<Cache>, i: nat, r: nat)
    requires IsRun(ttl, start, run) && ttl > 0.0 && Begun(run, i, r)
    ensures forall q :: q in run[i].scrapes ==> !InRender(run[i].scrapes[q])
    ensures run[i].stores > 0 ==>
              exists j: nat, body :: LatestAt(run, i, j, body) && run[i].now - run[j].now >= ttl
  {
    assert Next(run[i], run[i + 1]);
    var step :| Enabled(run[i], step) && run[i + 1] == Do(run[i], step);
    RunKeepsInv(ttl, start, run, i);
    BegunWhenDue(run[i], step, r);
    if run[i].stores > 0 {
      var j := CacheHoldsLatest(ttl, start, run, i);
      assert LatestAt(run, i, j, run[i].content.value);
    }
  }

  lemma BegunWhenDue(s: Cache, step: Step, r: nat)
    requires s.ttl > 0.0 && Enabled(s, step) && r in s.scrapes
    requires !InRender(s.scrapes[r]) && InRender(Do(s, step).scrapes[r])
    ensures s.holder.None? && !Fresh(s)
  {
  }

  lemma ServedFromCache(s: Cache, step: Step, r: nat)
    requires s.ttl > 0.0 && Enabled(s, step) && r in s.scrapes && !s.scrapes[r].Served? && !s.scrapes[r].Rendered?
    requires Do(s, step).scrapes[r].Served?
    ensures Fresh(s) && s.content == Some(Do(s, step).scrapes[r].body)
  {
  }

  // What a scrape comes to, with the cache on or off.

  /** The render of scrape `r` raises in the step from `j`. */
  ghost predicate RaisesAt(run: seq<Cache>, j: nat, r: nat) {
    && j + 1 < |run| && r in run[j].scrapes && r in run[j + 1].scrapes
    && (run[j].scrapes[r].Started? || run[j].scrapes[r].Noted?) && run[j + 1].scrapes[r].Broken?
  }

  /** How a step changes a scrape that is not rendering, is done rendering, or comes to be broken or failed. */
  lemma StepOutcome(s: Cache, step: Step, r: nat)
    requires Enabled(s, step) && r in s.scrapes
    ensures r in Do(s, step).scrapes
    ensures var c, c' := s.scrapes[r], Do(s, step).scrapes[r];
            && (c'.Failed? ==> c.Failed? || c.Broken?)
            && (c'.Broken? ==> c.Broken? || c.Started? || c.Noted?)
            && (c.Rendered? ==> c' == c || c' == Served(c.body))
            && (c.Arrived? || c.Queued? ==> !c'.Failed? && !c'.Broken?)
            && (c.Served? || c.Failed? ==> c' == c)
  {
  }

  lemma NewScrapes(s: Cache, step: Step, r: nat)
    requires Enabled(s, step) && r !in s.scrapes && r in Do(s, step).scrapes
    ensures Do(s, step).scrapes[r].Arrived?
  {
  }

  lemma BrokenBefore(ttl: real, start: real, run: seq<Cache>, i: nat, r: nat)
    requires IsRun(ttl, start, run) && i + 1 < |run| && r in run[i + 1].scrapes
    requires run[i + 1].scrapes[r].Failed? || run[i + 1].scrapes[r].Broken?
    ensures r in run[i].scrapes && (run[i].scrapes[r].Failed? || run[i].scrapes[r].Broken? || RaisesAt(run, i, r))
  {
    hide Enabled, Do;
    assert Next(run[(i + 1) - 1], run[i + 1]);
    var step :| Enabled(run[i], step) && run[i + 1] == Do(run[i], step);
    if r in run[i].scrapes {
      StepOutcome(run[i], step, r);
    } else {
      NewScrapes(run[i], step, r);
    }
  }

  /** A scrape fails only if its own render raised. */
  lemma {:induction false} FailsOnlyIfRaised(ttl: real, start: real, run: seq<Cache>, i: nat, r: nat)
    requires IsRun(ttl, start, run) && i < |run| && r in run[i].scrapes
    requires run[i].scrapes[r].Failed? || run[i].scrapes[r].Broken?
    ensures exists j: nat :: j < i && RaisesAt(run, j, r)
  {
    assert i > 0;
    BrokenBefore(ttl, start, run, i - 1, r);
    hide IsRun, RaisesAt;
    if !RaisesAt(run, i - 1, r) {
      FailsOnlyIfRaised(ttl, start, run, i - 1, r);
    }
  }

  lemma BrokenStays(s: Cache, step: Step, r: nat)
    requires Enabled(s, step) && r in s.scrapes && (s.scrapes[r].Broken? || s.scrapes[r].Failed?)
    ensures r in Do(s, step).scrapes && (Do(s, step).scrapes[r].Broken? || Do(s, step).scrapes[r].Failed?)
  {
  }

  /** A scrape whose render raised fails: it is never answered. */
  lemma {:induction false} RaisedFails(ttl: real, start: real, run: seq<Cache>, j: nat, i: nat, r: nat)
    requires IsRun(ttl, start, run) && j < i < |run| && RaisesAt(run, j, r)
    ensures r in run[i].scrapes && (run[i].scrapes[r].Broken? || run[i].scrapes[r].Failed?)
  {
    hide Enabled, Do;
    if j < i - 1 {
      RaisedFails(ttl, start, run, j, i - 1, r);
      assert Next(run[i - 1], run[i]);
      var step :| Enabled(run[i - 1], step) && run[i] == Do(run[i - 1], step);
      BrokenStays(run[i - 1], step, r);
    }
  }

  /** A scrape that finds a fresh body is answered with it in that very step, whether or not it had to queue. */
  lemma FreshIsServedAtOnce(ttl: real, start: real, run: seq<Cache>, i: nat, r: nat)
    requires IsRun(ttl, start, run) && ttl > 0.0 && i + 1 < |run| && Fresh(run[i])
    requires r in run[i].scrapes && (run[i].scrapes[r].Arrived? || run[i].scrapes[r].Queued?)
    requires r in run[i + 1].scrapes && run[i + 1].scrapes[r] != run[i].scrapes[r]
    ensures run[i + 1].scrapes[r] == Served(run[i].content.value)
  {
    RunKeepsInv(ttl, start, run, i);
    assert Next(run[(i + 1) - 1], run[i + 1]);
  }

  /** A scrape whose render has completed waits to be answered, and is answered with it. */
  lemma {:induction false} RendersAreServed(ttl: real, start: real, run: seq<Cache>, i: nat, j: nat, r: nat)
    requires IsRun(ttl, start, run) && i <= j < |run| && r in run[i].scrapes && run[i].scrapes[r].Rendered?
    ensures r in run[j].scrapes
    ensures run[j].scrapes[r] == run[i].scrapes[r] || run[j].scrapes[r] == Served(run[i].scrapes[r].body)
  {
    hide Enabled, Do;
    if i < j {
      RendersAreServed(ttl, start, run, i, j - 1, r);
      assert Next(run[j - 1], run[j]);
      var step :| Enabled(run[j - 1], step) && run[j] == Do(run[j - 1], step);
      StepOutcome(run[j - 1], step, r);
    }
  }

  /** With the cache off every answer is the scrape's own render. */
  lemma WithoutCacheAllRender(ttl: real, start: real, run: seq<Cache>, i: nat, r: nat)
    requires IsRun(ttl, start, run) && ttl <= 0.0 && Answered(run, i, r)
    ensures run[i].scrapes[r] == Rendered(run[i + 1].scrapes[r].body)
  {
    NothingCached(ttl, start, run, i);
    assert Next(run[(i + 1) - 1], run[i + 1]);
    var step :| Enabled(run[i], step) && run[i + 1] == Do(run[i], step);
    OnlyRendersServed(run[i], step, r);
  }

  lemma OnlyRendersServed(s: Cache, step: Step, r: nat)
    requires Enabled(s, step) && s.content.None? && r in s.scrapes && !s.scrapes[r].Served?
    requires Do(s, step).scrapes[r].Served?
    ensures s.scrapes[r] == Rendered(Do(s, step).scrapes[r].body)
  {
  }

  lemma {:induction false} NothingCached(ttl: real, start: real, run: seq<Cache>, i: nat)
    requires IsRun(ttl, start, run) && i < |run| && ttl <= 0.0
    ensures run[i].content.None? && run[i].ttl == ttl
  {
    hide Enabled, Do;
    if i > 0 {
      NothingCached(ttl, start, run, i - 1);
      assert Next(run[i - 1], run[i]);
      var step :| Enabled(run[i - 1], step) && run[i] == Do(run[i - 1], step);
      OffStaysOff(run[i - 1], step);
    }
  }

  lemma OffStaysOff(s: Cache, step: Step)
    requires Enabled(s, step) && s.ttl <= 0.0 && s.content.None?
    ensures Do(s, step).content.None? && Do(s, step).ttl == s.ttl
  {
  }

  /** A scrape is at its end. */
  predicate AtEnd(c: Scrape) {
    c.Served? || c.Failed?
  }

  /** How many steps a scrape may still take. */
  function StepsLeft(c: Scrape): nat {
    match c
    case Arrived => 9
    case Queued => 8
    case Started => 7
    case Read(_) => 6
    case Compared(_, _) => 5
    case Counted(_) => 4
    case Noted(_) => 3
    case Rendered(_) => 1
    case Broken => 1
    case _ => 0
  }

  /** While a scrape is not at its end some scrape can take a step, and every step of a scrape is one less to take. */
  lemma ScrapesGetOn(ttl: real, start: real, run: seq<Cache>, i: nat, r: nat) returns (step: Step)
    requires IsRun(ttl, start, run) && i < |run| && ttl > 0.0
    requires r in run[i].scrapes && !AtEnd(run[i].scrapes[r])
    ensures !step.Pass? && !step.Restart? && !step.Arrive? && Enabled(run[i], step)
    ensures step.r in Do(run[i], step).scrapes
    ensures StepsLeft(Do(run[i], step).scrapes[step.r]) < StepsLeft(run[i].scrapes[step.r])
  {
    RunKeepsInv(ttl, start, run, i);
    step := ScrapeStep(run[i], r);
  }

  lemma ScrapeStep(s: Cache, r: nat) returns (step: Step)
    requires OneRender(s) && r in s.scrapes && !AtEnd(s.scrapes[r])
    ensures !step.Pass? && !step.Restart? && !step.Arrive? && Enabled(s, step)
    ensures step.r in Do(s, step).scrapes
    ensures StepsLeft(Do(s, step).scrapes[step.r]) < StepsLeft(s.scrapes[step.r])
  {
    var q := if s.scrapes[r].Queued? && s.holder.Some? then s.holder.value else r;
    step := if s.scrapes[q].Arrived? then Check(q)
            else if s.scrapes[q].Queued? then Acquire(q)
            else if OnThread(s.scrapes[q]) then Render(q)
            else Finish(q);
  }

  // The restart counter.

  /** The pool had restarted `total` times at some point up to `i`. */
  ghost predicate Once(run: seq<Cache>, i: nat, total: nat) {
    exists k: nat :: k <= i && k < |run| && run[k].restarts == total
  }

  /** What the scrape has of the pool's restarts, if it read them. */
  function SeenBy(c: Scrape): Option<nat> {
    match c
    case Read(total) => Some(total)
    case Compared(total, _) => Some(total)
    case Counted(total) => Some(total)
    case Noted(total) => Some(total)
    case Rendered(body) => Some(body.seen)
    case Served(body) => Some(body.seen)
    case _ => None
  }

  ghost predicate AllReal(run: seq<Cache>, i: nat)
    requires i < |run|
  {
    && (forall r :: r in run[i].scrapes && SeenBy(run[i].scrapes[r]).Some? ==>
          Once(run, i, SeenBy(run[i].scrapes[r]).value))
    && (run[i].content.Some? ==> Once(run, i, run[i].content.value.seen))
  }

  lemma StepSees(s: Cache, step: Step, r: nat)
    requires Enabled(s, step) && r in Do(s, step).scrapes && SeenBy(Do(s, step).scrapes[r]).Some?
    ensures || SeenBy(Do(s, step).scrapes[r]) == Some(s.restarts)
            || (r in s.scrapes && SeenBy(s.scrapes[r]) == SeenBy(Do(s, step).scrapes[r]))
            || (s.content.Some? && SeenBy(Do(s, step).scrapes[r]) == Some(s.content.value.seen))
  {
  }

  lemma {:induction false} RunSeesReal(ttl: real, start: real, run: seq<Cache>, i: nat)
    requires IsRun(ttl, start, run) && i < |run| && ttl > 0.0
    ensures AllReal(run, i)
  {
    if i > 0 {
      RunSeesReal(ttl, start, run, i - 1);
      RunKeepsInv(ttl, start, run, i - 1);
      assert Next(run[i - 1], run[i]);
      var step :| Enabled(run[i - 1], step) && run[i] == Do(run[i - 1], step);
      StepSeesReal(run, i - 1, step);
    }
  }

  lemma StepSeesReal(run: seq<Cache>, i: nat, step: Step)
    requires i + 1 < |run| && Inv(run[i]) && Enabled(run[i], step) && run[i + 1] == Do(run[i], step) && AllReal(run, i)
    ensures AllReal(run, i + 1)
  {
    hide Do, Enabled, Inv, Once, SeenBy;
    NowOnce(run, i);
    var s' := run[i + 1];
    forall r | r in s'.scrapes && SeenBy(s'.scrapes[r]).Some? ensures Once(run, i + 1, SeenBy(s'.scrapes[r]).value) {
      StepSees(run[i], step, r);
      OnceLater(run, i, SeenBy(s'.scrapes[r]).value);
    }
    if run[i + 1].content.Some? {
      StepStores(run[i], step);
      StoresSeen(run[i], step);
      OnceLater(run, i, run[i + 1].content.value.seen);
    }
  }

  lemma NowOnce(run: seq<Cache>, i: nat)
    requires i < |run|
    ensures Once(run, i, run[i].restarts)
  {
  }

  lemma OnceLater(run: seq<Cache>, i: nat, total: nat)
    requires Once(run, i, total)
    ensures Once(run, i + 1, total)
  {
  }

  lemma StoresSeen(s: Cache, step: Step)
    requires Enabled(s, step) && Do(s, step).content.Some?
    ensures || Do(s, step).content == s.content
            || (&& step.Finish? && step.r in s.scrapes
                && SeenBy(s.scrapes[step.r]) == Some(Do(s, step).content.value.seen))
  {
  }

  /**
   Every answer exports as the restart counter the very number its render read
   from the pool, one the pool really had: no restart is lost or counted twice.
   Between renders the counter is that of the latest render.
   */
  lemma ExportsAreTrue(ttl: real, start: real, run: seq<Cache>, i: nat, r: nat)
    requires IsRun(ttl, start, run) && i < |run| && ttl > 0.0
    ensures r in run[i].scrapes && run[i].scrapes[r].Served? ==>
              var body := run[i].scrapes[r].body; body.exported == body.seen && Once(run, i, body.exported)
    ensures run[i].counter <= run[i].restarts
    ensures run[i].holder.None? ==> run[i].counter == run[i].last
  {
    RunKeepsInv(ttl, start, run, i);
    RunSeesReal(ttl, start, run, i);
  }

  /** A render nobody disturbs does to the counter what `Metrics.Render` does. */
  lemma RenderUndisturbed(s: Cache, r: nat)
    requires r in s.scrapes && s.scrapes[r].Started?
    ensures var t := RenderStep(RenderStep(RenderStep(RenderStep(RenderStep(s, r), r), r), r), r);
            var tally := AfterRender(Tally(s.counter, s.last), s.restarts);
            Tally(t.counter, t.last) == tally && t.scrapes == s.scrapes[r := Rendered(Body(s.restarts, tally.counter))]
  {
    var one := RenderStep(s, r);
    var two := RenderStep(one, r);
    var three := RenderStep(two, r);
    var four := RenderStep(three, r);
    assert two.scrapes == s.scrapes[r := two.scrapes[r]];
    assert RenderStep(four, r).scrapes == s.scrapes[r := RenderStep(four, r).scrapes[r]];
  }

  /** Some run exports more restarts than there ever were. */
  ghost predicate MayOvercount(ttl: real, start: real) {
    exists run: seq<Cache> :: IsRun(ttl, start, run) && run[|run| - 1].counter > run[|run| - 1].restarts
  }

  /** The counter is safe from overlapping renders exactly when the cache is on. */
  lemma CounterNeedsCache(ttl: real, start: real)
    ensures MayOvercount(ttl, start) <==> ttl <= 0.0
  {
    if ttl <= 0.0 {
      Overcount(ttl, start);
    } else if run: seq<Cache> :| IsRun(ttl, start, run) && run[|run| - 1].counter > run[|run| - 1].restarts {
      RunKeepsInv(ttl, start, run, |run| - 1);
    }
  }

  /** Two scrapes render at once, and both count the one restart. */
  lemma Overcount(ttl: real, start: real)
    requires ttl <= 0.0
    ensures MayOvercount(ttl, start)
  {
    var s := Init(ttl, start).(restarts := 1);
    var run := TwoStarted(ttl, start);
    run := Go(ttl, start, run, Render(0));
    run := Go(ttl, start, run, Render(1));
    assert run[|run| - 1] == s.(scrapes := map[0 := Read(1), 1 := Read(1)]);
    run := Go(ttl, start, run, Render(0));
    run := Go(ttl, start, run, Render(1));
    assert run[|run| - 1] == s.(scrapes := map[0 := Compared(1, 1), 1 := Compared(1, 1)]);
    run := Go(ttl, start, run, Render(0));
    run := Go(ttl, start, run, Render(1));
  }

  lemma TwoStarted(ttl: real, start: real) returns (run: seq<Cache>)
    requires ttl <= 0.0
    ensures IsRun(ttl, start, run)
    ensures run[|run| - 1] == Init(ttl, start).(restarts := 1, scrapes := map[0 := Started, 1 := Started])
  {
    run := [Init(ttl, start)];
    run := Go(ttl, start, run, Restart);
    run := Go(ttl, start, run, Arrive(0));
    run := Go(ttl, start, run, Arrive(1));
    assert run[|run| - 1].scrapes == map[0 := Arrived, 1 := Arrived];
    run := Go(ttl, start, run, Check(0));
    run := Go(ttl, start, run, Check(1));
    assert run[|run| - 1].scrapes == map[0 := Started, 1 := Started];
  }

  /** The first scrape starts the first render, with the cache on or off. */
  lemma FirstStarted(ttl: real, start: real) returns (run: seq<Cache>)
    ensures IsRun(ttl, start, run)
    ensures var s := run[|run| - 1];
            && s.scrapes == map[0 := Started] && s.content.None? && s.now == start && s.ttl == ttl && s.stores == 0
            && (ttl > 0.0 ==> s.holder == Some(0))
  {
    run := [Init(ttl, start)];
    run := Go(ttl, start, run, Arrive(0));
    assert run[|run| - 1].scrapes == map[0 := Arrived];
    run := Go(ttl, start, run, Check(0));
    if ttl > 0.0 {
      assert run[|run| - 1].scrapes == map[0 := Queued];
      run := Go(ttl, start, run, Acquire(0));
    }
    assert run[|run| - 1].scrapes == map[0 := Started];
  }

  /** A render may raise, and its scrape fail. */
  lemma ScrapesMayFail(ttl: real, start: real) returns (run: seq<Cache>)
    ensures IsRun(ttl, start, run) && run[|run| - 1].scrapes == map[0 := Failed]
  {
    run := FirstStarted(ttl, start);
    run := Go(ttl, start, run, Raise(0));
    assert run[|run| - 1].scrapes == map[0 := Broken];
    run := Go(ttl, start, run, Finish(0));
    assert run[|run| - 1].scrapes == map[0 := Failed];
  }

  /** The five steps of a render, and the answer. */
  lemma RenderThrough(ttl: real, start: real, run: seq<Cache>, r: nat) returns (longer: seq<Cache>)
    requires IsRun(ttl, start, run) && ttl > 0.0
    requires r in run[|run| - 1].scrapes && run[|run| - 1].scrapes[r].Started? && run[|run| - 1].ttl == ttl
    ensures IsRun(ttl, start, longer)
    ensures var s, t := run[|run| - 1], longer[|longer| - 1];
            && t.stores == s.stores + 1 && t.content.Some? && t.renderedAt == t.now == s.now
            && t.holder.None? && t.ttl == ttl && t.scrapes.Keys == s.scrapes.Keys
  {
    longer := Go(ttl, start, run, Render(r));
    longer := Go(ttl, start, longer, Render(r));
    longer := Go(ttl, start, longer, Render(r));
    longer := Go(ttl, start, longer, Render(r));
    longer := Go(ttl, start, longer, Render(r));
    longer := Go(ttl, start, longer, Finish(r));
  }

  /** A TTL after the first render a second one may be due. */
  lemma RendersRecur(ttl: real, start: real) returns (run: seq<Cache>)
    requires ttl > 0.0
    ensures IsRun(ttl, start, run) && run[|run| - 1].stores == 2
  {
    run := FirstStarted(ttl, start);
    run := RenderThrough(ttl, start, run, 0);
    run := Go(ttl, start, run, Pass(ttl));
    run := Go(ttl, start, run, Arrive(1));
    run := Go(ttl, start, run, Check(1));
    run := Go(ttl, start, run, Acquire(1));
    run := RenderThrough(ttl, start, run, 1);
  }

  lemma Go(ttl: real, start: real, run: seq<Cache>, step: Step) returns (longer: seq<Cache>)
    requires IsRun(ttl, start, run) && Enabled(run[|run| - 1], step)
    ensures IsRun(ttl, start, longer) && longer[|longer| - 1] == Do(run[|run| - 1], step)
  {
    hide Do, Enabled, Init;
    longer := run + [Do(run[|run| - 1], step)];
    assert Next(run[|run| - 1], Do(run[|run| - 1], step));
  }
}
