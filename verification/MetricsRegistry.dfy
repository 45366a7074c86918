/**
 The application's metrics: gauges refreshed at scrape time, and a counter of
 worker restarts that accumulates what was restarted since the last scrape.
 */
module MetricsRegistry {

  /** The exported restart counter, and the restarts seen by the last render. */
  datatype Tally = Tally(counter: nat, last: int)

  function AfterRender(t: Tally, total: int): Tally {
    Tally(if total > t.last then t.counter + (total - t.last) else t.counter, total)
  }

  function AfterRenders(t: Tally, totals: seq<int>): Tally {
    if totals == [] then t else AfterRender(AfterRenders(t, totals[..|totals| - 1]), totals[|totals| - 1])
  }

  predicate Rising(totals: seq<int>) {
    forall i :: 0 < i < |totals| ==> totals[i - 1] <= totals[i]
  }

  /**
   Whatever restart totals successive renders read, the counter never falls
   short of the last; it equals it exactly when the totals never went down.
   */
  lemma {:induction false} CounterFollowsRisingTotals(totals: seq<int>)
    ensures var t := AfterRenders(Tally(0, 0), totals);
            && t.last == ([0] + totals)[|totals|] <= t.counter
            && (t.counter == t.last <==> Rising([0] + totals))
  {
    if totals != [] {
      var before := totals[..|totals| - 1];
      CounterFollowsRisingTotals(before);
      assert [0] + totals == ([0] + before) + [totals[|totals| - 1]];
      RisingAppended([0] + before, totals[|totals| - 1]);
    }
  }

  lemma RisingAppended(totals: seq<int>, total: int)
    requires totals != []
    ensures Rising(totals + [total]) <==> Rising(totals) && totals[|totals| - 1] <= total
  {
    var more := totals + [total];
    assert forall i :: 0 <= i < |totals| ==> more[i] == totals[i];
    if Rising(more) {
      assert more[|totals| - 1] <= more[|totals|];
      forall i | 0 < i < |totals| ensures totals[i - 1] <= totals[i] {
        assert more[i - 1] <= more[i];
      }
    }
  }

  /** What a scrape gets to see. */
  datatype Exposition = Exposition(inflight: int, queueDepth: int, workerRestarts: nat)

  class Metrics {
    var inflight: int
    var queueDepth: int
    var workerRestartsTotal: nat
    var lastRestarts: int

    function Contents(): Tally
      reads this
    {
      Tally(workerRestartsTotal, lastRestarts)
    }

    constructor ()
      ensures Contents() == Tally(0, 0)
    {
      inflight, queueDepth, workerRestartsTotal, lastRestarts := 0, 0, 0, 0;
    }

    /** Refresh the metrics from what the pool reports, and print them. */
    method Render(live: int, queued: int, restarts: int) returns (exposition: Exposition)
      modifies this
      ensures Contents() == AfterRender(old(Contents()), restarts)
      ensures exposition == Exposition(live, queued, Contents().counter) && inflight == live && queueDepth == queued
    {
      inflight := live;
      queueDepth := queued;
      var delta := restarts - lastRestarts;
      if delta > 0 {
        workerRestartsTotal := workerRestartsTotal + delta;
      }
      lastRestarts := restarts;
      exposition := Exposition(inflight, queueDepth, workerRestartsTotal);
    }
  }
}
