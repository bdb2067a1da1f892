/** The collection loop of one host, and what retention leaves in the raw table. */
module Collector {
  import opened Prelude
  import opened Model
  import Bucketer
  import opened TrendTable
  import opened History
  import opened Window
  import Notify

  // ----- Raw samples -----

  function RowsOf(host: string, ts: nat, cs: seq<Container>): seq<Sample> {
    seq(|cs|, i requires 0 <= i < |cs| => Sample(host, ts, cs[i]))
  }

  function CutBefore(samples: seq<Sample>, before: nat): seq<Sample> {
    if samples == [] then []
    else
      var s := samples[|samples| - 1];
      CutBefore(samples[..|samples| - 1], before) + if s.ts < before then [] else [s]
  }

  class SampleStore {
    var samples: seq<Sample>

    constructor ()
      ensures samples == []
    {
      samples := [];
    }

    method InsertSamples(host: string, ts: nat, cs: seq<Container>)
      modifies this
      ensures samples == old(samples) + RowsOf(host, ts, cs)
      ensures |samples| == |old(samples)| + |cs| && samples[..|old(samples)|] == old(samples)
      ensures forall i | 0 <= i < |cs| :: samples[|old(samples)| + i] == Sample(host, ts, cs[i])
    {
      for i := 0 to |cs|
        invariant samples == old(samples) + RowsOf(host, ts, cs[..i])
      {
        assert RowsOf(host, ts, cs[..i + 1]) == RowsOf(host, ts, cs[..i]) + [Sample(host, ts, cs[i])];
        samples := samples + [Sample(host, ts, cs[i])];
      }
      assert cs[..|cs|] == cs;
    }

    method PruneRaw(before: nat) returns (removed: nat)
      modifies this
      ensures samples == CutBefore(old(samples), before)
      ensures forall s :: multiset(samples)[s] == if s.ts < before then 0 else multiset(old(samples))[s]
      ensures removed == |old(samples)| - |samples|
    {
      CutShrinks(samples, before);
      forall s ensures multiset(CutBefore(samples, before))[s] == if s.ts < before then 0 else multiset(samples)[s] {
        CutCounts(samples, before, s);
      }
      var kept := CutBefore(samples, before);
      removed := |samples| - |kept|;
      samples := kept;
    }
  }

  lemma {:induction false} CutShrinks(samples: seq<Sample>, before: nat)
    ensures |CutBefore(samples, before)| <= |samples|
  {
    if samples != [] {
      CutShrinks(samples[..|samples| - 1], before);
    }
  }

  /** Cutting removes every occurrence of a sample before the cutoff, and none of any other. */
  lemma {:induction false} CutCounts(samples: seq<Sample>, before: nat, s: Sample)
    ensures multiset(CutBefore(samples, before))[s] == if s.ts < before then 0 else multiset(samples)[s]
  {
    if samples != [] {
      var n := |samples| - 1;
      CutCounts(samples[..n], before, s);
      assert samples == samples[..n] + [samples[n]];
    }
  }

  // ----- One turn of the loop -----

  datatype Dashboard = Dashboard(generatedAt: nat, cpuCount: nat, containers: seq<Container>)

  /** What one collector persisted in one cycle, and whether it pruned afterwards. */
  datatype Persisted = Persisted(host: string, ts: nat, containers: seq<Container>, prunes: bool)

  function Cutoff(ts: nat, retention: nat): nat {
    SatSub(ts, retention)
  }

  lemma CutoffIs(ts: nat, retention: nat, x: nat)
    ensures Cutoff(ts, retention) <= x <==> ts <= x + retention
  {
  }

  function PersistRaw(samples: seq<Sample>, p: Persisted, retention: nat): seq<Sample> {
    var grown := samples + RowsOf(p.host, p.ts, p.containers);
    if p.prunes then CutBefore(grown, Cutoff(p.ts, retention)) else grown
  }

  function PersistTrends(table: Table, flushed: seq<Trend>, p: Persisted, retention: nat): Table {
    var grown := InsertBatch(table, flushed);
    if p.prunes then PruneBefore(grown, Cutoff(p.ts, retention)) else grown
  }

  /** A pruning cycle leaves no sample older than the retention; otherwise its rows join all that was there. */
  lemma PersistRawCounts(samples: seq<Sample>, p: Persisted, retention: nat, s: Sample)
    ensures multiset(PersistRaw(samples, p, retention))[s]
         == if p.prunes && s.ts + retention < p.ts then 0
            else multiset(samples)[s] + multiset(RowsOf(p.host, p.ts, p.containers))[s]
  {
    CutoffIs(p.ts, retention, s.ts);
    CutCounts(samples + RowsOf(p.host, p.ts, p.containers), Cutoff(p.ts, retention), s);
  }

  /** A pruning cycle leaves exactly the rows whose bucket starts within the retention. */
  lemma PersistTrendsKeeps(table: Table, flushed: seq<Trend>, p: Persisted, retention: nat, key: RowKey)
    ensures var grown, after := InsertBatch(table, flushed), PersistTrends(table, flushed, p, retention);
            && (key in after <==> key in grown && (p.prunes ==> p.ts <= key.bucketStart + retention))
            && (key in after ==> after[key] == grown[key])
  {
    CutoffIs(p.ts, retention, key.bucketStart);
    PruneSplits(InsertBatch(table, flushed), Cutoff(p.ts, retention));
  }

  /** `d` goes `n` whole times into `a`. */
  predicate GoesInto(d: nat, a: nat, n: nat) {
    n * d <= a < (n + 1) * d
  }

  lemma QuotientGoesInto(d: nat, a: nat)
    requires d > 0
    ensures GoesInto(d, a, a / d)
  {
    DivBounds(a, d);
  }

  lemma LessThanOnce(d: nat, a: nat)
    requires GoesInto(d, a, 0)
    ensures a < d
  {
  }

  /** How many sample cycles lie between prunes: as many as fit into the prune interval, but at least one. */
  function PruneCadence(pruneInterval: nat, interval: nat): (n: nat)
    ensures n >= 1
    ensures GoesInto(AtLeastOne(interval), pruneInterval, n) || (n == 1 && pruneInterval < AtLeastOne(interval))
  {
    var q := pruneInterval / AtLeastOne(interval);
    QuotientGoesInto(AtLeastOne(interval), pruneInterval);
    if q == 0 then
      LessThanOnce(AtLeastOne(interval), pruneInterval);
      AtLeastOne(q)
    else
      AtLeastOne(q)
  }

  /** Where the web layer reads the latest snapshot from, and all that was ever there. */
  class SharedDashboard {
    var latest: Option<Dashboard>
    ghost var published: seq<Dashboard>

    constructor ()
      ensures latest == None && published == []
    {
      latest, published := None, [];
    }

    method Publish(dashboard: Dashboard)
      modifies this
      ensures latest == Some(dashboard) && published == old(published) + [dashboard]
    {
      latest, published := Some(dashboard), published + [dashboard];
    }
  }

  class Collector {
    const host: string
    const cpuCount: nat
    const rawRetentionMs: nat
    const trendRetentionMs: nat
    const pruneEvery: nat
    const bucketer: Bucketer.Bucketer
    const raw: SampleStore
    const trends: TrendStore
    const notifier: Notify.Tracker?
    const shared: SharedDashboard
    var primed: bool
    var cycle: nat

    ghost predicate Valid()
      reads this, bucketer
    {
      pruneEvery > 0 && bucketer.Valid() && bucketer.host == host
    }

    constructor (
        host: string, cpuCount: nat, rawRetentionMs: nat, trendRetentionMs: nat, bucketSecs: nat,
        pruneInterval: nat, interval: nat, notifier: Notify.Tracker?, raw: SampleStore, trends: TrendStore,
        shared: SharedDashboard)
      ensures Valid() && !primed && cycle == 0 && this.shared == shared && this.cpuCount == cpuCount
      ensures this.host == host && this.raw == raw && this.trends == trends && this.notifier == notifier
      ensures this.rawRetentionMs == rawRetentionMs && this.trendRetentionMs == trendRetentionMs
      ensures pruneEvery == PruneCadence(pruneInterval, interval)
      ensures bucketer.Contents() == Bucketer.State(None, map[]) && fresh(bucketer)
      ensures bucketer.bucketMs == AtLeastOne(bucketSecs) * 1000
    {
      this.host, this.cpuCount := host, cpuCount;
      this.rawRetentionMs, this.trendRetentionMs := rawRetentionMs, trendRetentionMs;
      pruneEvery := PruneCadence(pruneInterval, interval);
      this.raw, this.trends, this.notifier, this.shared := raw, trends, notifier, shared;
      bucketer := new Bucketer.Bucketer(bucketSecs, host);
      primed, cycle := false, 0;
    }

    /**
     * One turn: a failed collection changes nothing, the first success only primes, and every later one notifies,
     * steps the bucketer, publishes, persists, and prunes when the cycle count says so.
     */
    method Cycle(collected: Option<seq<Container>>, ts: nat)
        returns (sent: seq<Notify.Notification>, ghost flushed: seq<Trend>)
      requires Valid()
      modifies this, bucketer, raw, trends, notifier, shared
      ensures Valid()
      ensures collected.None? || !old(primed) ==>
                && raw.samples == old(raw.samples) && trends.trends == old(trends.trends)
                && bucketer.Contents() == old(bucketer.Contents())
                && (notifier != null ==> notifier.states == old(notifier.states))
                && cycle == old(cycle) && shared.latest == old(shared.latest)
                && shared.published == old(shared.published) && sent == []
                && primed == (old(primed) || collected.Some?)
      ensures collected.Some? && old(primed) ==>
                var p := Persisted(host, ts, collected.value, old(cycle) % pruneEvery == 0);
                && primed && cycle == old(cycle) + 1
                && shared.latest == Some(Dashboard(ts, cpuCount, collected.value))
                && shared.published == old(shared.published) + [Dashboard(ts, cpuCount, collected.value)]
                && raw.samples == PersistRaw(old(raw.samples), p, rawRetentionMs)
                && (if notifier == null then sent == []
                    else Notify.Evaluation(notifier.states, sent)
                         == Notify.Evaluated(old(notifier.states), ts, collected.value,
                                             notifier.delayMs, notifier.host))
                && Bucketer.Steps(bucketer.bucketMs, host, old(bucketer.Contents()), ts, collected.value,
                                  bucketer.Contents(), flushed)
                && trends.trends == PersistTrends(old(trends.trends), flushed, p, trendRetentionMs)
      ensures collected.Some? && old(primed) && old(cycle) % pruneEvery == 0 ==>
                && (forall s | s in raw.samples :: ts <= s.ts + rawRetentionMs)
                && (forall key | key in trends.trends :: ts <= key.bucketStart + trendRetentionMs)
    {
      sent, flushed := [], [];
      if collected.None? {
        return;
      }
      if !primed {
        primed := true;
        return;
      }
      var cs := collected.value;
      if notifier != null {
        sent := notifier.Evaluate(ts, cs);
      }
      var rows := bucketer.Push(ts, cs);
      flushed := rows;
      shared.Publish(Dashboard(ts, cpuCount, cs));
      var prunes := cycle % pruneEvery == 0;
      cycle := cycle + 1;
      raw.InsertSamples(host, ts, cs);
      trends.InsertContainerTrends(rows);
      if prunes {
        var _ := raw.PruneRaw(SatSub(ts, rawRetentionMs));
        var _ := trends.PruneTrends(SatSub(ts, trendRetentionMs));
        forall s | s in raw.samples ensures ts <= s.ts + rawRetentionMs {
          assert multiset(raw.samples)[s] > 0;
        }
      }
    }
  }

  // ----- Runs of any number of collectors over one store -----

  /** The raw table after a run: cycles of all hosts in the order their persists reached the store. */
  function RawAfter(run: seq<Persisted>, retention: nat): seq<Sample> {
    if run == [] then [] else PersistRaw(RawAfter(run[..|run| - 1], retention), run[|run| - 1], retention)
  }

  /** Everything ever persisted. */
  function Logged(run: seq<Persisted>): seq<Sample> {
    if run == [] then []
    else
      var p := run[|run| - 1];
      Logged(run[..|run| - 1]) + RowsOf(p.host, p.ts, p.containers)
  }

  /** No prune from the `i`-th persist on cut above its timestamp. */
  ghost predicate Survives(run: seq<Persisted>, i: nat, retention: nat)
    requires i < |run|
  {
    forall j | i <= j < |run| && run[j].prunes :: run[j].ts <= run[i].ts + retention
  }

  /** The rows of one persist, if it survives. */
  ghost function SurvivingRows(run: seq<Persisted>, i: nat, retention: nat): seq<Sample>
    requires i < |run|
  {
    if Survives(run, i, retention) then RowsOf(run[i].host, run[i].ts, run[i].containers) else []
  }

  /** The rows of the persists that survive. */
  ghost function Surviving(run: seq<Persisted>, n: nat, retention: nat): seq<Sample>
    requires n <= |run|
  {
    if n == 0 then [] else Surviving(run, n - 1, retention) + SurvivingRows(run, n - 1, retention)
  }

  lemma {:induction false} CutConcat(a: seq<Sample>, b: seq<Sample>, before: nat)
    ensures CutBefore(a + b, before) == CutBefore(a, before) + CutBefore(b, before)
    decreases |b|
  {
    if b == [] {
      assert a + b == a;
    } else {
      assert (a + b)[..|a + b| - 1] == a + b[..|b| - 1];
      CutConcat(a, b[..|b| - 1], before);
    }
  }

  lemma {:induction false} CutUniform(rows: seq<Sample>, ts: nat, before: nat)
    requires forall s | s in rows :: s.ts == ts
    ensures CutBefore(rows, before) == if ts < before then [] else rows
  {
    if rows != [] {
      var prefix, last := rows[..|rows| - 1], rows[|rows| - 1];
      assert rows == prefix + [last];
      assert last in rows && forall s | s in prefix :: s in rows;
      CutUniform(prefix, ts, before);
      assert prefix + [] == prefix;
    }
  }

  function CutIf(samples: seq<Sample>, cuts: bool, before: nat): seq<Sample> {
    if cuts then CutBefore(samples, before) else samples
  }

  lemma JoinCut(
      a: seq<Sample>, b: seq<Sample>, a': seq<Sample>, b': seq<Sample>, cuts: bool, before: nat)
    requires a' == CutIf(a, cuts, before) && b' == CutIf(b, cuts, before)
    ensures a' + b' == CutIf(a + b, cuts, before)
  {
    CutConcat(a, b, before);
  }

  lemma SurvivingRowsStep(run: seq<Persisted>, p: Persisted, i: nat, retention: nat)
    requires i < |run|
    ensures SurvivingRows(run + [p], i, retention)
         == CutIf(SurvivingRows(run, i, retention), p.prunes, Cutoff(p.ts, retention))
  {
    SurvivesStep(run, p, i, retention);
    CutUniform(RowsOf(run[i].host, run[i].ts, run[i].containers), run[i].ts, Cutoff(p.ts, retention));
  }

  /** Appending a persist: it must itself survive, and its prune takes out what it cuts. */
  lemma {:induction false} SurvivingStep(run: seq<Persisted>, p: Persisted, n: nat, retention: nat)
    requires n <= |run|
    ensures Surviving(run + [p], n, retention)
         == CutIf(Surviving(run, n, retention), p.prunes, Cutoff(p.ts, retention))
    decreases n
  {
    if n > 0 {
      SurvivingStep(run, p, n - 1, retention);
      SurvivingRowsStep(run, p, n - 1, retention);
      JoinCut(Surviving(run, n - 1, retention), SurvivingRows(run, n - 1, retention),
              Surviving(run + [p], n - 1, retention), SurvivingRows(run + [p], n - 1, retention),
              p.prunes, Cutoff(p.ts, retention));
    }
  }

  lemma SurvivesStep(run: seq<Persisted>, p: Persisted, i: nat, retention: nat)
    requires i < |run|
    ensures Survives(run + [p], i, retention)
       <==> Survives(run, i, retention) && (p.prunes ==> Cutoff(p.ts, retention) <= run[i].ts)
  {
    var all := run + [p];
    assert all[i] == run[i] && all[|run|] == p;
    if Survives(all, i, retention) {
      forall j | i <= j < |run| && run[j].prunes ensures Cutoff(run[j].ts, retention) <= run[i].ts {
        assert all[j] == run[j];
      }
    }
  }

  /** A cycle's own prune cuts what was there before, and none of its rows. */
  lemma {:induction false} PersistCuts(samples: seq<Sample>, p: Persisted, retention: nat)
    ensures PersistRaw(samples, p, retention)
         == CutIf(samples, p.prunes, Cutoff(p.ts, retention)) + RowsOf(p.host, p.ts, p.containers)
  {
    var rows := RowsOf(p.host, p.ts, p.containers);
    CutUniform(rows, p.ts, Cutoff(p.ts, retention));
    CutConcat(samples, rows, Cutoff(p.ts, retention));
  }

  lemma {:induction false} SurvivingAppend(run: seq<Persisted>, p: Persisted, retention: nat)
    ensures Surviving(run + [p], |run| + 1, retention) == PersistRaw(Surviving(run, |run|, retention), p, retention)
  {
    SurvivingStep(run, p, |run|, retention);
    assert (run + [p])[|run|] == p && Survives(run + [p], |run|, retention);
    PersistCuts(Surviving(run, |run|, retention), p, retention);
  }

  /** Main result, for every run and any clock: the raw table holds exactly the rows no later prune cut. */
  lemma {:induction false} RawIsSurviving(run: seq<Persisted>, retention: nat)
    ensures RawAfter(run, retention) == Surviving(run, |run|, retention)
    decreases |run|
  {
    if run != [] {
      var n := |run| - 1;
      RawIsSurviving(run[..n], retention);
      SurvivingAppend(run[..n], run[n], retention);
      assert run == run[..n] + [run[n]];
    }
  }

  lemma {:induction false} RawPointsConcat(
      a: seq<Sample>, b: seq<Sample>, host: string, id: string, since: nat, until: nat)
    ensures RawPoints(a + b, host, id, since, until)
         == RawPoints(a, host, id, since, until) + RawPoints(b, host, id, since, until)
    decreases |b|
  {
    if b == [] {
      assert a + b == a;
    } else {
      assert (a + b)[..|a + b| - 1] == a + b[..|b| - 1];
      RawPointsConcat(a, b[..|b| - 1], host, id, since, until);
    }
  }

  lemma {:induction false} OutsideWindow(
      rows: seq<Sample>, ts: nat, host: string, id: string, since: nat, until: nat)
    requires (forall s | s in rows :: s.ts == ts) && ts < since
    ensures RawPoints(rows, host, id, since, until) == []
  {
    if rows != [] {
      assert rows[|rows| - 1] in rows;
      OutsideWindow(rows[..|rows| - 1], ts, host, id, since, until);
    }
  }

  /** What the `i`-th persist contributes to a raw window. */
  function Contribution(run: seq<Persisted>, i: nat, host: string, id: string, since: nat, until: nat): seq<Point>
    requires i < |run|
  {
    RawPoints(RowsOf(run[i].host, run[i].ts, run[i].containers), host, id, since, until)
  }

  /** The first `n` persists lost nothing of the window. */
  ghost predicate NothingLost(
      run: seq<Persisted>, n: nat, retention: nat, host: string, id: string, since: nat, until: nat)
    requires n <= |run|
  {
    forall i | 0 <= i < n && !Survives(run, i, retention) :: Contribution(run, i, host, id, since, until) == []
  }

  /** The window as kept, and as it would be without pruning, after the first `n` persists. */
  ghost function Kept(
      run: seq<Persisted>, n: nat, retention: nat, host: string, id: string, since: nat, until: nat): seq<Point>
    requires n <= |run|
  {
    RawPoints(Surviving(run, n, retention), host, id, since, until)
  }

  function Whole(run: seq<Persisted>, n: nat, host: string, id: string, since: nat, until: nat): seq<Point>
    requires n <= |run|
  {
    RawPoints(Logged(run[..n]), host, id, since, until)
  }

  lemma WindowStep(run: seq<Persisted>, n: nat, retention: nat, host: string, id: string, since: nat, until: nat)
    requires n < |run|
    ensures Whole(run, n + 1, host, id, since, until)
         == Whole(run, n, host, id, since, until) + Contribution(run, n, host, id, since, until)
    ensures Kept(run, n + 1, retention, host, id, since, until)
         == Kept(run, n, retention, host, id, since, until)
            + if Survives(run, n, retention) then Contribution(run, n, host, id, since, until) else []
  {
    var rows := RowsOf(run[n].host, run[n].ts, run[n].containers);
    assert run[..n + 1][..n] == run[..n];
    RawPointsConcat(Logged(run[..n]), rows, host, id, since, until);
    RawPointsConcat(Surviving(run, n, retention), rows, host, id, since, until);
    assert Surviving(run, n, retention) + [] == Surviving(run, n, retention);
  }

  lemma {:induction false} WindowCompleteIff(
      run: seq<Persisted>, n: nat, retention: nat, host: string, id: string, since: nat, until: nat)
    requires n <= |run|
    ensures |Kept(run, n, retention, host, id, since, until)| <= |Whole(run, n, host, id, since, until)|
    ensures NothingLost(run, n, retention, host, id, since, until) ==>
              Kept(run, n, retention, host, id, since, until) == Whole(run, n, host, id, since, until)
    ensures |Kept(run, n, retention, host, id, since, until)| == |Whole(run, n, host, id, since, until)| ==>
              NothingLost(run, n, retention, host, id, since, until)
    decreases n
  {
    if n > 0 {
      WindowCompleteIff(run, n - 1, retention, host, id, since, until);
      WindowStep(run, n - 1, retention, host, id, since, until);
      var part := Contribution(run, n - 1, host, id, since, until);
      if Survives(run, n - 1, retention) || part == [] {
        assert NothingLost(run, n, retention, host, id, since, until)
          <==> NothingLost(run, n - 1, retention, host, id, since, until);
      } else {
        assert !NothingLost(run, n, retention, host, id, since, until);
      }
    }
  }

  /** For every run and any clock: a raw window is complete exactly when no persist cut later contributes to it. */
  lemma {:induction false} RawCompleteIff(
      run: seq<Persisted>, retention: nat, host: string, id: string, since: nat, until: nat)
    ensures RawPoints(RawAfter(run, retention), host, id, since, until)
            == RawPoints(Logged(run), host, id, since, until)
       <==> NothingLost(run, |run|, retention, host, id, since, until)
  {
    RawIsSurviving(run, retention);
    WindowCompleteIff(run, |run|, retention, host, id, since, until);
    assert run[..|run|] == run;
  }

  /**
   * Main result: with a clock that has not stepped back, whenever a request is served from raw samples, the answer
   * is the one a table that was never pruned would give, whatever collectors share the store and however their
   * persists interleave. The seed window is the raw retention.
   */
  lemma {:induction false} RawAnswersComplete(
      run: seq<Persisted>, q: HistoryQuery, now: nat, retention: nat, table: Table,
      host: string, id: string, name: Option<string>)
    requires forall i | 0 <= i < |run| :: run[i].ts <= now
    requires ResolveHistory(q, now, retention).Some? && ResolveHistory(q, now, retention).value.raw
    ensures var w := ResolveHistory(q, now, retention).value;
            w.since <= w.until
            && Answer(w, RawAfter(run, retention), table, host, id, name)
               == Answer(w, Logged(run), table, host, id, name)
  {
    var w := ResolveHistory(q, now, retention).value;
    ResolvedWindow(q, now, retention);
    forall i | 0 <= i < |run| && !Survives(run, i, retention)
      ensures Contribution(run, i, host, id, w.since, w.until) == []
    {
      var j :| i <= j < |run| && run[j].prunes && Cutoff(run[j].ts, retention) > run[i].ts;
      OutsideWindow(RowsOf(run[i].host, run[i].ts, run[i].containers), run[i].ts, host, id, w.since, w.until);
    }
    RawCompleteIff(run, retention, host, id, w.since, w.until);
  }
}
