/** Whole runs of a host's collection loop, and what the charts then show. */
module CollectorRun {
  import opened Prelude
  import opened Model
  import Bucketer
  import opened BucketTrace
  import opened TrendTable
  import opened TableInvariants
  import opened History
  import opened EndToEnd
  import opened Window
  import opened Collector
  import Notify

  /** One tick of the interval timer: what the daemon answered, and the clock. */
  datatype Tick = Tick(collected: Option<seq<Container>>, ts: nat)

  function Successes(ticks: seq<Tick>): seq<Tick> {
    if ticks == [] then []
    else
      var last := ticks[|ticks| - 1];
      Successes(ticks[..|ticks| - 1]) + if last.collected.Some? then [last] else []
  }

  lemma {:induction false} SuccessesCollected(ticks: seq<Tick>)
    ensures forall t | t in Successes(ticks) :: t.collected.Some?
  {
    if ticks != [] {
      SuccessesCollected(ticks[..|ticks| - 1]);
    }
  }

  function PersistedAt(host: string, tick: Tick, cycle: nat, every: nat): Persisted
    requires tick.collected.Some? && every > 0
  {
    Persisted(host, tick.ts, tick.collected.value, cycle % every == 0)
  }

  /** What gets persisted: every successful collection but the first, pruning at each `every`-th from the start. */
  function Schedule(host: string, ticks: seq<Tick>, every: nat): seq<Persisted>
    requires every > 0
  {
    var ok := Successes(ticks);
    SuccessesCollected(ticks);
    seq(SatSub(|ok|, 1), k requires 0 <= k < SatSub(|ok|, 1) => PersistedAt(host, ok[k + 1], k, every))
  }

  lemma RemainderAfter(k: nat, d: nat, every: nat)
    requires every > 0 && k % every == 0 && d < every
    ensures (k + d) % every == d && (k + every) % every == 0
  {
    var q := k / every;
    DivBounds(k, every);
    assert k == q * every && (q + 1) * every == q * every + every;
    DivIs(k + d, q, every);
    MultipleOf(q + 1, every);
  }

  lemma {:induction false} ScheduledAt(host: string, ticks: seq<Tick>, every: nat, k: nat)
    requires every > 0 && k < |Schedule(host, ticks, every)|
    ensures Schedule(host, ticks, every)[k].prunes <==> k % every == 0
  {
    var ok := Successes(ticks);
    SuccessesCollected(ticks);
    assert ok[k + 1] in ok;
    assert Schedule(host, ticks, every)[k] == PersistedAt(host, ok[k + 1], k, every);
  }

  /** The first cycle prunes, and after a cycle that does the next to do so comes exactly the cadence later. */
  lemma {:induction false} PrunesRecur(host: string, ticks: seq<Tick>, every: nat, k: nat, d: nat)
    requires every > 0 && k + d < |Schedule(host, ticks, every)|
    ensures Schedule(host, ticks, every)[0].prunes
    ensures Schedule(host, ticks, every)[k].prunes && 0 < d <= every ==>
              (Schedule(host, ticks, every)[k + d].prunes <==> d == every)
  {
    MultipleOf(0, every);
    ScheduledAt(host, ticks, every, 0);
    ScheduledAt(host, ticks, every, k);
    ScheduledAt(host, ticks, every, k + d);
    if k % every == 0 && d <= every {
      RemainderAfter(k, if d < every then d else 0, every);
    }
  }

  lemma {:induction false} ScheduleStep(host: string, ticks: seq<Tick>, tick: Tick, every: nat)
    requires every > 0
    ensures var before, after := Schedule(host, ticks, every), Schedule(host, ticks + [tick], every);
            if tick.collected.None? || Successes(ticks) == [] then after == before
            else after == before + [PersistedAt(host, tick, |before|, every)]
  {
    assert (ticks + [tick])[..|ticks|] == ticks;
  }

  function PushesOf(run: seq<Persisted>): seq<Push> {
    seq(|run|, k requires 0 <= k < |run| => Push(run[k].ts, run[k].containers))
  }

  function SnapshotsOf(run: seq<Persisted>): seq<Notify.Snapshot> {
    seq(|run|, k requires 0 <= k < |run| => Notify.Snapshot(run[k].ts, run[k].containers))
  }

  function DashboardOf(p: Persisted, cpuCount: nat): Dashboard {
    Dashboard(p.ts, cpuCount, p.containers)
  }

  function DashboardsOf(run: seq<Persisted>, cpuCount: nat): seq<Dashboard> {
    seq(|run|, k requires 0 <= k < |run| => DashboardOf(run[k], cpuCount))
  }

  /** What a run does to the trend table: each cycle inserts its closed bucket, and some prune. */
  function OpsOf(flushes: seq<seq<Trend>>, run: seq<Persisted>, retention: nat): seq<Op>
    requires |flushes| == |run|
  {
    if run == [] then []
    else
      var n := |run| - 1;
      OpsOf(flushes[..n], run[..n], retention)
      + ([Insert(flushes[n])] + if run[n].prunes then [Prune(Cutoff(run[n].ts, retention))] else [])
  }

  lemma RunStep(
      width: nat, host: string, pushes: seq<Push>, states: seq<Bucketer.State>, flushes: seq<seq<Trend>>,
      push: Push, state: Bucketer.State, rows: seq<Trend>)
    requires IsRun(width, host, pushes, states, flushes) && Bucketer.NonEmpty(states[|pushes|].accs)
    requires Bucketer.Steps(width, host, states[|pushes|], push.ts, push.containers, state, rows)
    ensures IsRun(width, host, pushes + [push], states + [state], flushes + [rows])
  {
    forall i | 0 <= i < |pushes + [push]|
      ensures StepAt(width, host, pushes + [push], states + [state], flushes + [rows], i)
    {
      if i < |pushes| {
        assert StepAt(width, host, pushes, states, flushes, i);
      }
    }
  }

  lemma {:induction false} TableSnoc(table: Table, ops: seq<Op>, op: Op)
    ensures op.Insert? ==> TableAfter(table, ops + [op]) == InsertBatch(TableAfter(table, ops), op.batch)
    ensures op.Prune? ==> TableAfter(table, ops + [op]) == PruneBefore(TableAfter(table, ops), op.before)
  {
    assert (ops + [op])[..|ops|] == ops;
  }

  lemma {:induction false} OpsSnoc(
      flushes: seq<seq<Trend>>, run: seq<Persisted>, rows: seq<Trend>, p: Persisted, retention: nat)
    requires |flushes| == |run|
    ensures var grown := OpsOf(flushes, run, retention) + [Insert(rows)];
            OpsOf(flushes + [rows], run + [p], retention)
            == if p.prunes then grown + [Prune(Cutoff(p.ts, retention))] else grown
  {
    var ops := OpsOf(flushes, run, retention);
    assert (flushes + [rows])[..|run|] == flushes && (run + [p])[..|run|] == run;
    if p.prunes {
      ConcatAssociates(ops, [Insert(rows)], [Prune(Cutoff(p.ts, retention))]);
    } else {
      assert ops + ([Insert(rows)] + []) == ops + [Insert(rows)];
    }
  }

  lemma {:induction false} TableStep(
      table: Table, flushes: seq<seq<Trend>>, run: seq<Persisted>, rows: seq<Trend>, p: Persisted, retention: nat)
    requires |flushes| == |run|
    ensures TableAfter(table, OpsOf(flushes + [rows], run + [p], retention))
         == PersistTrends(TableAfter(table, OpsOf(flushes, run, retention)), rows, p, retention)
  {
    var ops := OpsOf(flushes, run, retention);
    OpsSnoc(flushes, run, rows, p, retention);
    TableSnoc(table, ops, Insert(rows));
    if p.prunes {
      TableSnoc(table, ops + [Insert(rows)], Prune(Cutoff(p.ts, retention)));
    }
  }

  /** The tracker's part of a run: every notification sent is the one due at its snapshot. */
  ghost predicate Notified(
      run: seq<Persisted>, states: map<string, Notify.Tracked>, sent: seq<seq<Notify.Notification>>,
      delay: nat, host: string)
  {
    var trace := SnapshotsOf(run);
    && |sent| == |run|
    && states == Notify.StatesAfter(trace, delay, host)
    && forall k | 0 <= k < |run| :: sent[k] == Notify.SentAt(trace, k, delay, host)
  }

  lemma NotifiedStep(
      run: seq<Persisted>, states: map<string, Notify.Tracked>, sent: seq<seq<Notify.Notification>>,
      delay: nat, host: string, p: Persisted, after: map<string, Notify.Tracked>, out: seq<Notify.Notification>)
    requires Notified(run, states, sent, delay, host)
    requires Notify.Evaluation(after, out) == Notify.Evaluated(states, p.ts, p.containers, delay, host)
    ensures Notified(run + [p], after, sent + [out], delay, host)
  {
    var trace, longer := SnapshotsOf(run), SnapshotsOf(run + [p]);
    assert longer == trace + [Notify.Snapshot(p.ts, p.containers)];
    forall k | 0 <= k < |run| + 1 ensures (sent + [out])[k] == Notify.SentAt(longer, k, delay, host) {
      if k < |run| {
        assert longer[..k] == trace[..k];
      } else {
        assert longer[..k] == trace;
      }
    }
    assert longer[..|run|] == trace;
  }

  function Flat<T>(parts: seq<seq<T>>): seq<T> {
    if parts == [] then [] else Flat(parts[..|parts| - 1]) + parts[|parts| - 1]
  }

  // ----- What a run amounts to -----

  datatype Setup = Setup(
    host: string, cpuCount: nat, width: nat, every: nat, rawRetention: nat, trendRetention: nat)

  /** The stores, the tracker's states, and the published dashboards: the one shown and all of them. */
  datatype World = World(
    samples: seq<Sample>, table: Table, tracked: map<string, Notify.Tracked>, shown: Option<Dashboard>,
    published: seq<Dashboard>)

  /** What a run did, cycle by cycle. */
  datatype Record = Record(
    run: seq<Persisted>, states: seq<Bucketer.State>, flushes: seq<seq<Trend>>, sent: seq<seq<Notify.Notification>>)

  /**
   * What the loop has done by now: the bucketer made a run, the trend table saw its flushes and prunes, the raw
   * table goes on from whatever was persisted `earlier`, every persisted collection was published, and an initially
   * empty tracker sent what was due; without a tracker nothing was sent.
   */
  ghost predicate Reached(
      setup: Setup, from: World, earlier: seq<Persisted>, notifier: Option<(nat, string)>, rec: Record, now: World)
  {
    && IsRun(setup.width, setup.host, PushesOf(rec.run), rec.states, rec.flushes)
    && now.table == TableAfter(from.table, OpsOf(rec.flushes, rec.run, setup.trendRetention))
    && (from.samples == RawAfter(earlier, setup.rawRetention)
        ==> now.samples == RawAfter(earlier + rec.run, setup.rawRetention))
    && now.published == from.published + DashboardsOf(rec.run, setup.cpuCount)
    && now.shown == (if rec.run == [] then from.shown else Some(DashboardOf(rec.run[|rec.run| - 1], setup.cpuCount)))
    && (notifier.None? ==> Flat(rec.sent) == [])
    && (notifier.Some? && from.tracked == map[]
        ==> Notified(rec.run, now.tracked, rec.sent, notifier.value.0, notifier.value.1))
  }

  /** What one published cycle does to the world. */
  ghost predicate Publishes(
      setup: Setup, notifier: Option<(nat, string)>, before: World, p: Persisted,
      rows: seq<Trend>, out: seq<Notify.Notification>, after: World)
  {
    && after.samples == PersistRaw(before.samples, p, setup.rawRetention)
    && after.table == PersistTrends(before.table, rows, p, setup.trendRetention)
    && after.published == before.published + [DashboardOf(p, setup.cpuCount)]
    && after.shown == Some(DashboardOf(p, setup.cpuCount))
    && (notifier.None? ==> out == [])
    && (notifier.Some? ==>
          Notify.Evaluation(after.tracked, out)
          == Notify.Evaluated(before.tracked, p.ts, p.containers, notifier.value.0, notifier.value.1))
  }

  lemma {:induction false} RawStep(earlier: seq<Persisted>, run: seq<Persisted>, p: Persisted, retention: nat)
    ensures RawAfter(earlier + (run + [p]), retention) == PersistRaw(RawAfter(earlier + run, retention), p, retention)
  {
    var before := earlier + run;
    assert earlier + (run + [p]) == before + [p] && (before + [p])[..|before|] == before;
  }

  lemma PublishedStep(before: seq<Dashboard>, run: seq<Persisted>, p: Persisted, cpuCount: nat)
    ensures before + DashboardsOf(run, cpuCount) + [DashboardOf(p, cpuCount)]
         == before + DashboardsOf(run + [p], cpuCount)
  {
    assert DashboardsOf(run + [p], cpuCount) == DashboardsOf(run, cpuCount) + [DashboardOf(p, cpuCount)];
  }

  lemma {:induction false} FlatSnoc<T>(parts: seq<seq<T>>, part: seq<T>)
    ensures Flat(parts + [part]) == Flat(parts) + part
  {
    assert (parts + [part])[..|parts|] == parts;
  }

  lemma RanStep(
      width: nat, host: string, run: seq<Persisted>, states: seq<Bucketer.State>, flushes: seq<seq<Trend>>,
      p: Persisted, state: Bucketer.State, rows: seq<Trend>)
    requires IsRun(width, host, PushesOf(run), states, flushes) && Bucketer.NonEmpty(states[|run|].accs)
    requires Bucketer.Steps(width, host, states[|run|], p.ts, p.containers, state, rows)
    ensures IsRun(width, host, PushesOf(run + [p]), states + [state], flushes + [rows])
  {
    RunStep(width, host, PushesOf(run), states, flushes, Push(p.ts, p.containers), state, rows);
    assert PushesOf(run + [p]) == PushesOf(run) + [Push(p.ts, p.containers)];
  }

  lemma ReachedStep(
      setup: Setup, from: World, earlier: seq<Persisted>, notifier: Option<(nat, string)>, rec: Record, now: World,
      p: Persisted, state: Bucketer.State, rows: seq<Trend>, out: seq<Notify.Notification>, after: World)
    requires Reached(setup, from, earlier, notifier, rec, now)
    requires Publishes(setup, notifier, now, p, rows, out, after)
    requires Bucketer.NonEmpty(rec.states[|rec.run|].accs)
    requires Bucketer.Steps(setup.width, setup.host, rec.states[|rec.run|], p.ts, p.containers, state, rows)
    ensures Reached(setup, from, earlier, notifier, Extended(rec, p, state, rows, out), after)
  {
    RanStep(setup.width, setup.host, rec.run, rec.states, rec.flushes, p, state, rows);
    TableStep(from.table, rec.flushes, rec.run, rows, p, setup.trendRetention);
    RawStep(earlier, rec.run, p, setup.rawRetention);
    PublishedStep(from.published, rec.run, p, setup.cpuCount);
    FlatSnoc(rec.sent, out);
    if notifier.Some? && from.tracked == map[] {
      NotifiedStep(
        rec.run, now.tracked, rec.sent, notifier.value.0, notifier.value.1, p, after.tracked, out);
    }
  }

  function Extended(
      rec: Record, p: Persisted, state: Bucketer.State, rows: seq<Trend>, out: seq<Notify.Notification>): Record
  {
    Record(rec.run + [p], rec.states + [state], rec.flushes + [rows], rec.sent + [out])
  }

  // ----- The loop -----

  /** What the loop carries from tick to tick. */
  datatype Carried = Carried(world: World, state: Bucketer.State, primed: bool, cycle: nat)

  ghost predicate Going(
      setup: Setup, from: World, earlier: seq<Persisted>, notifier: Option<(nat, string)>, ticks: seq<Tick>,
      rec: Record, now: Carried)
    requires setup.every > 0
  {
    && rec.run == Schedule(setup.host, ticks, setup.every)
    && now.primed == (Successes(ticks) != []) && now.cycle == |rec.run|
    && Reached(setup, from, earlier, notifier, rec, now.world)
    && now.state == rec.states[|rec.run|]
  }

  lemma IdleTurn(
      setup: Setup, from: World, earlier: seq<Persisted>, notifier: Option<(nat, string)>, ticks: seq<Tick>,
      rec: Record, now: Carried, tick: Tick)
    requires setup.every > 0 && Going(setup, from, earlier, notifier, ticks, rec, now)
    requires tick.collected.None? || !now.primed
    ensures Going(setup, from, earlier, notifier, ticks + [tick], rec,
                  now.(primed := now.primed || tick.collected.Some?))
  {
    ScheduleStep(setup.host, ticks, tick, setup.every);
    assert (ticks + [tick])[..|ticks|] == ticks;
  }

  lemma PublishingTurn(
      setup: Setup, from: World, earlier: seq<Persisted>, notifier: Option<(nat, string)>, ticks: seq<Tick>,
      rec: Record, now: Carried, tick: Tick, rows: seq<Trend>, out: seq<Notify.Notification>, after: Carried)
    requires setup.every > 0 && Going(setup, from, earlier, notifier, ticks, rec, now)
    requires tick.collected.Some? && now.primed && after.primed && after.cycle == now.cycle + 1
    requires Publishes(setup, notifier, now.world, PersistedAt(setup.host, tick, now.cycle, setup.every),
                       rows, out, after.world)
    requires setup.width > 0 && Bucketer.NonEmpty(now.state.accs)
    requires Bucketer.Steps(setup.width, setup.host, now.state, tick.ts, tick.collected.value, after.state, rows)
    ensures Going(setup, from, earlier, notifier, ticks + [tick],
                  Extended(rec, PersistedAt(setup.host, tick, now.cycle, setup.every), after.state, rows, out), after)
  {
    ScheduleStep(setup.host, ticks, tick, setup.every);
    assert (ticks + [tick])[..|ticks|] == ticks;
    ReachedStep(setup, from, earlier, notifier, rec, now.world,
                PersistedAt(setup.host, tick, now.cycle, setup.every), after.state, rows, out, after.world);
  }

  lemma NotYetGoing(setup: Setup, from: World, earlier: seq<Persisted>, notifier: Option<(nat, string)>)
    requires setup.every > 0 && setup.width > 0
    ensures var state := Bucketer.State(None, map[]);
            Going(setup, from, earlier, notifier, [], Record([], [state], [], []), Carried(from, state, false, 0))
  {
    assert earlier + [] == earlier && from.published + [] == from.published;
  }

  ghost function WorldOf(
      raw: SampleStore, trends: TrendStore, notifier: Notify.Tracker?, shared: SharedDashboard): World
    reads raw, trends, notifier, shared
  {
    World(raw.samples, trends.trends, if notifier == null then map[] else notifier.states,
          shared.latest, shared.published)
  }

  function Names(notifier: Notify.Tracker?): Option<(nat, string)> {
    if notifier == null then None else Some((notifier.delayMs, notifier.host))
  }

  ghost function CarriedOf(c: Collector): Carried
    reads c, c.bucketer, c.raw, c.trends, c.notifier, c.shared
  {
    Carried(WorldOf(c.raw, c.trends, c.notifier, c.shared), c.bucketer.Contents(), c.primed, c.cycle)
  }

  function SetupOf(c: Collector): Setup {
    Setup(c.host, c.cpuCount, c.bucketer.bucketMs, c.pruneEvery, c.rawRetentionMs, c.trendRetentionMs)
  }

  /** One pass through the loop. */
  method Turn(
      c: Collector, tick: Tick, ghost from: World, ghost earlier: seq<Persisted>, ghost ticks: seq<Tick>,
      ghost rec: Record)
      returns (out: seq<Notify.Notification>, ghost longer: Record)
    requires c.Valid() && Going(SetupOf(c), from, earlier, Names(c.notifier), ticks, rec, CarriedOf(c))
    modifies c, c.bucketer, c.raw, c.trends, c.notifier, c.shared
    ensures c.Valid() && Going(SetupOf(c), from, earlier, Names(c.notifier), ticks + [tick], longer, CarriedOf(c))
    ensures Flat(longer.sent) == Flat(rec.sent) + out
  {
    ghost var now := CarriedOf(c);
    ghost var rows: seq<Trend>;
    out, rows := c.Cycle(tick.collected, tick.ts);
    if tick.collected.None? || !now.primed {
      IdleTurn(SetupOf(c), from, earlier, Names(c.notifier), ticks, rec, now, tick);
      longer := rec;
      assert Flat(rec.sent) + [] == Flat(rec.sent);
    } else {
      PublishingTurn(SetupOf(c), from, earlier, Names(c.notifier), ticks, rec, now, tick, rows, out, CarriedOf(c));
      FlatSnoc(rec.sent, out);
      longer := Extended(rec, PersistedAt(c.host, tick, now.cycle, c.pruneEvery), CarriedOf(c).state, rows, out);
    }
  }

  /** The loop over any number of ticks, from any stores. */
  method Run(
      host: string, cpuCount: nat, rawRetentionMs: nat, trendRetentionMs: nat, bucketSecs: nat, pruneInterval: nat,
      interval: nat, notifier: Notify.Tracker?, raw: SampleStore, trends: TrendStore, shared: SharedDashboard,
      ticks: seq<Tick>, ghost earlier: seq<Persisted>)
      returns (sent: seq<Notify.Notification>, ghost rec: Record)
    modifies raw, trends, notifier, shared
    ensures var every := PruneCadence(pruneInterval, interval);
            var setup := Setup(
              host, cpuCount, AtLeastOne(bucketSecs) * 1000, every, rawRetentionMs, trendRetentionMs);
            && rec.run == Schedule(host, ticks, every)
            && sent == Flat(rec.sent)
            && Reached(setup, old(WorldOf(raw, trends, notifier, shared)), earlier, Names(notifier), rec,
                       WorldOf(raw, trends, notifier, shared))
  {
    var c := new Collector(
      host, cpuCount, rawRetentionMs, trendRetentionMs, bucketSecs, pruneInterval, interval, notifier, raw, trends,
      shared);
    sent := [];
    rec := Record([], [c.bucketer.Contents()], [], []);
    ghost var from := WorldOf(raw, trends, notifier, shared);
    NotYetGoing(SetupOf(c), from, earlier, Names(notifier));
    for i := 0 to |ticks|
      invariant fresh(c) && fresh(c.bucketer) && c.Valid() && sent == Flat(rec.sent)
      invariant Going(SetupOf(c), from, earlier, Names(notifier), ticks[..i], rec, CarriedOf(c))
    {
      assert ticks[..i + 1] == ticks[..i] + [ticks[i]];
      var out: seq<Notify.Notification>;
      out, rec := Turn(c, ticks[i], from, earlier, ticks[..i], rec);
      sent := sent + out;
    }
    assert ticks[..|ticks|] == ticks;
  }

  // ----- What the charts show after a run -----

  lemma {:induction false} InsertsOfOps(flushes: seq<seq<Trend>>, run: seq<Persisted>, retention: nat)
    requires |flushes| == |run|
    ensures Inserts(OpsOf(flushes, run, retention)) == flushes
  {
    if run != [] {
      var n := |run| - 1;
      InsertsOfOps(flushes[..n], run[..n], retention);
      assert run == run[..n] + [run[n]] && flushes == flushes[..n] + [flushes[n]];
      InsertsOfStep(flushes[..n], run[..n], flushes[n], run[n], retention);
    }
  }

  lemma {:induction false} InsertsOfStep(
      flushes: seq<seq<Trend>>, run: seq<Persisted>, rows: seq<Trend>, p: Persisted, retention: nat)
    requires |flushes| == |run|
    ensures Inserts(OpsOf(flushes + [rows], run + [p], retention)) == Inserts(OpsOf(flushes, run, retention)) + [rows]
  {
    var ops := OpsOf(flushes, run, retention);
    OpsSnoc(flushes, run, rows, p, retention);
    InsertsSnoc(ops, Insert(rows));
    if p.prunes {
      InsertsSnoc(ops + [Insert(rows)], Prune(Cutoff(p.ts, retention)));
    }
  }

  lemma {:induction false} PrunesBelow(flushes: seq<seq<Trend>>, run: seq<Persisted>, retention: nat, since: nat)
    requires |flushes| == |run| && forall p | p in run :: Cutoff(p.ts, retention) <= since
    ensures forall op | op in OpsOf(flushes, run, retention) && op.Prune? :: op.before <= since
  {
    if run != [] {
      var n := |run| - 1;
      assert run[n] in run && forall p | p in run[..n] :: p in run;
      PrunesBelow(flushes[..n], run[..n], retention, since);
    }
  }

  lemma {:induction false} InsertsSnoc(ops: seq<Op>, op: Op)
    ensures Inserts(ops + [op]) == Inserts(ops) + if op.Insert? then [op.batch] else []
  {
    assert (ops + [op])[..|ops|] == ops;
  }

  lemma FlushPrefix(batches: seq<seq<Trend>>, t: Trend)
    requires batches != [] && t !in batches[|batches| - 1]
    ensures InFlush(batches[..|batches| - 1], t) <==> InFlush(batches, t)
  {
    var n := |batches| - 1;
    if InFlush(batches, t) {
      var k :| 0 <= k <= n && t in batches[k];
      assert t in batches[..n][k];
    }
  }

  lemma {:induction false} AllOf(batches: seq<seq<Trend>>, t: Trend)
    ensures t in All(batches) <==> InFlush(batches, t)
  {
    if batches != [] {
      var n := |batches| - 1;
      AllOf(batches[..n], t);
      if t !in batches[n] {
        FlushPrefix(batches, t);
      }
    }
  }

  /** What one start of the program left behind, with the retention it was configured with. */
  datatype Loop = Loop(
    width: nat, run: seq<Persisted>, states: seq<Bucketer.State>, flushes: seq<seq<Trend>>, retention: nat)

  function HostRunOf(l: Loop): HostRun {
    HostRun(l.width, PushesOf(l.run), l.states, l.flushes)
  }

  function HostRuns(loops: seq<Loop>): seq<HostRun> {
    seq(|loops|, k requires 0 <= k < |loops| => HostRunOf(loops[k]))
  }

  ghost predicate Looped(l: Loop, host: string) {
    |l.flushes| == |l.run| && Ran(HostRunOf(l), host)
  }

  ghost predicate AllLooped(loops: seq<Loop>, host: string) {
    forall l | l in loops :: Looped(l, host)
  }

  lemma FewerLooped(loops: seq<Loop>, host: string)
    requires AllLooped(loops, host) && loops != []
    ensures AllLooped(loops[..|loops| - 1], host) && Looped(loops[|loops| - 1], host)
  {
    assert loops[|loops| - 1] in loops && forall l | l in loops[..|loops| - 1] :: l in loops;
  }

  /** What the trend table went through, over one start of the program after another. */
  ghost function AllOps(loops: seq<Loop>, host: string): seq<Op>
    requires AllLooped(loops, host)
  {
    if loops == [] then []
    else
      var n := |loops| - 1;
      FewerLooped(loops, host);
      AllOps(loops[..n], host) + OpsOf(loops[n].flushes, loops[n].run, loops[n].retention)
  }

  /** The next start of the program goes on from the table the earlier ones left. */
  lemma {:induction false} TableAfterConcat(table: Table, a: seq<Op>, b: seq<Op>)
    ensures TableAfter(table, a + b) == TableAfter(TableAfter(table, a), b)
    decreases |b|
  {
    if b == [] {
      assert a + b == a;
    } else {
      assert (a + b)[..|a + b| - 1] == a + b[..|b| - 1];
      TableAfterConcat(table, a, b[..|b| - 1]);
    }
  }

  lemma {:induction false} InsertsConcat(a: seq<Op>, b: seq<Op>)
    ensures Inserts(a + b) == Inserts(a) + Inserts(b)
    decreases |b|
  {
    if b == [] {
      assert a + b == a && Inserts(a) + [] == Inserts(a);
    } else {
      var n := |b| - 1;
      assert a + b == (a + b[..n]) + [b[n]] && b == b[..n] + [b[n]];
      InsertsConcat(a, b[..n]);
      InsertsSnoc(a + b[..n], b[n]);
      InsertsSnoc(b[..n], b[n]);
      ConcatAssociates(Inserts(a), Inserts(b[..n]), if b[n].Insert? then [b[n].batch] else []);
    }
  }

  lemma {:induction false} InEither(a: seq<seq<Trend>>, b: seq<seq<Trend>>, t: Trend)
    ensures InFlush(a + b, t) <==> InFlush(a, t) || InFlush(b, t)
  {
    if k :| 0 <= k < |a| && t in a[k] {
      assert t in (a + b)[k];
    }
    if k :| 0 <= k < |b| && t in b[k] {
      assert t in (a + b)[|a| + k];
    }
  }

  function FlushesOf(loops: seq<Loop>): seq<seq<Trend>> {
    if loops == [] then [] else FlushesOf(loops[..|loops| - 1]) + loops[|loops| - 1].flushes
  }

  /** What the loops inserted is exactly what their bucketers flushed. */
  lemma {:induction false} InsertsOfLoops(loops: seq<Loop>, host: string)
    requires AllLooped(loops, host)
    ensures Inserts(AllOps(loops, host)) == FlushesOf(loops)
    decreases |loops|
  {
    if loops != [] {
      var n := |loops| - 1;
      FewerLooped(loops, host);
      InsertsOfLoops(loops[..n], host);
      InsertsConcat(AllOps(loops[..n], host), OpsOf(loops[n].flushes, loops[n].run, loops[n].retention));
      InsertsOfOps(loops[n].flushes, loops[n].run, loops[n].retention);
    }
  }

  lemma {:induction false} FlushedByLoops(loops: seq<Loop>, t: Trend)
    ensures InFlush(FlushesOf(loops), t) <==> InRuns(HostRuns(loops), t)
    decreases |loops|
  {
    if loops != [] {
      var n := |loops| - 1;
      var runs, fewer := HostRuns(loops), HostRuns(loops[..n]);
      FlushedByLoops(loops[..n], t);
      InEither(FlushesOf(loops[..n]), loops[n].flushes, t);
      assert runs == fewer + [HostRunOf(loops[n])];
      OneMoreRun(fewer, HostRunOf(loops[n]), t);
    }
  }

  lemma {:induction false} OneMoreRun(runs: seq<HostRun>, r: HostRun, t: Trend)
    ensures InRuns(runs + [r], t) <==> InRuns(runs, t) || InFlush(r.flushes, t)
  {
    if k :| 0 <= k < |runs| && InFlush(runs[k].flushes, t) {
      assert InFlush((runs + [r])[k].flushes, t);
    }
    if InFlush(r.flushes, t) {
      assert InFlush((runs + [r])[|runs|].flushes, t);
    }
  }

  lemma {:induction false} LoopsStored(loops: seq<Loop>, host: string)
    requires AllLooped(loops, host)
    ensures Stored(host, HostRuns(loops), Inserts(AllOps(loops, host)))
  {
    var runs := HostRuns(loops);
    forall k | 0 <= k < |runs| ensures Ran(runs[k], host) {
      assert loops[k] in loops;
    }
    InsertsOfLoops(loops, host);
    forall t: Trend ensures t in All(FlushesOf(loops)) <==> InRuns(runs, t) {
      AllOf(FlushesOf(loops), t);
      FlushedByLoops(loops, t);
    }
  }

  /** No clock ever showed more than `now`, and the window lies within every retention. */
  ghost predicate Retained(loops: seq<Loop>, now: nat, since: nat) {
    forall l | l in loops :: now <= since + l.retention && forall p | p in l.run :: p.ts <= now
  }

  lemma {:induction false} LoopsPrune(loops: seq<Loop>, host: string, now: nat, since: nat)
    requires AllLooped(loops, host) && Retained(loops, now, since)
    ensures PrunedBelow(AllOps(loops, host), since)
    decreases |loops|
  {
    if loops != [] {
      var n := |loops| - 1;
      assert loops[n] in loops && forall l | l in loops[..n] :: l in loops;
      LoopsPrune(loops[..n], host, now, since);
      PrunesBelow(loops[n].flushes, loops[n].run, loops[n].retention, since);
    }
  }

  /**
   * Main result: over any number of starts of the program, with clocks that never showed more than `now`, a chart
   * that stays within the trend retention is exact. Each point carries the least and greatest of all samples
   * attributed to the name in the closed buckets of its group.
   */
  lemma {:induction false} ChartsAreExact(
      loops: seq<Loop>, host: string, now: nat, name: string, m: Metric,
      since: nat, until: nat, group: nat, i: nat)
    requires AllLooped(loops, host) && Retained(loops, now, since)
    requires i < |ChartAfter(AllOps(loops, host), host, name, since, until, group)|
    ensures var p := ChartAfter(AllOps(loops, host), host, name, since, until, group)[i];
            var samples := GroupSamples(HostRuns(loops), name, m, since, until, AtLeastOne(group), p.ts);
            IsLeast(p.cols.At(m).min, samples) && IsGreatest(p.cols.At(m).max, samples)
  {
    LoopsStored(loops, host);
    LoopsPrune(loops, host, now, since);
    ChartIsSamples(host, HostRuns(loops), AllOps(loops, host), name, m, since, until, group, i);
  }

  /** And no group with a sample is missing from it. */
  lemma {:induction false} ChartsAreComplete(
      loops: seq<Loop>, host: string, now: nat, name: string,
      since: nat, until: nat, group: nat, start: nat)
    requires AllLooped(loops, host) && Retained(loops, now, since)
    ensures (exists p :: p in ChartAfter(AllOps(loops, host), host, name, since, until, group) && p.ts == start)
       <==> exists m :: GroupSamples(HostRuns(loops), name, m, since, until, AtLeastOne(group), start) != {}
  {
    LoopsStored(loops, host);
    LoopsPrune(loops, host, now, since);
    ChartHasEveryGroup(host, HostRuns(loops), AllOps(loops, host), name, since, until, group, start);
  }

  /** A run keeps every metric's columns all NULL or ordered, whatever such table it starts from. */
  lemma {:induction false} RunKeepsOrder(
      width: nat, host: string, run: seq<Persisted>, states: seq<Bucketer.State>, flushes: seq<seq<Trend>>,
      retention: nat, table: Table)
    requires IsRun(width, host, PushesOf(run), states, flushes) && TableOk(table)
    ensures TableOk(TableAfter(table, OpsOf(flushes, run, retention)))
  {
    var ops := OpsOf(flushes, run, retention);
    InsertsOfOps(flushes, run, retention);
    forall op | op in ops && op.Insert? ensures forall t | t in op.batch && t.metric.Known? :: TrendOk(t) {
      InsertIsBatch(ops, op);
      var k :| 0 <= k < |flushes| && flushes[k] == op.batch;
      forall t | t in op.batch ensures TrendOk(t) {
        assert InFlush(flushes, t);
        FlushedRowsOrdered(width, host, PushesOf(run), states, flushes, t);
      }
    }
    ReachableOrdered(table, ops);
  }

  lemma {:induction false} InsertIsBatch(ops: seq<Op>, op: Op)
    requires op in ops && op.Insert?
    ensures op.batch in Inserts(ops)
  {
    var n := |ops| - 1;
    if op != ops[n] {
      InsertIsBatch(ops[..n], op);
    }
  }

  // ----- A clock that steps back -----

  /** A container sampled at 0 s, 11 s and 100 s, where the first collection only primes. */
  function SteppingTicks(c: Container): seq<Tick> {
    [Tick(Some([c]), 0), Tick(Some([c]), 11_000), Tick(Some([]), 100_000)]
  }

  lemma SteppingSchedule(c: Container, every: nat)
    requires every == 1
    ensures Schedule("local", SteppingTicks(c), every)
         == [Persisted("local", 11_000, [c], true), Persisted("local", 100_000, [], true)]
  {
    var ticks := SteppingTicks(c);
    var one, two := [ticks[0]], [ticks[0], ticks[1]];
    assert one[..0] == [] && two[..1] == one && ticks[..2] == two;
    assert Successes(one) == one && Successes(two) == one + [ticks[1]] == two;
    assert Successes(ticks) == two + [ticks[2]] == ticks;
    var run := Schedule("local", ticks, 1);
    assert run[0] == PersistedAt("local", ticks[1], 0, 1) && run[1] == PersistedAt("local", ticks[2], 1, 1);
  }

  /**
   * With ten seconds of retention and a prune each cycle, the cycle at 100 s cuts the sample at 11 s. Once the clock
   * is back at 15 s, a request from 6 s on is served from raw samples, and misses it.
   */
  lemma SteppedBackClockLoses(c: Container, table: Table, name: Option<string>)
    ensures var run := Schedule("local", SteppingTicks(c), PruneCadence(5, 5));
            var w := ResolveHistory(HistoryQuery(None, Some(6_000), Some(15_000)), 15_000, 10_000);
            && w.Some? && w.value.raw && w.value.since <= w.value.until
            && Answer(w.value, RawAfter(run, 10_000), table, "local", c.id, name) == []
            && Answer(w.value, Logged(run), table, "local", c.id, name) != []
  {
    SteppingSchedule(c, PruneCadence(5, 5));
    SteppingTables(c);
    OneSampleShows(Sample("local", 11_000, c), 6_000, 15_000);
  }

  /** Without samples a raw answer is empty; with one in the window it is not. */
  lemma OneSampleShows(s: Sample, since: nat, until: nat)
    requires since <= s.ts <= until
    ensures RawAnswer([], s.host, s.container.id, since, until) == []
    ensures RawAnswer([s], s.host, s.container.id, since, until) != []
  {
    var g := RawGroupForWindow(until - since);
    GroupsAscend([], g);
    RawIncluded([s], s.host, s.container.id, since, until, s);
    var i := FinePointOf(RawPoints([s], s.host, s.container.id, since, until), g, RawPoint(s));
  }

  lemma SteppingTables(c: Container)
    ensures var run := [Persisted("local", 11_000, [c], true), Persisted("local", 100_000, [], true)];
            RawAfter(run, 10_000) == [] && Logged(run) == [Sample("local", 11_000, c)]
  {
    var first, second := Persisted("local", 11_000, [c], true), Persisted("local", 100_000, [], true);
    var s := Sample("local", 11_000, c);
    assert [first, second][..1] == [first] && [first][..0] == [];
    assert RowsOf("local", 11_000, [c]) == [s] && RowsOf("local", 100_000, []) == [] && [s][..0] == [];
    assert [] + [s] == [s] && [s] + [] == [s];
    assert CutBefore([s], 1_000) == [s] && CutBefore([s], 90_000) == [];
    assert RawAfter([], 10_000) == [] && Logged([]) == [];
    assert RawAfter([first], 10_000) == PersistRaw([], first, 10_000) == [s];
    assert RawAfter([first, second], 10_000) == PersistRaw([s], second, 10_000);
    assert Logged([first]) == [s];
  }
}
