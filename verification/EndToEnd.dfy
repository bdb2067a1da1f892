/** From readings to charts: what a container's history says about the samples that were pushed. */
module EndToEnd {
  import opened Prelude
  import opened Model
  import opened Bucketer
  import opened BucketTrace
  import opened TrendTable
  import opened TableInvariants
  import opened History

  /** One run of a host's bucketer, from a start of the program to its end; the width may differ between runs. */
  datatype HostRun = HostRun(width: nat, pushes: seq<Push>, states: seq<State>, flushes: seq<seq<Trend>>)

  ghost predicate Ran(r: HostRun, host: string) {
    IsRun(r.width, host, r.pushes, r.states, r.flushes)
  }

  ghost predicate InRuns(runs: seq<HostRun>, t: Trend) {
    exists k :: 0 <= k < |runs| && InFlush(runs[k].flushes, t)
  }

  /** A host's runs, and the batches any hosts' collectors inserted: of this host, exactly the rows its runs flushed. */
  ghost predicate Stored(host: string, runs: seq<HostRun>, batches: seq<seq<Trend>>) {
    && (forall k | 0 <= k < |runs| :: Ran(runs[k], host))
    && forall t: Trend :: t.host == host ==> (t in All(batches) <==> InRuns(runs, t))
  }

  ghost predicate InFlush(flushes: seq<seq<Trend>>, t: Trend) {
    exists n :: 0 <= n < |flushes| && t in flushes[n]
  }

  /** Bucket `b` was open once, and a later one is open now. */
  ghost predicate IsClosed(width: nat, pushes: seq<Push>, b: nat)
    requires width > 0
  {
    pushes != [] && b < OpenBucket(width, pushes)
    && exists n :: 0 < n <= |pushes| && OpenBucket(width, pushes[..n]) == b
  }

  /** The samples attributed to `name` in bucket `b`. */
  ghost function BucketSamples(width: nat, pushes: seq<Push>, name: string, m: Metric, b: nat): set<real>
    requires width > 0
  {
    Attributed(BucketReadings(width, pushes, b), name, m)
  }

  /** The push after which bucket `b` closes. */
  lemma {:induction false} ClosingPush(width: nat, pushes: seq<Push>, b: nat, n: nat) returns (k: nat)
    requires width > 0 && 0 < n <= |pushes|
    requires OpenBucket(width, pushes[..n]) == b && b < OpenBucket(width, pushes)
    ensures 0 < k < |pushes|
    ensures OpenBucket(width, pushes[..k]) == b && b < OpenBucket(width, pushes[..k + 1])
    decreases |pushes| - n
  {
    assert pushes[..|pushes|] == pushes;
    OpenBucketGrows(width, pushes, n, n + 1);
    if OpenBucket(width, pushes[..n + 1]) == b {
      k := ClosingPush(width, pushes, b, n + 1);
    } else {
      k := n;
    }
  }

  /** A closed bucket was flushed from exactly its readings. */
  lemma FlushOf(
      width: nat, host: string, pushes: seq<Push>, states: seq<State>, flushes: seq<seq<Trend>>, b: nat)
      returns (k: nat)
    requires IsRun(width, host, pushes, states, flushes) && IsClosed(width, pushes, b)
    ensures k < |flushes|
    ensures var rs := BucketReadings(width, pushes, b);
            NonEmpty(Folded(rs)) && Drains(flushes[k], Folded(rs), b, width / 1000, host)
  {
    var n :| 0 < n <= |pushes| && OpenBucket(width, pushes[..n]) == b;
    k := ClosingPush(width, pushes, b, n);
    FlushIsClosedBucket(width, host, pushes, states, flushes, k);
  }

  /** A flushed row belongs to a closed bucket, and its extremes are samples of it. */
  lemma FlushedRow(
      width: nat, host: string, pushes: seq<Push>, states: seq<State>, flushes: seq<seq<Trend>>, t: Trend)
    requires IsRun(width, host, pushes, states, flushes) && InFlush(flushes, t)
    ensures IsClosed(width, pushes, t.bucketStart) && t.metric.Known? && t.host == host
    ensures t.min in BucketSamples(width, pushes, t.name, t.metric.metric, t.bucketStart)
    ensures t.max in BucketSamples(width, pushes, t.name, t.metric.metric, t.bucketStart)
  {
    var n :| 0 <= n < |flushes| && t in flushes[n];
    FlushIsClosedBucket(width, host, pushes, states, flushes, n);
    var b := OpenBucket(width, pushes[..n]);
    assert pushes[..|pushes|] == pushes;
    OpenBucketGrows(width, pushes, n + 1, |pushes|);
    RowExtremes(flushes[n], BucketReadings(width, pushes, b), b, width / 1000, host, t);
  }

  /** The samples attributed to `name` in bucket `b`, if the run closed that bucket. */
  ghost function ClosedSamples(r: HostRun, name: string, m: Metric, b: nat): set<real> {
    if r.width > 0 && IsClosed(r.width, r.pushes, b) then BucketSamples(r.width, r.pushes, name, m, b) else {}
  }

  /** All samples attributed to `name` in bucket `b`, over the runs that closed it. */
  ghost function StoredSamples(runs: seq<HostRun>, name: string, m: Metric, b: nat): set<real> {
    set k, v | 0 <= k < |runs| && v in ClosedSamples(runs[k], name, m, b) :: v
  }

  /** A sample of a closed bucket has a stored row around it. */
  lemma StoredAround(
      host: string, runs: seq<HostRun>, batches: seq<seq<Trend>>, name: string, m: Metric, b: nat, v: real)
      returns (t: Trend)
    requires Stored(host, runs, batches) && v in StoredSamples(runs, name, m, b)
    ensures t in All(batches) && Matches(t, RowKey(host, name, b), m) && t.min <= v <= t.max
  {
    var k :| 0 <= k < |runs| && v in ClosedSamples(runs[k], name, m, b);
    var r := runs[k];
    var n := FlushOf(r.width, host, r.pushes, r.states, r.flushes, b);
    t := SampleHasRow(r.flushes[n], BucketReadings(r.width, r.pushes, b), b, r.width / 1000, host, name, m, v);
    assert InFlush(r.flushes, t) && InRuns(runs, t);
  }

  /** The extremes of a stored row are samples. */
  lemma {:induction false} StoredRow(host: string, runs: seq<HostRun>, batches: seq<seq<Trend>>, t: Trend)
    requires Stored(host, runs, batches) && t in All(batches) && t.host == host
    ensures t.metric.Known?
    ensures t.min in StoredSamples(runs, t.name, t.metric.metric, t.bucketStart)
    ensures t.max in StoredSamples(runs, t.name, t.metric.metric, t.bucketStart)
  {
    var k :| 0 <= k < |runs| && InFlush(runs[k].flushes, t);
    var r := runs[k];
    FlushedRow(r.width, host, r.pushes, r.states, r.flushes, t);
    assert t.min in ClosedSamples(r, t.name, t.metric.metric, t.bucketStart);
    assert t.max in ClosedSamples(r, t.name, t.metric.metric, t.bucketStart);
  }

  /** A row is in the table exactly when some run closed its bucket with some sample of the name. */
  lemma {:induction false} RowIffSamples(
      host: string, runs: seq<HostRun>, batches: seq<seq<Trend>>, name: string, b: nat)
    requires Stored(host, runs, batches)
    ensures RowKey(host, name, b) in Batches(batches) <==> exists m :: StoredSamples(runs, name, m, b) != {}
  {
    var key := RowKey(host, name, b);
    TableExtremes(batches, key, Cpu);
    if key in Batches(batches) {
      var t :| t in All(batches) && KeyOf(t) == key && t.metric.Known?;
      StoredRow(host, runs, batches, t);
      assert StoredSamples(runs, name, t.metric.metric, b) != {};
    }
    if m :| StoredSamples(runs, name, m, b) != {} {
      var v :| v in StoredSamples(runs, name, m, b);
      var t := StoredAround(host, runs, batches, name, m, b, v);
    }
  }

  /** Main result on rows: a stored row's extremes are the least and greatest sample of its bucket and name. */
  lemma {:induction false} RowEnvelope(
      host: string, runs: seq<HostRun>, batches: seq<seq<Trend>>, name: string, m: Metric, b: nat)
    requires Stored(host, runs, batches) && RowKey(host, name, b) in Batches(batches)
    ensures IsLeast(Batches(batches)[RowKey(host, name, b)].cols.At(m).min, StoredSamples(runs, name, m, b))
    ensures IsGreatest(Batches(batches)[RowKey(host, name, b)].cols.At(m).max, StoredSamples(runs, name, m, b))
  {
    var key, all := RowKey(host, name, b), All(batches);
    var cols, samples := Batches(batches)[key].cols.At(m), StoredSamples(runs, name, m, b);
    TableExtremes(batches, key, m);
    forall v | v in samples ensures cols.min.Some? && cols.min.value <= v && cols.max.Some? && v <= cols.max.value {
      var t := StoredAround(host, runs, batches, name, m, b, v);
      assert t.min in Mins(all, key, m) && t.max in Maxs(all, key, m);
    }
    if cols.min.Some? {
      var t :| t in all && Matches(t, key, m) && t.min == cols.min.value;
      StoredRow(host, runs, batches, t);
    }
    if cols.max.Some? {
      var t :| t in all && Matches(t, key, m) && t.max == cols.max.value;
      StoredRow(host, runs, batches, t);
    }
  }

  // ----- History -----

  /** The `n`-th push left a bucket open that is closed by now and lies in the window and in the group. */
  ghost predicate Contributes(
      width: nat, pushes: seq<Push>, since: nat, until: nat, g: nat, start: nat, n: nat)
    requires width > 0 && g > 0 && 0 < n <= |pushes|
  {
    var b := OpenBucket(width, pushes[..n]);
    b < OpenBucket(width, pushes) && since <= b <= until && Start(b, g) == start
  }

  /** The samples of one run in its closed buckets of the window that fall into one group. */
  ghost function RunGroupSamples(
      r: HostRun, name: string, m: Metric, since: nat, until: nat, g: nat, start: nat): set<real>
    requires g > 0
  {
    if r.width == 0 then {}
    else
      set n, v | 1 <= n <= |r.pushes| && Contributes(r.width, r.pushes, since, until, g, start, n)
                 && v in BucketSamples(r.width, r.pushes, name, m, OpenBucket(r.width, r.pushes[..n])) :: v
  }

  /** All samples attributed to `name` in the closed buckets of the window that fall into one group, over all runs. */
  ghost function GroupSamples(
      runs: seq<HostRun>, name: string, m: Metric, since: nat, until: nat, g: nat, start: nat): set<real>
    requires g > 0
  {
    set k, v | 0 <= k < |runs| && v in RunGroupSamples(runs[k], name, m, since, until, g, start) :: v
  }

  ghost predicate InGroupOf(b: nat, since: nat, until: nat, g: nat, start: nat)
    requires g > 0
  {
    since <= b <= until && Start(b, g) == start
  }

  lemma RunGroupSamplesAre(
      r: HostRun, name: string, m: Metric, since: nat, until: nat, g: nat, start: nat, v: real)
    requires g > 0
    ensures v in RunGroupSamples(r, name, m, since, until, g, start)
       <==> exists b :: InGroupOf(b, since, until, g, start) && v in ClosedSamples(r, name, m, b)
  {
    if v in RunGroupSamples(r, name, m, since, until, g, start) {
      var n :| 1 <= n <= |r.pushes| && Contributes(r.width, r.pushes, since, until, g, start, n)
               && v in BucketSamples(r.width, r.pushes, name, m, OpenBucket(r.width, r.pushes[..n]));
      var b := OpenBucket(r.width, r.pushes[..n]);
      assert IsClosed(r.width, r.pushes, b);
      assert InGroupOf(b, since, until, g, start) && v in ClosedSamples(r, name, m, b);
    }
    if b :| InGroupOf(b, since, until, g, start) && v in ClosedSamples(r, name, m, b) {
      var n :| 0 < n <= |r.pushes| && OpenBucket(r.width, r.pushes[..n]) == b;
      assert Contributes(r.width, r.pushes, since, until, g, start, n);
    }
  }

  lemma GroupSamplesAre(
      runs: seq<HostRun>, name: string, m: Metric, since: nat, until: nat, g: nat, start: nat, v: real)
    requires g > 0
    ensures v in GroupSamples(runs, name, m, since, until, g, start)
       <==> exists b :: InGroupOf(b, since, until, g, start) && v in StoredSamples(runs, name, m, b)
  {
    if v in GroupSamples(runs, name, m, since, until, g, start) {
      var k :| 0 <= k < |runs| && v in RunGroupSamples(runs[k], name, m, since, until, g, start);
      RunGroupSamplesAre(runs[k], name, m, since, until, g, start, v);
      var b :| InGroupOf(b, since, until, g, start) && v in ClosedSamples(runs[k], name, m, b);
      assert v in StoredSamples(runs, name, m, b);
    }
    if b :| InGroupOf(b, since, until, g, start) && v in StoredSamples(runs, name, m, b) {
      var k :| 0 <= k < |runs| && v in ClosedSamples(runs[k], name, m, b);
      RunGroupSamplesAre(runs[k], name, m, since, until, g, start, v);
    }
  }

  lemma ContainerPointsAre(table: Table, host: string, name: string, since: nat, until: nat, p: Point)
    ensures p in ContainerPoints(table, host, name, since, until)
       <==> since <= p.ts <= until && RowKey(host, name, p.ts) in table
            && p.cols == table[RowKey(host, name, p.ts)].cols
  {
    var starts, ps := ContainerStarts(table, host, name, since, until),
                      ContainerPoints(table, host, name, since, until);
    SortedIs(starts);
    if p in ps {
      var i :| 0 <= i < |ps| && ps[i] == p;
      assert Sorted(starts)[i] in starts;
    }
    if since <= p.ts <= until && RowKey(host, name, p.ts) in table
       && p.cols == table[RowKey(host, name, p.ts)].cols {
      assert RowKey(host, name, p.ts).bucketStart in starts;
      var i :| 0 <= i < |Sorted(starts)| && Sorted(starts)[i] == p.ts;
      assert ps[i] == p;
    }
  }

  /** The extremes over a group's rows are the extremes over its samples. */
  lemma {:induction false} GroupEnvelope(
      host: string, runs: seq<HostRun>, batches: seq<seq<Trend>>, name: string, m: Metric,
      since: nat, until: nat, g: nat, start: nat, lo: Option<real>, hi: Option<real>)
    requires Stored(host, runs, batches) && g > 0
    requires var group := InGroup(ContainerPoints(Batches(batches), host, name, since, until), g, start);
             IsLeast(lo, MinVals(group, m)) && IsGreatest(hi, MaxVals(group, m))
    ensures IsLeast(lo, GroupSamples(runs, name, m, since, until, g, start))
    ensures IsGreatest(hi, GroupSamples(runs, name, m, since, until, g, start))
  {
    var table := Batches(batches);
    var ps := ContainerPoints(table, host, name, since, until);
    var group, samples := InGroup(ps, g, start), GroupSamples(runs, name, m, since, until, g, start);
    InGroupIs(ps, g, start);
    forall v | v in samples ensures lo.Some? && lo.value <= v && hi.Some? && v <= hi.value {
      var p := PointAround(host, runs, batches, name, m, since, until, g, start, v);
      assert p.cols.At(m).min.value in MinVals(group, m) && p.cols.At(m).max.value in MaxVals(group, m);
    }
    forall p | p in group
      ensures p.cols.At(m).min.Some? ==> p.cols.At(m).min.value in samples
      ensures p.cols.At(m).max.Some? ==> p.cols.At(m).max.value in samples
    {
      PointSamples(host, runs, batches, name, m, since, until, g, start, p);
    }
  }

  /** A sample of a group lies between the extremes of one of its rows. */
  lemma PointAround(
      host: string, runs: seq<HostRun>, batches: seq<seq<Trend>>, name: string, m: Metric,
      since: nat, until: nat, g: nat, start: nat, v: real) returns (p: Point)
    requires Stored(host, runs, batches) && g > 0 && v in GroupSamples(runs, name, m, since, until, g, start)
    ensures p in ContainerPoints(Batches(batches), host, name, since, until) && Start(p.ts, g) == start
    ensures var c := p.cols.At(m); c.min.Some? && c.max.Some? && c.min.value <= v <= c.max.value
  {
    GroupSamplesAre(runs, name, m, since, until, g, start, v);
    var b :| InGroupOf(b, since, until, g, start) && v in StoredSamples(runs, name, m, b);
    RowIffSamples(host, runs, batches, name, b);
    RowEnvelope(host, runs, batches, name, m, b);
    p := Point(b, Batches(batches)[RowKey(host, name, b)].cols);
    ContainerPointsAre(Batches(batches), host, name, since, until, p);
  }

  /** The extremes of a row of a group are samples of it. */
  lemma {:induction false} PointSamples(
      host: string, runs: seq<HostRun>, batches: seq<seq<Trend>>, name: string, m: Metric,
      since: nat, until: nat, g: nat, start: nat, p: Point)
    requires Stored(host, runs, batches) && g > 0
    requires p in ContainerPoints(Batches(batches), host, name, since, until) && Start(p.ts, g) == start
    ensures var c, samples := p.cols.At(m), GroupSamples(runs, name, m, since, until, g, start);
            && (c.min.Some? ==> c.min.value in samples)
            && (c.max.Some? ==> c.max.value in samples)
  {
    var c := p.cols.At(m);
    ContainerPointsAre(Batches(batches), host, name, since, until, p);
    RowEnvelope(host, runs, batches, name, m, p.ts);
    assert InGroupOf(p.ts, since, until, g, start);
    if c.min.Some? {
      GroupSamplesAre(runs, name, m, since, until, g, start, c.min.value);
    }
    if c.max.Some? {
      GroupSamplesAre(runs, name, m, since, until, g, start, c.max.value);
    }
  }

  /**
   * Main result: over any runs of a host, with any batching and nothing pruned, each point of a container's history
   * carries as minimum and maximum exactly the least and greatest of all samples attributed to the name in the
   * closed buckets of that group, and NULL exactly when there are none.
   */
  lemma {:induction false} HistoryIsSamples(
      host: string, runs: seq<HostRun>, batches: seq<seq<Trend>>, name: string, m: Metric,
      since: nat, until: nat, group: nat, i: nat)
    requires Stored(host, runs, batches)
    requires i < |HistoryContainer(Batches(batches), host, name, since, until, group)|
    ensures var p := HistoryContainer(Batches(batches), host, name, since, until, group)[i];
            var samples := GroupSamples(runs, name, m, since, until, AtLeastOne(group), p.ts);
            IsLeast(p.cols.At(m).min, samples) && IsGreatest(p.cols.At(m).max, samples)
  {
    var g := AtLeastOne(group);
    var ps := ContainerPoints(Batches(batches), host, name, since, until);
    var p := Downsample(ps, g)[i];
    PointExtremes(ps, g, i, m);
    GroupEnvelope(host, runs, batches, name, m, since, until, g, p.ts, p.cols.At(m).min, p.cols.At(m).max);
  }

  /** A group has a point exactly when it has a sample of some metric: no sampled group is missing from a chart. */
  lemma {:induction false} HistoryHasEveryGroup(
      host: string, runs: seq<HostRun>, batches: seq<seq<Trend>>, name: string,
      since: nat, until: nat, group: nat, start: nat)
    requires Stored(host, runs, batches)
    ensures (exists p :: p in HistoryContainer(Batches(batches), host, name, since, until, group) && p.ts == start)
       <==> exists m :: GroupSamples(runs, name, m, since, until, AtLeastOne(group), start) != {}
  {
    var g := AtLeastOne(group);
    var ps := ContainerPoints(Batches(batches), host, name, since, until);
    var out := Downsample(ps, g);
    if p :| p in out && p.ts == start {
      var i :| 0 <= i < |out| && out[i] == p;
      var q := InputOf(ps, g, i);
      ContainerPointsAre(Batches(batches), host, name, since, until, q);
      RowIffSamples(host, runs, batches, name, q.ts);
      var m :| StoredSamples(runs, name, m, q.ts) != {};
      var v :| v in StoredSamples(runs, name, m, q.ts);
      assert InGroupOf(q.ts, since, until, g, start);
      GroupSamplesAre(runs, name, m, since, until, g, start, v);
    }
    if m :| GroupSamples(runs, name, m, since, until, g, start) != {} {
      var v :| v in GroupSamples(runs, name, m, since, until, g, start);
      var q := PointAround(host, runs, batches, name, m, since, until, g, start, v);
      var i := FinePointOf(ps, g, q);
      assert out[i] in out && out[i].ts == start;
    }
  }

  /** Every row the bucketer emits is ordered and sampled, so every table built from runs keeps its columns ordered. */
  lemma FlushedRowsOrdered(
      width: nat, host: string, pushes: seq<Push>, states: seq<State>, flushes: seq<seq<Trend>>, t: Trend)
    requires IsRun(width, host, pushes, states, flushes) && InFlush(flushes, t)
    ensures TrendOk(t)
  {
    var n :| 0 <= n < |flushes| && t in flushes[n];
    FlushIsClosedBucket(width, host, pushes, states, flushes, n);
    var b := OpenBucket(width, pushes[..n]);
    RowsSound(flushes[n], Folded(BucketReadings(width, pushes, b)), b, width / 1000, host);
  }

  // ----- Pruning -----

  /** The batches among a sequence of inserts and prunes. */
  function Inserts(ops: seq<Op>): seq<seq<Trend>> {
    if ops == [] then []
    else Inserts(ops[..|ops| - 1]) + match ops[|ops| - 1] case Insert(batch) => [batch] case Prune(_) => []
  }

  lemma {:induction false} UnprunedRow(ops: seq<Op>, key: RowKey)
    requires forall op | op in ops && op.Prune? :: op.before <= key.bucketStart
    ensures key in TableAfter(map[], ops) <==> key in Batches(Inserts(ops))
    ensures key in TableAfter(map[], ops) ==> TableAfter(map[], ops)[key] == Batches(Inserts(ops))[key]
  {
    if ops != [] {
      var n := |ops| - 1;
      assert ops[n] in ops && forall op | op in ops[..n] :: op in ops;
      UnprunedRow(ops[..n], key);
      match ops[n] {
        case Insert(batch) =>
          assert (Inserts(ops[..n]) + [batch])[..|Inserts(ops[..n])|] == Inserts(ops[..n]);
        case Prune(_) =>
          assert Inserts(ops[..n]) + [] == Inserts(ops[..n]);
      }
    }
  }

  /** A window that starts at or above every cutoff has the history of a table that was never pruned. */
  lemma {:induction false} PruningKeepsWindow(
      ops: seq<Op>, host: string, name: string, since: nat, until: nat, group: nat)
    requires forall op | op in ops && op.Prune? :: op.before <= since
    ensures HistoryContainer(TableAfter(map[], ops), host, name, since, until, group)
         == HistoryContainer(Batches(Inserts(ops)), host, name, since, until, group)
  {
    var pruned, whole := TableAfter(map[], ops), Batches(Inserts(ops));
    forall key: RowKey | key.bucketStart >= since
      ensures key in pruned <==> key in whole
      ensures key in pruned ==> pruned[key] == whole[key]
    {
      UnprunedRow(ops, key);
    }
    var starts := ContainerStarts(pruned, host, name, since, until);
    assert starts == ContainerStarts(whole, host, name, since, until);
    SortedIs(starts);
    var ps, qs := ContainerPoints(pruned, host, name, since, until), ContainerPoints(whole, host, name, since, until);
    forall i | 0 <= i < |ps| ensures ps[i] == qs[i] {
      assert Sorted(starts)[i] in starts;
    }
    assert ps == qs;
  }

  /** The chart of a table that any inserts and prunes led to. */
  ghost function ChartAfter(
      ops: seq<Op>, host: string, name: string, since: nat, until: nat, group: nat): seq<Point>
  {
    HistoryContainer(TableAfter(map[], ops), host, name, since, until, group)
  }

  ghost predicate PrunedBelow(ops: seq<Op>, since: nat) {
    forall op | op in ops && op.Prune? :: op.before <= since
  }

  /** Main result with retention: whatever hosts inserted and pruned, a chart above every cutoff is exact. */
  lemma {:induction false} ChartIsSamples(
      host: string, runs: seq<HostRun>, ops: seq<Op>, name: string, m: Metric,
      since: nat, until: nat, group: nat, i: nat)
    requires Stored(host, runs, Inserts(ops)) && PrunedBelow(ops, since)
    requires i < |ChartAfter(ops, host, name, since, until, group)|
    ensures var p := ChartAfter(ops, host, name, since, until, group)[i];
            var samples := GroupSamples(runs, name, m, since, until, AtLeastOne(group), p.ts);
            IsLeast(p.cols.At(m).min, samples) && IsGreatest(p.cols.At(m).max, samples)
  {
    PruningKeepsWindow(ops, host, name, since, until, group);
    HistoryIsSamples(host, runs, Inserts(ops), name, m, since, until, group, i);
  }

  lemma {:induction false} ChartHasEveryGroup(
      host: string, runs: seq<HostRun>, ops: seq<Op>, name: string,
      since: nat, until: nat, group: nat, start: nat)
    requires Stored(host, runs, Inserts(ops)) && PrunedBelow(ops, since)
    ensures (exists p :: p in ChartAfter(ops, host, name, since, until, group) && p.ts == start)
       <==> exists m :: GroupSamples(runs, name, m, since, until, AtLeastOne(group), start) != {}
  {
    PruningKeepsWindow(ops, host, name, since, until, group);
    HistoryHasEveryGroup(host, runs, Inserts(ops), name, since, until, group, start);
  }
}
