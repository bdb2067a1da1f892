/** What the medians of the trend table say about the samples. */
module Medians {
  import opened Prelude
  import opened Model
  import Stats
  import opened Bucketer
  import opened BucketTrace
  import opened TrendTable
  import opened TableInvariants
  import opened EndToEnd

  // ----- Bounds on stored medians -----

  /** The rows of a key are sampled, and the medians of one metric of it lie within bounds. */
  ghost predicate MediansWithin(trends: seq<Trend>, key: RowKey, m: Metric, lo: real, hi: real) {
    forall t | t in trends && KeyOf(t) == key && t.metric.Known? ::
      t.samples > 0 && (t.metric == Known(m) ==> lo <= t.median <= hi)
  }

  /** A stored row is sampled, and its median is there with its extremes and lies within the bounds. */
  ghost predicate MedianWithin(row: Wide, m: Metric, lo: real, hi: real) {
    var c := row.cols.At(m);
    && row.samples > 0 && (c.min.Some? <==> c.med.Some?)
    && (c.med.Some? ==> lo <= c.med.value <= hi)
  }

  lemma {:induction false} EnvelopesWithin(trends: seq<Trend>, key: RowKey, m: Metric, lo: real, hi: real)
    requires MediansWithin(trends, key, m, lo, hi)
    ensures forall e | e in EnvelopesOf(trends, key, m) :: e.samples > 0 && lo <= e.median <= hi
  {
    if trends != [] {
      var n := |trends| - 1;
      assert trends[n] in trends && forall t | t in trends[..n] :: t in trends;
      EnvelopesWithin(trends[..n], key, m, lo, hi);
    }
  }

  lemma {:induction false} MergedWithin(es: seq<Envelope>, lo: real, hi: real)
    requires es != [] && forall e | e in es :: e.samples > 0 && lo <= e.median <= hi
    ensures MergeAll(es).samples > 0 && lo <= MergeAll(es).median <= hi
  {
    var n := |es| - 1;
    assert es[n] in es;
    if n > 0 {
      assert forall e | e in es[..n] :: e in es;
      MergedWithin(es[..n], lo, hi);
      var a, b := MergeAll(es[..n]), es[n];
      MeanBetween(a.median, a.samples, b.median, b.samples, lo, hi);
    }
  }

  /** A pivoted row counts at least the samples of each of its metrics. */
  lemma {:induction false} PivotSampled(trends: seq<Trend>, key: RowKey, m: Metric)
    requires key in Pivot(trends) && m in Pivot(trends)[key].metrics
    ensures Pivot(trends)[key].samples >= Pivot(trends)[key].metrics[m].samples
  {
    var n := |trends| - 1;
    if key in Pivot(trends[..n]) && m in Pivot(trends[..n])[key].metrics {
      PivotSampled(trends[..n], key, m);
    }
  }

  lemma {:induction false} PivotWithin(batch: seq<Trend>, key: RowKey, m: Metric, lo: real, hi: real)
    requires MediansWithin(batch, key, m, lo, hi) && key in Pivot(batch)
    ensures MedianWithin(Inserted(Pivot(batch)[key]), m, lo, hi)
  {
    PivotKeys(batch, key);
    var t :| t in batch && KeyOf(t) == key && t.metric.Known?;
    var k := t.metric.metric;
    SampledMetric(batch, key, k, t);
    PivotIs(batch, key, m);
    var es := EnvelopesOf(batch, key, m);
    if es != [] {
      EnvelopesWithin(batch, key, m, lo, hi);
      MergedWithin(es, lo, hi);
    }
  }

  lemma {:induction false} EnvelopeIn(trends: seq<Trend>, key: RowKey, m: Metric, t: Trend)
    requires t in trends && Matches(t, key, m)
    ensures EnvelopeOf(t) in EnvelopesOf(trends, key, m)
  {
    var n := |trends| - 1;
    if t in trends[..n] {
      EnvelopeIn(trends[..n], key, m, t);
    }
  }

  lemma {:induction false} TotalPositive(es: seq<Envelope>, e: Envelope)
    requires e in es
    ensures TotalSamples(es) >= e.samples
  {
    var n := |es| - 1;
    if e in es[..n] {
      TotalPositive(es[..n], e);
    }
  }

  lemma {:induction false} SampledMetric(batch: seq<Trend>, key: RowKey, k: Metric, t: Trend)
    requires t in batch && Matches(t, key, k) && t.samples > 0
    ensures key in Pivot(batch) && Pivot(batch)[key].samples > 0
  {
    var es := EnvelopesOf(batch, key, k);
    EnvelopeIn(batch, key, k, t);
    PivotIs(batch, key, k);
    MergeAllMedian(es);
    TotalPositive(es, EnvelopeOf(t));
    PivotSampled(batch, key, k);
  }

  lemma MergeWithin(stored: Wide, excluded: Wide, m: Metric, lo: real, hi: real)
    requires MedianWithin(stored, m, lo, hi) && MedianWithin(excluded, m, lo, hi)
    ensures MedianWithin(MergeRows(stored, excluded), m, lo, hi)
  {
    var a, b := stored.cols.At(m), excluded.cols.At(m);
    if a.med.Some? && b.med.Some? {
      MeanBetween(a.med.value, stored.samples, b.med.value, excluded.samples, lo, hi);
    }
  }

  /** Main result on bounds: however rows are batched, a stored median lies within any bounds of its rows' medians. */
  lemma {:induction false} StoredMedianWithin(batches: seq<seq<Trend>>, key: RowKey, m: Metric, lo: real, hi: real)
    requires MediansWithin(All(batches), key, m, lo, hi) && key in Batches(batches)
    ensures MedianWithin(Batches(batches)[key], m, lo, hi)
    decreases |batches|
  {
    var n := |batches| - 1;
    var before, batch := Batches(batches[..n]), batches[n];
    assert forall t | t in All(batches[..n]) || t in batch :: t in All(batches);
    UpsertAllAt(before, Pivot(batch), key);
    if key in before {
      StoredMedianWithin(batches[..n], key, m, lo, hi);
    }
    if key in Pivot(batch) {
      PivotWithin(batch, key, m, lo, hi);
      if key in before {
        MergeWithin(before[key], Inserted(Pivot(batch)[key]), m, lo, hi);
      }
    }
  }

  // ----- A name with one container in the bucket -----

  /** In bucket `b` of a run, the container goes by `name`, for metric `m`. */
  ghost predicate Goes(r: HostRun, b: nat, id: string, name: string, m: Metric) {
    && r.width > 0 && IsClosed(r.width, r.pushes, b)
    && var first := FirstOf(BucketReadings(r.width, r.pushes, b), Key(id, m));
       first.Some? && first.value.name == name
  }

  /** Of all containers of all runs, only this one goes by `name` in bucket `b`. */
  ghost predicate OnlyOne(runs: seq<HostRun>, k: nat, b: nat, id: string, name: string, m: Metric) {
    && k < |runs| && Goes(runs[k], b, id, name, m)
    && forall j, other | 0 <= j < |runs| && Goes(runs[j], b, other, name, m) :: j == k && other == id
  }

  ghost function ValuesIn(r: HostRun, b: nat, id: string, m: Metric): seq<real>
    requires r.width > 0
  {
    ValuesOf(BucketReadings(r.width, r.pushes, b), Key(id, m))
  }

  /** The container's first reading of a metric in a bucket of a run. */
  ghost function FirstIn(r: HostRun, b: nat, id: string, m: Metric): Option<Reading>
    requires r.width > 0
  {
    FirstOf(BucketReadings(r.width, r.pushes, b), Key(id, m))
  }

  /** A flushed row carries the statistics of one container that goes by its name. */
  lemma RowStatistics(host: string, r: HostRun, t: Trend) returns (id: string)
    requires Ran(r, host) && InFlush(r.flushes, t)
    ensures t.metric.Known? && t.samples > 0 && Goes(r, t.bucketStart, id, t.name, t.metric.metric)
    ensures t.id == id && t.stack == FirstIn(r, t.bucketStart, id, t.metric.metric).value.stack
    ensures var s := Stats.From(ValuesIn(r, t.bucketStart, id, t.metric.metric));
            s.Some? && t.median == s.value.median && t.min == s.value.min && t.max == s.value.max
  {
    FlushedRow(r.width, host, r.pushes, r.states, r.flushes, t);
    FlushedRowsOrdered(r.width, host, r.pushes, r.states, r.flushes, t);
    var n :| 0 <= n < |r.flushes| && t in r.flushes[n];
    FlushIsClosedBucket(r.width, host, r.pushes, r.states, r.flushes, n);
    var b := OpenBucket(r.width, r.pushes[..n]);
    var rs := BucketReadings(r.width, r.pushes, b);
    var k := RowSource(r.flushes[n], rs, b, r.width / 1000, host, t);
    FoldedIs(rs, k);
    Stats.StatsMean(ValuesOf(rs, k));
    id := k.id;
  }

  /**
   * Main result: where a name stands for one container in a bucket, the stored median is the median of that
   * container's samples there.
   */
  lemma {:induction false} MedianOfOneContainer(
      host: string, runs: seq<HostRun>, batches: seq<seq<Trend>>, k: nat, b: nat, id: string, name: string, m: Metric)
    requires Stored(host, runs, batches) && OnlyOne(runs, k, b, id, name, m)
    ensures var key, stats := RowKey(host, name, b), Stats.From(ValuesIn(runs[k], b, id, m));
            && key in Batches(batches) && stats.Some?
            && Batches(batches)[key].cols.At(m).med == Some(stats.value.median)
  {
    var r, key := runs[k], RowKey(host, name, b);
    var rs := BucketReadings(r.width, r.pushes, b);
    FoldedIs(rs, Key(id, m));
    Stats.StatsMean(ValuesIn(r, b, id, m));
    var median := Stats.From(ValuesIn(r, b, id, m)).value.median;
    forall t | t in All(batches) && KeyOf(t) == key && t.metric.Known?
      ensures t.samples > 0 && (t.metric == Known(m) ==> t.median == median)
    {
      var j :| 0 <= j < |runs| && InFlush(runs[j].flushes, t);
      var other := RowStatistics(host, runs[j], t);
    }
    var v := ValueSeen(r, b, id, name, m);
    assert v in ClosedSamples(r, name, m, b) && v in StoredSamples(runs, name, m, b);
    RowIffSamples(host, runs, batches, name, b);
    RowEnvelope(host, runs, batches, name, m, b);
    StoredMedianWithin(batches, key, m, median, median);
  }

  /** A container that goes by a name has a sample attributed to it. */
  lemma ValueSeen(r: HostRun, b: nat, id: string, name: string, m: Metric) returns (v: real)
    requires Goes(r, b, id, name, m)
    ensures v in BucketSamples(r.width, r.pushes, name, m, b)
  {
    var rs := BucketReadings(r.width, r.pushes, b);
    FoldedIs(rs, Key(id, m));
    v := ValuesOf(rs, Key(id, m))[0];
    var i := ValueFrom(rs, Key(id, m), v);
    assert GoesBy(rs, i, name, m);
  }
}
