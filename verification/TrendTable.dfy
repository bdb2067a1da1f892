/** The wide trend table: pivoting the bucketer's rows and merging them in. */
module TrendTable {
  import opened Prelude
  import opened Model

  // ----- Nullable values, as SQL treats them -----

  function Coalesce<T>(a: Option<T>, b: Option<T>): Option<T> {
    if a.Some? then a else b
  }

  /** The scalar `min` of SQLite: NULL if any argument is. */
  function SqlMin(a: Option<real>, b: Option<real>): Option<real> {
    if a.None? || b.None? then None else Some(Least(a.value, b.value))
  }

  function SqlMax(a: Option<real>, b: Option<real>): Option<real> {
    if a.None? || b.None? then None else Some(Greatest(a.value, b.value))
  }

  function SqlDiv(a: real, b: nat): Option<real> {
    if b == 0 then None else Some(Quotient(a, b))
  }

  function Weight(x: real, n: nat): real {
    x * n as real
  }

  function Quotient(a: real, b: nat): real
    requires b > 0
  {
    a / b as real
  }

  function Least(a: real, b: real): real {
    if a <= b then a else b
  }

  function Greatest(a: real, b: real): real {
    if a >= b then a else b
  }

  // ----- Rows -----

  /** The three columns of one metric. */
  datatype Cols = Cols(min: Option<real>, med: Option<real>, max: Option<real>)

  const NO_COLS := Cols(None, None, None)

  /** A value for each metric. */
  datatype Six = Six(cpu: Cols, mem: Cols, netRx: Cols, netTx: Cols, diskRead: Cols, diskWrite: Cols) {
    function At(m: Metric): Cols {
      match m
      case Cpu => cpu
      case Mem => mem
      case NetRx => netRx
      case NetTx => netTx
      case DiskRead => diskRead
      case DiskWrite => diskWrite
    }
  }

  /** The same expression for every metric. */
  function PerMetric(f: Metric -> Cols): (r: Six)
    ensures forall m :: r.At(m) == f(m)
  {
    Six(f(Cpu), f(Mem), f(NetRx), f(NetTx), f(DiskRead), f(DiskWrite))
  }

  lemma SameSix(a: Six, b: Six)
    requires forall m :: a.At(m) == b.At(m)
    ensures a == b
  {
    assert a == Six(a.At(Cpu), a.At(Mem), a.At(NetRx), a.At(NetTx), a.At(DiskRead), a.At(DiskWrite));
    assert b == Six(b.At(Cpu), b.At(Mem), b.At(NetRx), b.At(NetTx), b.At(DiskRead), b.At(DiskWrite));
  }

  datatype RowKey = RowKey(host: string, name: string, bucketStart: nat)
  datatype Wide = Wide(bucketSecs: nat, id: string, stack: Option<string>, samples: nat, cols: Six)
  type Table = map<RowKey, Wide>

  // ----- Pivoting a batch -----

  datatype Envelope = Envelope(min: real, median: real, max: real, samples: nat) {
    function Merge(other: Envelope): Envelope {
      var total := samples + other.samples;
      Envelope(
        Least(min, other.min),
        if total == 0 then median
        else Quotient(Weight(median, samples) + Weight(other.median, other.samples), total),
        Greatest(max, other.max),
        total)
    }
  }

  datatype PivotRow = PivotRow(
    bucketSecs: nat, id: string, stack: Option<string>, samples: nat, metrics: map<Metric, Envelope>)

  const EMPTY_ROW := PivotRow(0, "", None, 0, map[])

  function KeyOf(t: Trend): RowKey {
    RowKey(t.host, t.name, t.bucketStart)
  }

  function EnvelopeOf(t: Trend): Envelope {
    Envelope(t.min, t.median, t.max, t.samples)
  }

  /** Fold one row in; rows of an unknown metric are dropped. */
  function PivotOne(rows: map<RowKey, PivotRow>, t: Trend): map<RowKey, PivotRow> {
    if t.metric.Other? then rows
    else
      var m := t.metric.metric;
      var row := if KeyOf(t) in rows then rows[KeyOf(t)] else EMPTY_ROW;
      var merged := if m in row.metrics then row.metrics[m].Merge(EnvelopeOf(t)) else EnvelopeOf(t);
      rows[KeyOf(t) := PivotRow(
        t.bucketSecs, t.id, Coalesce(row.stack, t.stack),
        if row.samples >= merged.samples then row.samples else merged.samples,
        row.metrics[m := merged])]
  }

  function Pivot(trends: seq<Trend>): map<RowKey, PivotRow> {
    if trends == [] then map[] else PivotOne(Pivot(trends[..|trends| - 1]), trends[|trends| - 1])
  }

  method PivotTrends(trends: seq<Trend>) returns (rows: map<RowKey, PivotRow>)
    ensures rows == Pivot(trends)
  {
    rows := map[];
    for i := 0 to |trends|
      invariant rows == Pivot(trends[..i])
    {
      assert trends[..i + 1][..i] == trends[..i];
      var t := trends[i];
      if t.metric.Known? {
        var m, key, row := t.metric.metric, KeyOf(t), EMPTY_ROW;
        if key in rows {
          row := rows[key];
        }
        row := row.(bucketSecs := t.bucketSecs, id := t.id);
        if row.stack.None? {
          row := row.(stack := t.stack);
        }
        var merged := EnvelopeOf(t);
        if m in row.metrics {
          merged := row.metrics[m].Merge(merged);
        }
        if merged.samples > row.samples {
          row := row.(samples := merged.samples);
        }
        row := row.(metrics := row.metrics[m := merged]);
        rows := rows[key := row];
      }
    }
    assert trends[..|trends|] == trends;
  }

  // ----- Merging into the table -----

  function EnvelopeCols(metrics: map<Metric, Envelope>, m: Metric): Cols {
    if m in metrics then Cols(Some(metrics[m].min), Some(metrics[m].median), Some(metrics[m].max)) else NO_COLS
  }

  function Inserted(row: PivotRow): Wide {
    Wide(row.bucketSecs, row.id, row.stack, row.samples, PerMetric(m => EnvelopeCols(row.metrics, m)))
  }

  /** The conflict clause for one metric: every right-hand side sees the stored row. */
  function MergeCols(old_: Cols, oldSamples: nat, excluded: Cols, newSamples: nat): Cols {
    Cols(
      SqlMin(Coalesce(old_.min, excluded.min), Coalesce(excluded.min, old_.min)),
      if old_.med.None? then excluded.med
      else if excluded.med.None? then old_.med
      else SqlDiv(Weight(old_.med.value, oldSamples) + Weight(excluded.med.value, newSamples),
                  oldSamples + newSamples),
      SqlMax(Coalesce(old_.max, excluded.max), Coalesce(excluded.max, old_.max)))
  }

  function MergeRows(stored: Wide, excluded: Wide): Wide {
    Wide(excluded.bucketSecs, excluded.id, Coalesce(excluded.stack, stored.stack), stored.samples + excluded.samples,
         PerMetric(m => MergeCols(stored.cols.At(m), stored.samples, excluded.cols.At(m), excluded.samples)))
  }

  /** The table after upserting every pivoted row. */
  function UpsertAll(table: Table, rows: map<RowKey, PivotRow>): Table {
    map key | key in table.Keys + rows.Keys ::
      if key !in rows then table[key]
      else if key in table then MergeRows(table[key], Inserted(rows[key]))
      else Inserted(rows[key])
  }

  function InsertBatch(table: Table, trends: seq<Trend>): Table {
    UpsertAll(table, Pivot(trends))
  }

  function PruneBefore(table: Table, before: nat): Table {
    map key | key in table && key.bucketStart >= before :: table[key]
  }

  function Restrict(rows: map<RowKey, PivotRow>, keys: set<RowKey>): map<RowKey, PivotRow> {
    map key | key in rows && key in keys :: rows[key]
  }

  /** What the table holds under one key after an upsert. */
  function UpsertAt(table: Table, rows: map<RowKey, PivotRow>, key: RowKey): Option<Wide> {
    if key !in rows then (if key in table then Some(table[key]) else None)
    else if key in table then Some(MergeRows(table[key], Inserted(rows[key])))
    else Some(Inserted(rows[key]))
  }

  lemma UpsertAllAt(table: Table, rows: map<RowKey, PivotRow>, key: RowKey)
    ensures key in UpsertAll(table, rows) <==> UpsertAt(table, rows, key).Some?
    ensures key in UpsertAll(table, rows) ==> UpsertAll(table, rows)[key] == UpsertAt(table, rows, key).value
  {
  }

  /** Upserting one more row touches only its key; the rows may come in any order. */
  lemma UpsertOne(table: Table, rows: map<RowKey, PivotRow>, done: set<RowKey>, key: RowKey)
    requires key in rows && key !in done
    ensures var before := UpsertAll(table, Restrict(rows, done));
            && (key in before <==> key in table)
            && UpsertAll(table, Restrict(rows, done + {key}))
               == before[key := if key in before then MergeRows(before[key], Inserted(rows[key]))
                                else Inserted(rows[key])]
  {
    var some, more := Restrict(rows, done), Restrict(rows, done + {key});
    var before, after := UpsertAll(table, some), UpsertAll(table, more);
    UpsertAllAt(table, some, key);
    var v := if key in before then MergeRows(before[key], Inserted(rows[key])) else Inserted(rows[key]);
    UpsertAllAt(table, more, key);
    assert key in after && after[key] == v;
    forall k | k != key ensures k in after <==> k in before
                        ensures k in after ==> after[k] == before[k] {
      UpsertOther(table, rows, done, key, k);
    }
  }

  lemma UpsertOther(table: Table, rows: map<RowKey, PivotRow>, done: set<RowKey>, key: RowKey, k: RowKey)
    requires k != key
    ensures var before, after := UpsertAll(table, Restrict(rows, done)), UpsertAll(table, Restrict(rows, done + {key}));
            (k in after <==> k in before) && (k in after ==> after[k] == before[k])
  {
    UpsertAllAt(table, Restrict(rows, done), k);
    UpsertAllAt(table, Restrict(rows, done + {key}), k);
  }

  /** Pruning splits a table at the cutoff: a row stays, unchanged, exactly when its bucket starts at or after it. */
  lemma PruneSplits(table: Table, before: nat)
    ensures var kept, gone := PruneBefore(table, before), set key | key in table && key.bucketStart < before;
            && (forall key :: key in kept <==> key in table && key.bucketStart >= before)
            && (forall key | key in kept :: kept[key] == table[key])
            && |table| == |kept| + |gone|
  {
    var kept, gone := PruneBefore(table, before), set key | key in table && key.bucketStart < before;
    assert table.Keys == kept.Keys + gone && kept.Keys !! gone;
  }

  class TrendStore {
    var trends: Table

    constructor ()
      ensures trends == map[]
    {
      trends := map[];
    }

    method InsertContainerTrends(batch: seq<Trend>)
      modifies this
      ensures trends == InsertBatch(old(trends), batch)
    {
      if batch == [] {
        assert trends == UpsertAll(trends, map[]);
        return;
      }
      var rows := PivotTrends(batch);
      var todo := rows.Keys;
      ghost var done: set<RowKey> := {};
      while todo != {}
        invariant todo <= rows.Keys && done == rows.Keys - todo
        invariant trends == UpsertAll(old(trends), Restrict(rows, done))
        decreases todo
      {
        var key :| key in todo;
        UpsertOne(old(trends), rows, done, key);
        var row := Inserted(rows[key]);
        trends := trends[key := if key in trends then MergeRows(trends[key], row) else row];
        todo, done := todo - {key}, done + {key};
      }
      assert Restrict(rows, done) == rows;
    }

    method PruneTrends(before: nat) returns (removed: nat)
      modifies this
      ensures trends == PruneBefore(old(trends), before)
      ensures forall key :: key in trends <==> key in old(trends) && key.bucketStart >= before
      ensures forall key | key in trends :: trends[key] == old(trends)[key]
      ensures removed == |set key | key in old(trends) && key.bucketStart < before|
    {
      var kept := PruneBefore(trends, before);
      PruneSplits(trends, before);
      removed := |trends| - |kept|;
      trends := kept;
    }
  }

  // ----- The pivot in closed form -----

  predicate Matches(t: Trend, key: RowKey, m: Metric) {
    KeyOf(t) == key && t.metric == Known(m)
  }

  /** The envelopes of one key and metric, in order. */
  function EnvelopesOf(trends: seq<Trend>, key: RowKey, m: Metric): seq<Envelope> {
    if trends == [] then []
    else
      var t := trends[|trends| - 1];
      EnvelopesOf(trends[..|trends| - 1], key, m) + if Matches(t, key, m) then [EnvelopeOf(t)] else []
  }

  function MergeAll(es: seq<Envelope>): Envelope
    requires es != []
  {
    if |es| == 1 then es[0] else MergeAll(es[..|es| - 1]).Merge(es[|es| - 1])
  }

  function TotalSamples(es: seq<Envelope>): nat {
    if es == [] then 0 else TotalSamples(es[..|es| - 1]) + es[|es| - 1].samples
  }

  function TotalWeight(es: seq<Envelope>): real {
    if es == [] then 0.0 else TotalWeight(es[..|es| - 1]) + Weight(es[|es| - 1].median, es[|es| - 1].samples)
  }

  /** The envelope of one key and metric, if any. */
  function MetricAt(rows: map<RowKey, PivotRow>, key: RowKey, m: Metric): Option<Envelope> {
    if key in rows && m in rows[key].metrics then Some(rows[key].metrics[m]) else None
  }

  lemma PivotOneAt(rows: map<RowKey, PivotRow>, t: Trend, key: RowKey, m: Metric)
    ensures var before := MetricAt(rows, key, m);
            MetricAt(PivotOne(rows, t), key, m)
            == if !Matches(t, key, m) then before
               else if before.None? then Some(EnvelopeOf(t))
               else Some(before.value.Merge(EnvelopeOf(t)))
  {
  }

  /** The pivot merges, key by key and metric by metric, exactly that key's and metric's envelopes. */
  lemma {:induction false} PivotIs(trends: seq<Trend>, key: RowKey, m: Metric)
    ensures var es := EnvelopesOf(trends, key, m);
            MetricAt(Pivot(trends), key, m) == if es == [] then None else Some(MergeAll(es))
  {
    if trends != [] {
      var n := |trends| - 1;
      PivotIs(trends[..n], key, m);
      PivotOneAt(Pivot(trends[..n]), trends[n], key, m);
      var es := EnvelopesOf(trends[..n], key, m);
      if Matches(trends[n], key, m) {
        assert (es + [EnvelopeOf(trends[n])])[..|es|] == es;
      } else {
        assert es + [] == es;
      }
    }
  }

  /** A key has a row exactly when some row of a known metric bears it. */
  lemma {:induction false} PivotKeys(trends: seq<Trend>, key: RowKey)
    ensures key in Pivot(trends) <==> exists t :: t in trends && KeyOf(t) == key && t.metric.Known?
  {
    if trends != [] {
      var n := |trends| - 1;
      PivotKeys(trends[..n], key);
      assert forall t :: t in trends <==> t in trends[..n] || t == trends[n];
    }
  }

  /** The median behind a total: the weighted mean, or a given median when nothing was sampled. */
  function MeanOr(weight: real, samples: nat, median: real): real {
    if samples > 0 then Quotient(weight, samples) else median
  }

  /** What repeated pairwise merging computes: the weighted mean, or the first median when nothing was sampled. */
  lemma {:induction false} MergeAllMedian(es: seq<Envelope>)
    requires es != []
    ensures MergeAll(es).samples == TotalSamples(es)
    ensures MergeAll(es).median == MeanOr(TotalWeight(es), TotalSamples(es), es[0].median)
  {
    var n := |es| - 1;
    var w, s := TotalWeight(es[..n]), TotalSamples(es[..n]);
    if n == 0 {
      assert es[..0] == [];
      Cancel(es[0].median, es[0].samples);
    } else {
      var a, b := MergeAll(es[..n]), es[n];
      assert a.samples == s && a.median == MeanOr(w, s, es[0].median) by {
        MergeAllMedian(es[..n]);
      }
      if s == 0 {
        NoSamplesNoWeight(es[..n]);
      }
      MergeMedian(a, b, w, es[0].median);
    }
  }

  lemma MergeMedian(a: Envelope, b: Envelope, weight: real, median: real)
    requires a.median == MeanOr(weight, a.samples, median) && (a.samples == 0 ==> weight == 0.0)
    ensures a.Merge(b).median
         == MeanOr(weight + Weight(b.median, b.samples), a.samples + b.samples, median)
  {
    assert Weight(a.median, a.samples) == weight by {
      if a.samples > 0 {
        Uncancel(weight, a.samples);
      } else {
        TimesZero(a.median, a.samples);
      }
    }
  }

  lemma TimesZero(x: real, n: nat)
    requires n == 0
    ensures Weight(x, n) == 0.0
  {
  }

  /** Merging keeps the extremes: they bound every envelope, and are attained. */
  lemma {:induction false} MergeAllExtremes(es: seq<Envelope>)
    requires es != []
    ensures forall e | e in es :: MergeAll(es).min <= e.min && e.max <= MergeAll(es).max
    ensures exists e :: e in es && MergeAll(es).min == e.min
    ensures exists e :: e in es && MergeAll(es).max == e.max
  {
    var n := |es| - 1;
    assert forall e :: e in es <==> e in es[..n] || e == es[n];
    if n > 0 {
      MergeAllExtremes(es[..n]);
    }
  }

  lemma Cancel(x: real, n: nat)
    ensures n > 0 ==> Quotient(0.0 + Weight(x, n), n) == x
  {
  }

  lemma Uncancel(w: real, n: nat)
    requires n > 0
    ensures Weight(Quotient(w, n), n) == w
  {
  }

  lemma {:induction false} NoSamplesNoWeight(es: seq<Envelope>)
    requires TotalSamples(es) == 0
    ensures TotalWeight(es) == 0.0
  {
    if es != [] {
      NoSamplesNoWeight(es[..|es| - 1]);
    }
  }

  // ----- Independence of order -----

  lemma {:induction false} TotalsConcat(a: seq<Envelope>, b: seq<Envelope>)
    ensures TotalSamples(a + b) == TotalSamples(a) + TotalSamples(b)
    ensures TotalWeight(a + b) == TotalWeight(a) + TotalWeight(b)
    decreases |b|
  {
    if b == [] {
      assert a + b == a;
    } else {
      assert (a + b)[..|a + b| - 1] == a + b[..|b| - 1];
      TotalsConcat(a, b[..|b| - 1]);
    }
  }

  lemma {:induction false} TotalsPermute(a: seq<Envelope>, b: seq<Envelope>)
    requires multiset(a) == multiset(b)
    ensures TotalSamples(a) == TotalSamples(b) && TotalWeight(a) == TotalWeight(b)
    decreases |a|
  {
    if a == [] {
      assert |multiset(b)| == 0;
    } else {
      var x := a[|a| - 1];
      var before, after := TakeOut(a, b);
      TotalsPermute(a[..|a| - 1], before + after);
      TotalsConcat(before, after);
      TotalsConcat(before, [x] + after);
      TotalsConcat([x], after);
      assert [x][..0] == [];
    }
  }

  /** Main result: with at least one sample, merging depends only on the multiset of envelopes. */
  lemma {:induction false} MergeAllPermutes(a: seq<Envelope>, b: seq<Envelope>)
    requires multiset(a) == multiset(b) && a != [] && TotalSamples(a) > 0
    ensures b != [] && MergeAll(a) == MergeAll(b)
  {
    assert a[0] in multiset(b);
    MergeAllMedian(a);
    MergeAllMedian(b);
    MergeAllExtremes(a);
    MergeAllExtremes(b);
    TotalsPermute(a, b);
    assert forall e :: e in a <==> e in multiset(a);
    assert forall e :: e in b <==> e in multiset(b);
  }

  lemma {:induction false} EnvelopesConcat(a: seq<Trend>, b: seq<Trend>, key: RowKey, m: Metric)
    ensures EnvelopesOf(a + b, key, m) == EnvelopesOf(a, key, m) + EnvelopesOf(b, key, m)
    decreases |b|
  {
    if b == [] {
      assert a + b == a;
    } else {
      assert (a + b)[..|a + b| - 1] == a + b[..|b| - 1];
      EnvelopesConcat(a, b[..|b| - 1], key, m);
    }
  }

  lemma MoveToEnd<T>(a: seq<T>, b: seq<T>, c: seq<T>)
    ensures multiset(a + (b + c)) == multiset(a + c) + multiset(b)
  {
  }

  lemma {:induction false} EnvelopesPermute(a: seq<Trend>, b: seq<Trend>, key: RowKey, m: Metric)
    requires multiset(a) == multiset(b)
    ensures multiset(EnvelopesOf(a, key, m)) == multiset(EnvelopesOf(b, key, m))
    decreases |a|
  {
    if a == [] {
      assert |multiset(b)| == 0;
    } else {
      var x := a[|a| - 1];
      var before, after := TakeOut(a, b);
      EnvelopesPermute(a[..|a| - 1], before + after, key, m);
      EnvelopesConcat(before, after, key, m);
      EnvelopesConcat(before, [x] + after, key, m);
      EnvelopesConcat([x], after, key, m);
      assert a == a[..|a| - 1] + [x];
      EnvelopesConcat(a[..|a| - 1], [x], key, m);
      MoveToEnd(EnvelopesOf(before, key, m), EnvelopesOf([x], key, m), EnvelopesOf(after, key, m));
    }
  }

  /** Main result: the order the accumulators drained in does not reach any sampled envelope of the pivot. */
  lemma {:induction false} PivotPermutes(a: seq<Trend>, b: seq<Trend>, key: RowKey, m: Metric)
    requires multiset(a) == multiset(b) && TotalSamples(EnvelopesOf(a, key, m)) > 0
    ensures MetricAt(Pivot(a), key, m).Some? && MetricAt(Pivot(a), key, m) == MetricAt(Pivot(b), key, m)
  {
    EnvelopesPermute(a, b, key, m);
    MergeAllPermutes(EnvelopesOf(a, key, m), EnvelopesOf(b, key, m));
    PivotIs(a, key, m);
    PivotIs(b, key, m);
  }
}
