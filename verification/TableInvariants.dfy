/** What every reachable trend table satisfies, and what its extremes are. */
module TableInvariants {
  import opened Prelude
  import opened Model
  import opened TrendTable

  // ----- Ordered columns -----

  /** The three columns of a metric are all NULL, or ordered. */
  predicate ColsOk(c: Cols) {
    || c == NO_COLS
    || (c.min.Some? && c.med.Some? && c.max.Some? && c.min.value <= c.med.value <= c.max.value)
  }

  predicate SixOk(s: Six) {
    forall m: Metric :: ColsOk(s.At(m))
  }

  predicate RowOk(row: Wide) {
    row.samples > 0 && SixOk(row.cols)
  }

  predicate TableOk(table: Table) {
    forall key | key in table :: RowOk(table[key])
  }

  predicate TrendOk(t: Trend) {
    t.min <= t.median <= t.max && t.samples > 0
  }

  predicate EnvelopeOk(e: Envelope) {
    e.min <= e.median <= e.max && e.samples > 0
  }

  predicate PivotOk(row: PivotRow) {
    row.samples > 0 && forall m | m in row.metrics :: EnvelopeOk(row.metrics[m])
  }

  /** A weighted mean lies between any bounds of its parts. */
  lemma MeanBetween(a: real, s: nat, b: real, t: nat, lo: real, hi: real)
    requires lo <= a <= hi && lo <= b <= hi && s + t > 0
    ensures lo <= Quotient(Weight(a, s) + Weight(b, t), s + t) <= hi
  {
    WeightMonotone(lo, a, s);
    WeightMonotone(a, hi, s);
    WeightMonotone(lo, b, t);
    WeightMonotone(b, hi, t);
    WeightSpreads(lo, s, t);
    WeightSpreads(hi, s, t);
    QuotientBetween(Weight(a, s) + Weight(b, t), s + t, lo, hi);
  }

  lemma WeightSpreads(x: real, s: nat, t: nat)
    ensures Weight(x, s + t) == Weight(x, s) + Weight(x, t)
  {
    assert (s + t) as real == s as real + t as real;
  }

  lemma WeightMonotone(a: real, b: real, n: nat)
    requires a <= b
    ensures Weight(a, n) <= Weight(b, n)
  {
  }

  lemma QuotientBetween(w: real, n: nat, lo: real, hi: real)
    requires n > 0 && Weight(lo, n) <= w <= Weight(hi, n)
    ensures lo <= Quotient(w, n) <= hi
  {
    Uncancel(w, n);
  }

  lemma MergeKeepsOrder(a: Envelope, b: Envelope)
    requires EnvelopeOk(a) && EnvelopeOk(b)
    ensures EnvelopeOk(a.Merge(b))
  {
    MeanBetween(a.median, a.samples, b.median, b.samples, Least(a.min, b.min), Greatest(a.max, b.max));
    assert a.Merge(b).median
        == Quotient(Weight(a.median, a.samples) + Weight(b.median, b.samples), a.samples + b.samples);
  }

  lemma {:induction false} PivotSound(trends: seq<Trend>)
    requires forall t | t in trends && t.metric.Known? :: TrendOk(t)
    ensures forall key | key in Pivot(trends) :: PivotOk(Pivot(trends)[key])
  {
    if trends != [] {
      var n := |trends| - 1;
      var before, t := Pivot(trends[..n]), trends[n];
      PivotSound(trends[..n]);
      if t.metric.Known? {
        assert t in trends && EnvelopeOk(EnvelopeOf(t));
        var row := if KeyOf(t) in before then before[KeyOf(t)] else EMPTY_ROW;
        if t.metric.metric in row.metrics {
          MergeKeepsOrder(row.metrics[t.metric.metric], EnvelopeOf(t));
        }
      }
    }
  }

  lemma InsertedSound(row: PivotRow)
    requires PivotOk(row)
    ensures RowOk(Inserted(row))
  {
    forall m: Metric ensures ColsOk(Inserted(row).cols.At(m)) {
      assert Inserted(row).cols.At(m) == EnvelopeCols(row.metrics, m);
    }
  }

  lemma MergeColsSound(stored: Cols, s: nat, excluded: Cols, t: nat)
    requires ColsOk(stored) && ColsOk(excluded) && s > 0 && t > 0
    ensures ColsOk(MergeCols(stored, s, excluded, t))
  {
    if stored.med.Some? && excluded.med.Some? {
      MeanBetween(stored.med.value, s, excluded.med.value, t,
                  Least(stored.min.value, excluded.min.value), Greatest(stored.max.value, excluded.max.value));
    }
  }

  lemma MergeRowsSound(stored: Wide, excluded: Wide)
    requires RowOk(stored) && RowOk(excluded)
    ensures RowOk(MergeRows(stored, excluded))
  {
    forall m: Metric ensures ColsOk(MergeRows(stored, excluded).cols.At(m)) {
      MergeColsSound(stored.cols.At(m), stored.samples, excluded.cols.At(m), excluded.samples);
      assert MergeRows(stored, excluded).cols.At(m)
          == MergeCols(stored.cols.At(m), stored.samples, excluded.cols.At(m), excluded.samples);
    }
  }

  lemma InsertBatchSound(table: Table, batch: seq<Trend>)
    requires TableOk(table) && forall t | t in batch && t.metric.Known? :: TrendOk(t)
    ensures TableOk(InsertBatch(table, batch))
  {
    PivotSound(batch);
    var rows := Pivot(batch);
    forall key | key in InsertBatch(table, batch) ensures RowOk(InsertBatch(table, batch)[key]) {
      if key in rows {
        InsertedSound(rows[key]);
        if key in table {
          MergeRowsSound(table[key], Inserted(rows[key]));
        }
      }
    }
  }

  datatype Op = Insert(batch: seq<Trend>) | Prune(before: nat)

  /** The table after any sequence of inserts and prunes. */
  function TableAfter(start: Table, ops: seq<Op>): Table {
    if ops == [] then start
    else
      var before := TableAfter(start, ops[..|ops| - 1]);
      match ops[|ops| - 1]
      case Insert(batch) => InsertBatch(before, batch)
      case Prune(cutoff) => PruneBefore(before, cutoff)
  }

  /** Main result: whatever is inserted and pruned, every metric's columns stay all NULL or ordered. */
  lemma {:induction false} ReachableOrdered(start: Table, ops: seq<Op>)
    requires TableOk(start)
    requires forall op | op in ops && op.Insert? :: forall t | t in op.batch && t.metric.Known? :: TrendOk(t)
    ensures TableOk(TableAfter(start, ops))
  {
    if ops != [] {
      var n := |ops| - 1;
      ReachableOrdered(start, ops[..n]);
      assert ops[n] in ops;
      if ops[n].Insert? {
        InsertBatchSound(TableAfter(start, ops[..n]), ops[n].batch);
      }
    }
  }

  // ----- The extremes of the table -----

  /** `v` is the least of `s`, or NULL when there is none. */
  ghost predicate IsLeast(v: Option<real>, s: set<real>) {
    match v
    case None => s == {}
    case Some(x) => x in s && forall y | y in s :: x <= y
  }

  ghost predicate IsGreatest(v: Option<real>, s: set<real>) {
    match v
    case None => s == {}
    case Some(x) => x in s && forall y | y in s :: y <= x
  }

  ghost function Mins(trends: seq<Trend>, key: RowKey, m: Metric): set<real> {
    set t | t in trends && Matches(t, key, m) :: t.min
  }

  ghost function Maxs(trends: seq<Trend>, key: RowKey, m: Metric): set<real> {
    set t | t in trends && Matches(t, key, m) :: t.max
  }

  ghost function EnvelopeMins(es: seq<Envelope>): set<real> {
    set e | e in es :: e.min
  }

  ghost function EnvelopeMaxs(es: seq<Envelope>): set<real> {
    set e | e in es :: e.max
  }

  lemma EnvelopeSnoc(es: seq<Envelope>, e: Envelope)
    ensures EnvelopeMins(es + [e]) == EnvelopeMins(es) + {e.min}
    ensures EnvelopeMaxs(es + [e]) == EnvelopeMaxs(es) + {e.max}
  {
    assert forall x :: x in es + [e] <==> x in es || x == e;
  }

  lemma OneTrend(t: Trend, key: RowKey, m: Metric)
    ensures Mins([t], key, m) == if Matches(t, key, m) then {t.min} else {}
    ensures Maxs([t], key, m) == if Matches(t, key, m) then {t.max} else {}
  {
    assert t in [t];
  }

  lemma {:induction false} EnvelopesAreMatches(trends: seq<Trend>, key: RowKey, m: Metric)
    ensures Mins(trends, key, m) == EnvelopeMins(EnvelopesOf(trends, key, m))
    ensures Maxs(trends, key, m) == EnvelopeMaxs(EnvelopesOf(trends, key, m))
  {
    if trends != [] {
      var n := |trends| - 1;
      var t, before := trends[n], EnvelopesOf(trends[..n], key, m);
      EnvelopesAreMatches(trends[..n], key, m);
      assert trends == trends[..n] + [t];
      ExtremesConcat(trends[..n], [t], key, m);
      OneTrend(t, key, m);
      if Matches(t, key, m) {
        EnvelopeSnoc(before, EnvelopeOf(t));
      } else {
        assert before + [] == before;
      }
    }
  }

  /** One batch: the pivoted extremes are those of the batch's rows. */
  lemma {:induction false} PivotExtremes(batch: seq<Trend>, key: RowKey, m: Metric)
    requires key in Pivot(batch)
    ensures IsLeast(Inserted(Pivot(batch)[key]).cols.At(m).min, Mins(batch, key, m))
    ensures IsGreatest(Inserted(Pivot(batch)[key]).cols.At(m).max, Maxs(batch, key, m))
  {
    var es := EnvelopesOf(batch, key, m);
    EnvelopesAreMatches(batch, key, m);
    PivotIs(batch, key, m);
    assert Inserted(Pivot(batch)[key]).cols.At(m) == EnvelopeCols(Pivot(batch)[key].metrics, m);
    if es != [] {
      MergeAllExtremes(es);
    }
  }

  lemma LeastOfUnion(a: Option<real>, s: set<real>, b: Option<real>, t: set<real>)
    requires IsLeast(a, s) && IsLeast(b, t)
    ensures IsLeast(SqlMin(Coalesce(a, b), Coalesce(b, a)), s + t)
  {
  }

  lemma GreatestOfUnion(a: Option<real>, s: set<real>, b: Option<real>, t: set<real>)
    requires IsGreatest(a, s) && IsGreatest(b, t)
    ensures IsGreatest(SqlMax(Coalesce(a, b), Coalesce(b, a)), s + t)
  {
  }

  function Batches(batches: seq<seq<Trend>>): Table {
    if batches == [] then map[] else InsertBatch(Batches(batches[..|batches| - 1]), batches[|batches| - 1])
  }

  function All(batches: seq<seq<Trend>>): seq<Trend> {
    if batches == [] then [] else All(batches[..|batches| - 1]) + batches[|batches| - 1]
  }

  lemma NoMatchNoExtremes(trends: seq<Trend>, key: RowKey, m: Metric)
    requires forall t | t in trends :: !Matches(t, key, m)
    ensures Mins(trends, key, m) == {} && Maxs(trends, key, m) == {}
  {
  }

  lemma ExtremesConcat(a: seq<Trend>, b: seq<Trend>, key: RowKey, m: Metric)
    ensures Mins(a + b, key, m) == Mins(a, key, m) + Mins(b, key, m)
    ensures Maxs(a + b, key, m) == Maxs(a, key, m) + Maxs(b, key, m)
  {
    assert forall t :: t in a + b <==> t in a || t in b;
  }

  /** The table under one key after one more batch. */
  lemma {:induction false} BatchStep(table: Table, batch: seq<Trend>, key: RowKey, m: Metric)
    requires key in InsertBatch(table, batch)
    ensures key !in Pivot(batch) ==> key in table && InsertBatch(table, batch)[key] == table[key]
    ensures key in Pivot(batch) && key !in table ==>
              InsertBatch(table, batch)[key] == Inserted(Pivot(batch)[key])
    ensures key in Pivot(batch) && key in table ==>
              InsertBatch(table, batch)[key].cols.At(m)
              == MergeCols(table[key].cols.At(m), table[key].samples,
                           Inserted(Pivot(batch)[key]).cols.At(m), Pivot(batch)[key].samples)
  {
  }

  /**
   * Main result: however rows are batched, the table's row for a key exists exactly when some row bears the key,
   * and its extremes are the least minimum and the greatest maximum of all those rows.
   */
  lemma {:induction false} TableExtremes(batches: seq<seq<Trend>>, key: RowKey, m: Metric)
    ensures key in Batches(batches) <==> exists t :: t in All(batches) && KeyOf(t) == key && t.metric.Known?
    ensures key in Batches(batches) ==>
              && IsLeast(Batches(batches)[key].cols.At(m).min, Mins(All(batches), key, m))
              && IsGreatest(Batches(batches)[key].cols.At(m).max, Maxs(All(batches), key, m))
    decreases |batches|
  {
    if batches != [] {
      var n := |batches| - 1;
      var table, batch, before := Batches(batches[..n]), batches[n], All(batches[..n]);
      TableExtremes(batches[..n], key, m);
      PivotKeys(batch, key);
      assert forall t :: t in before + batch <==> t in before || t in batch;
      if key in Batches(batches) {
        ExtremesConcat(before, batch, key, m);
        BatchExtremes(table, before, batch, key, m);
      }
    }
  }

  lemma BatchExtremes(table: Table, before: seq<Trend>, batch: seq<Trend>, key: RowKey, m: Metric)
    requires key in InsertBatch(table, batch)
    requires key in table <==> exists t :: t in before && KeyOf(t) == key && t.metric.Known?
    requires key in table ==>
              && IsLeast(table[key].cols.At(m).min, Mins(before, key, m))
              && IsGreatest(table[key].cols.At(m).max, Maxs(before, key, m))
    ensures IsLeast(InsertBatch(table, batch)[key].cols.At(m).min, Mins(before, key, m) + Mins(batch, key, m))
    ensures IsGreatest(InsertBatch(table, batch)[key].cols.At(m).max, Maxs(before, key, m) + Maxs(batch, key, m))
  {
    BatchStep(table, batch, key, m);
    PivotKeys(batch, key);
    if key !in Pivot(batch) {
      NoMatchNoExtremes(batch, key, m);
    } else if key !in table {
      PivotExtremes(batch, key, m);
      NoMatchNoExtremes(before, key, m);
    } else {
      PivotExtremes(batch, key, m);
      var a, b := table[key].cols.At(m), Inserted(Pivot(batch)[key]).cols.At(m);
      LeastOfUnion(a.min, Mins(before, key, m), b.min, Mins(batch, key, m));
      GreatestOfUnion(a.max, Maxs(before, key, m), b.max, Maxs(batch, key, m));
    }
  }
}
