/** When the medians of the trend table do not depend on how rows were batched. */
module Batching {
  import opened Prelude
  import opened Model
  import opened TrendTable
  import opened TableInvariants

  function ColsOf(e: Envelope): Cols {
    Cols(Some(e.min), Some(e.median), Some(e.max))
  }

  // ----- One upsert -----

  lemma {:induction false} TimesAsReals(a: nat, b: nat)
    ensures (a * b) as real == a as real * b as real
  {
    if b > 0 {
      TimesAsReals(a, b - 1);
      assert a * b == a * (b - 1) + a;
    }
  }

  lemma CrossMultiply(p: real, q: real, r: real, u: real)
    requires q > 0.0 && u > 0.0
    ensures p / q == r / u <==> p * u == r * q
  {
    assert p == (p / q) * q && r == (r / u) * u;
    if p / q == r / u {
      assert p * u == (p / q) * q * u;
    } else {
      Scaled(p / q - r / u, q, u);
      assert (p / q - r / u) * q * u == (p / q) * q * u - (r / u) * u * q;
    }
  }

  lemma Scaled(d: real, q: real, u: real)
    requires d != 0.0 && q > 0.0 && u > 0.0
    ensures d * q * u != 0.0
  {
  }

  lemma ZeroProduct(a: real, b: real)
    ensures a * b == 0.0 <==> a == 0.0 || b == 0.0
  {
  }

  /** Two weightings of two values agree exactly when the values do, or the weights are in the same proportion. */
  lemma SameMeanIff(x: real, y: real, s: real, t: real, s': real, t': real)
    requires s + t > 0.0 && s' + t' > 0.0
    ensures (x * s' + y * t') / (s' + t') == (x * s + y * t) / (s + t) <==> x == y || s' * t == t' * s
  {
    CrossMultiply(x * s' + y * t', s' + t', x * s + y * t, s + t);
    ZeroProduct(x - y, s' * t - t' * s);
    assert (x * s' + y * t') * (s + t) - (x * s + y * t) * (s' + t') == (x - y) * (s' * t - t' * s);
  }

  lemma SameQuotientIff(x: real, y: real, s: nat, t: nat, s': nat, t': nat)
    requires s + t > 0 && s' + t' > 0
    ensures Quotient(Weight(x, s') + Weight(y, t'), s' + t') == Quotient(Weight(x, s) + Weight(y, t), s + t)
       <==> x == y || s' * t == t' * s
  {
    var a, b, a', b' := s as real, t as real, s' as real, t' as real;
    MeanAsReals(x, y, s, t);
    MeanAsReals(x, y, s', t');
    SameMeanIff(x, y, a, b, a', b');
    SameProducts(s', t, t', s);
  }

  lemma MeanAsReals(x: real, y: real, s: nat, t: nat)
    requires s + t > 0
    ensures Quotient(Weight(x, s) + Weight(y, t), s + t) == (x * s as real + y * t as real) / (s as real + t as real)
  {
    assert (s + t) as real == s as real + t as real;
  }

  lemma SameProducts(a: nat, b: nat, c: nat, d: nat)
    ensures a * b == c * d <==> a as real * b as real == c as real * d as real
  {
    TimesAsReals(a, b);
    TimesAsReals(c, d);
  }

  /**
   * An upsert weights by the samples of the rows, a merge by those of the metric. They agree on a metric exactly
   * when its two medians are equal, or the rows and the metric are sampled in the same proportion.
   */
  lemma UpsertAgreesIff(a: Envelope, rowA: nat, b: Envelope, rowB: nat)
    requires a.samples + b.samples > 0 && rowA + rowB > 0
    ensures MergeCols(ColsOf(a), rowA, ColsOf(b), rowB) == ColsOf(a.Merge(b))
       <==> a.median == b.median || rowA * b.samples == rowB * a.samples
  {
    SameQuotientIff(a.median, b.median, a.samples, b.samples, rowA, rowB);
  }

  // ----- Any number of batches -----

  /** In this batch the metric has as many samples as its row, and some. */
  predicate FullySampled(batch: seq<Trend>, key: RowKey, m: Metric) {
    key in Pivot(batch) ==>
      var row := Pivot(batch)[key];
      m in row.metrics && row.metrics[m].samples == row.samples > 0
  }

  lemma {:induction false} MergedExtremesConcat(a: seq<Envelope>, b: seq<Envelope>)
    requires a != [] && b != []
    ensures MergeAll(a + b).min == Least(MergeAll(a).min, MergeAll(b).min)
    ensures MergeAll(a + b).max == Greatest(MergeAll(a).max, MergeAll(b).max)
    decreases |b|
  {
    var n := |b| - 1;
    assert (a + b)[..|a| + n] == a + b[..n];
    if n == 0 {
      assert a + b[..n] == a;
    } else {
      MergedExtremesConcat(a, b[..n]);
    }
  }

  /** `e` has the mean median of a total weight over a total of samples. */
  predicate IsMean(e: Envelope, weight: real) {
    e.samples > 0 && e.median == Quotient(weight, e.samples)
  }

  lemma {:induction false} SampledMedian(es: seq<Envelope>, weight: real, samples: nat)
    requires es != [] && weight == TotalWeight(es) && samples == TotalSamples(es) > 0
    ensures MergeAll(es).samples == samples && IsMean(MergeAll(es), weight)
  {
    MergeAllMedian(es);
  }

  lemma MeanOfMeans(a: Envelope, w: real, b: Envelope, v: real, both: Envelope)
    requires IsMean(a, w) && IsMean(b, v) && IsMean(both, w + v) && both.samples == a.samples + b.samples
    ensures a.Merge(b).median == both.median
  {
    Uncancel(w, a.samples);
    Uncancel(v, b.samples);
  }

  lemma {:induction false} MergedMedianConcat(a: seq<Envelope>, b: seq<Envelope>)
    requires a != [] && b != [] && TotalSamples(a) > 0 && TotalSamples(b) > 0
    ensures MergeAll(a + b).median == MergeAll(a).Merge(MergeAll(b)).median
    ensures MergeAll(a + b).samples == MergeAll(a).samples + MergeAll(b).samples
  {
    var w, v, s, t := TotalWeight(a), TotalWeight(b), TotalSamples(a), TotalSamples(b);
    TotalsConcat(a, b);
    SampledMedian(a, w, s);
    SampledMedian(b, v, t);
    SampledMedian(a + b, w + v, s + t);
    MeanOfMeans(MergeAll(a), w, MergeAll(b), v, MergeAll(a + b));
  }

  /** Merging two sampled lists is merging what each of them merges to. */
  lemma {:induction false} MergedConcat(a: seq<Envelope>, b: seq<Envelope>)
    requires a != [] && b != [] && TotalSamples(a) > 0 && TotalSamples(b) > 0
    ensures MergeAll(a + b) == MergeAll(a).Merge(MergeAll(b))
  {
    MergedExtremesConcat(a, b);
    MergedMedianConcat(a, b);
  }

  /** The table's row for `key` stands for exactly these envelopes of metric `m`. */
  predicate StandsFor(table: Table, key: RowKey, m: Metric, es: seq<Envelope>) {
    && (key in table <==> es != [])
    && (es != [] ==>
          TotalSamples(es) == table[key].samples > 0 && table[key].cols.At(m) == ColsOf(MergeAll(es)))
  }

  lemma {:induction false} PivotStandsFor(batch: seq<Trend>, key: RowKey, m: Metric)
    requires FullySampled(batch, key, m)
    ensures var es := EnvelopesOf(batch, key, m);
            && (key in Pivot(batch) <==> es != [])
            && (es != [] ==>
                  && TotalSamples(es) == Pivot(batch)[key].samples > 0
                  && Inserted(Pivot(batch)[key]).cols.At(m) == ColsOf(MergeAll(es)))
  {
    var es := EnvelopesOf(batch, key, m);
    PivotIs(batch, key, m);
    if es != [] {
      MergeAllMedian(es);
    }
  }

  lemma {:induction false} BatchStandsFor(table: Table, es: seq<Envelope>, batch: seq<Trend>, key: RowKey, m: Metric)
    requires StandsFor(table, key, m, es) && FullySampled(batch, key, m)
    ensures StandsFor(InsertBatch(table, batch), key, m, es + EnvelopesOf(batch, key, m))
  {
    var more := EnvelopesOf(batch, key, m);
    PivotStandsFor(batch, key, m);
    UpsertAllAt(table, Pivot(batch), key);
    if more == [] {
      assert es + more == es;
    } else if es == [] {
      assert es + more == more;
    } else {
      MergedConcat(es, more);
      TotalsConcat(es, more);
      MergeAllMedian(es);
      MergeAllMedian(more);
      UpsertAgreesIff(MergeAll(es), TotalSamples(es), MergeAll(more), TotalSamples(more));
    }
  }

  lemma {:induction false} BatchesStandFor(batches: seq<seq<Trend>>, key: RowKey, m: Metric)
    requires forall b | b in batches :: FullySampled(b, key, m)
    ensures StandsFor(Batches(batches), key, m, EnvelopesOf(All(batches), key, m))
  {
    if batches != [] {
      var n := |batches| - 1;
      assert batches[n] in batches && forall b | b in batches[..n] :: b in batches;
      BatchesStandFor(batches[..n], key, m);
      EnvelopesConcat(All(batches[..n]), batches[n], key, m);
      BatchStandsFor(Batches(batches[..n]), EnvelopesOf(All(batches[..n]), key, m), batches[n], key, m);
    }
  }

  /**
   * Main result: where a metric is always as sampled as its row, its minimum, median and maximum depend only on the
   * multiset of rows inserted, however they were ordered and batched.
   */
  lemma {:induction false} BatchingDoesNotMatter(x: seq<seq<Trend>>, y: seq<seq<Trend>>, key: RowKey, m: Metric)
    requires multiset(All(x)) == multiset(All(y))
    requires (forall b | b in x :: FullySampled(b, key, m)) && (forall b | b in y :: FullySampled(b, key, m))
    ensures key in Batches(x) <==> key in Batches(y)
    ensures key in Batches(x) ==> Batches(x)[key].cols.At(m) == Batches(y)[key].cols.At(m)
  {
    var a, b := EnvelopesOf(All(x), key, m), EnvelopesOf(All(y), key, m);
    BatchesStandFor(x, key, m);
    BatchesStandFor(y, key, m);
    EnvelopesPermute(All(x), All(y), key, m);
    assert |multiset(a)| == |a| && |multiset(b)| == |b|;
    if a != [] {
      MergeAllPermutes(a, b);
    }
  }
}
