/** Which timestamps a bucket stands for, whatever the clock did. */
module BucketTimes {
  import opened Prelude
  import opened Model
  import opened Bucketer
  import opened BucketTrace

  /** The latest timestamp pushed so far. */
  function Latest(pushes: seq<Push>): nat
    requires pushes != []
  {
    var n := |pushes| - 1;
    if n == 0 || pushes[n].ts > Latest(pushes[..n]) then pushes[n].ts else Latest(pushes[..n])
  }

  lemma {:induction false} LatestIs(pushes: seq<Push>)
    requires pushes != []
    ensures exists i :: 0 <= i < |pushes| && pushes[i].ts == Latest(pushes)
    ensures forall i | 0 <= i < |pushes| :: pushes[i].ts <= Latest(pushes)
  {
    var n := |pushes| - 1;
    if n == 0 {
      assert pushes[0].ts == Latest(pushes);
    } else {
      LatestIs(pushes[..n]);
      var i :| 0 <= i < n && pushes[..n][i].ts == Latest(pushes[..n]);
      assert pushes[i].ts == Latest(pushes[..n]) && pushes[n].ts <= Latest(pushes);
      assert pushes[n].ts == Latest(pushes) || pushes[i].ts == Latest(pushes);
      forall k | 0 <= k < |pushes| ensures pushes[k].ts <= Latest(pushes) {
        assert k < n ==> pushes[..n][k] == pushes[k];
      }
    }
  }

  /** `b` is the multiple of the width that `ts` is at, or less than one width past. */
  predicate StartsAt(b: nat, ts: nat, width: nat)
    requires width > 0
  {
    b % width == 0 && b <= ts < b + width
  }

  lemma StartIsQuotient(b: nat, ts: nat, width: nat)
    requires width > 0 && StartsAt(b, ts, width)
    ensures b == ts / width * width
  {
    DivBounds(b, width);
    assert b == b / width * width;
    assert (b / width + 1) * width == b / width * width + width;
    DivIs(ts, b / width, width);
  }

  lemma AlignStartsAt(ts: nat, width: nat)
    requires width > 0
    ensures StartsAt(Align(ts, width), ts, width)
  {
    AlignedStart(ts, width);
  }

  lemma StartsGrow(a: nat, s: nat, b: nat, t: nat, width: nat)
    requires width > 0 && StartsAt(a, s, width) && StartsAt(b, t, width) && s <= t
    ensures a <= b
  {
    StartIsQuotient(a, s, width);
    StartIsQuotient(b, t, width);
    DivMonotone(s, t, width);
    MulMonotone(s / width, t / width, width);
  }

  /** Main result, for any clock: the open bucket is the greatest multiple of the width up to the latest timestamp. */
  lemma {:induction false} OpenBucketHoldsLatest(width: nat, pushes: seq<Push>)
    requires width > 0 && pushes != []
    ensures StartsAt(OpenBucket(width, pushes), Latest(pushes), width)
    decreases |pushes|
  {
    var n := |pushes| - 1;
    AlignStartsAt(pushes[n].ts, width);
    if n > 0 {
      OpenBucketHoldsLatest(width, pushes[..n]);
      var before, start := OpenBucket(width, pushes[..n]), Align(pushes[n].ts, width);
      if pushes[n].ts > Latest(pushes[..n]) {
        StartsGrow(before, Latest(pushes[..n]), start, pushes[n].ts, width);
      } else {
        StartsGrow(start, pushes[n].ts, before, Latest(pushes[..n]), width);
      }
    }
  }

  // ----- What a bucket collects -----

  /** The readings of the pushes during which the latest timestamp lay in an interval, in order. */
  function CollectedIn(pushes: seq<Push>, lo: nat, hi: nat): seq<Reading> {
    if pushes == [] then []
    else
      CollectedIn(pushes[..|pushes| - 1], lo, hi)
      + if lo <= Latest(pushes) < hi then Readings(pushes[|pushes| - 1].containers) else []
  }

  /** The readings of the pushes whose own timestamp lies in an interval, in order. */
  function PushedIn(pushes: seq<Push>, lo: nat, hi: nat): seq<Reading> {
    if pushes == [] then []
    else
      PushedIn(pushes[..|pushes| - 1], lo, hi)
      + if lo <= pushes[|pushes| - 1].ts < hi then Readings(pushes[|pushes| - 1].containers) else []
  }

  lemma {:induction false} OpenIff(width: nat, pushes: seq<Push>, b: nat)
    requires width > 0 && pushes != [] && b % width == 0
    ensures OpenBucket(width, pushes) == b <==> b <= Latest(pushes) < b + width
  {
    OpenBucketHoldsLatest(width, pushes);
    if b <= Latest(pushes) < b + width {
      StartIsQuotient(b, Latest(pushes), width);
      StartIsQuotient(OpenBucket(width, pushes), Latest(pushes), width);
    }
  }

  /** Main result, for any clock: a bucket collects what is pushed while the latest timestamp lies within it. */
  lemma {:induction false} BucketCollects(width: nat, pushes: seq<Push>, b: nat)
    requires width > 0 && b % width == 0
    ensures BucketReadings(width, pushes, b) == CollectedIn(pushes, b, b + width)
    decreases |pushes|
  {
    if pushes != [] {
      BucketCollects(width, pushes[..|pushes| - 1], b);
      OpenIff(width, pushes, b);
    }
  }

  ghost predicate ClockAdvances(pushes: seq<Push>) {
    forall i, j | 0 <= i <= j < |pushes| :: pushes[i].ts <= pushes[j].ts
  }

  /** With a clock that never steps back, a bucket collects exactly what is pushed at its timestamps. */
  lemma {:induction false} CollectedIsPushed(pushes: seq<Push>, lo: nat, hi: nat)
    requires ClockAdvances(pushes)
    ensures CollectedIn(pushes, lo, hi) == PushedIn(pushes, lo, hi)
    decreases |pushes|
  {
    if pushes != [] {
      CollectedIsPushed(pushes[..|pushes| - 1], lo, hi);
      LatestIs(pushes);
    }
  }

  lemma {:induction false} StillCollected(width: nat, pushes: seq<Push>, n: nat, b: nat, r: Reading)
    requires width > 0 && n <= |pushes| && r in BucketReadings(width, pushes[..n], b)
    ensures r in BucketReadings(width, pushes, b)
    decreases |pushes|
  {
    if n < |pushes| {
      assert pushes[..|pushes| - 1][..n] == pushes[..n];
      StillCollected(width, pushes[..|pushes| - 1], n, b, r);
    } else {
      assert pushes[..n] == pushes;
    }
  }

  /** A reading pushed while no earlier timestamp was larger is collected under its own timestamp's bucket. */
  lemma {:induction false} PushCollected(width: nat, pushes: seq<Push>, n: nat, r: Reading) returns (b: nat)
    requires width > 0 && n < |pushes| && r in Readings(pushes[n].containers)
    requires forall i | 0 <= i < n :: pushes[i].ts <= pushes[n].ts
    ensures b % width == 0 && b <= pushes[n].ts < b + width
    ensures r in BucketReadings(width, pushes, b)
  {
    var some := pushes[..n + 1];
    assert forall i | 0 <= i <= n :: some[i] == pushes[i];
    LatestIs(some);
    OpenBucketHoldsLatest(width, some);
    b := OpenBucket(width, some);
    StillCollected(width, pushes, n + 1, b, r);
  }

  /** A row's extremes are samples that go by its name among those collected in its bucket. */
  ghost predicate FromBucket(t: Trend, width: nat, pushes: seq<Push>)
    requires width > 0
  {
    && t.bucketStart % width == 0 && t.bucketSecs == width / 1000 && t.metric.Known?
    && t.min in Attributed(BucketReadings(width, pushes, t.bucketStart), t.name, t.metric.metric)
    && t.max in Attributed(BucketReadings(width, pushes, t.bucketStart), t.name, t.metric.metric)
  }

  lemma {:induction false} RowBucket(
      width: nat, host: string, pushes: seq<Push>, states: seq<State>, flushes: seq<seq<Trend>>, n: nat, t: Trend)
    requires IsRun(width, host, pushes, states, flushes) && n < |flushes| && t in flushes[n]
    ensures FromBucket(t, width, pushes)
  {
    FlushIsClosedBucket(width, host, pushes, states, flushes, n);
    var b := OpenBucket(width, pushes[..n]);
    OpenBucketAligned(width, pushes[..n]);
    var rs := BucketReadings(width, pushes, b);
    RowExtremes(flushes[n], rs, b, width / 1000, host, t);
    var k := RowSource(flushes[n], rs, b, width / 1000, host, t);
  }

  /** The samples that go by a name among those collected while the latest timestamp lay in an interval. */
  ghost function SamplesIn(pushes: seq<Push>, lo: nat, hi: nat, name: string, m: Metric): set<real> {
    Attributed(CollectedIn(pushes, lo, hi), name, m)
  }

  lemma {:induction false} BucketSamplesAre(width: nat, pushes: seq<Push>, b: nat, name: string, m: Metric)
    requires width > 0 && b % width == 0
    ensures Attributed(BucketReadings(width, pushes, b), name, m) == SamplesIn(pushes, b, b + width, name, m)
  {
    BucketCollects(width, pushes, b);
  }

  /** The same in terms of the timestamps. */
  ghost predicate FromTimes(t: Trend, width: nat, pushes: seq<Push>)
    requires width > 0
  {
    && t.bucketStart % width == 0 && t.bucketSecs == width / 1000 && t.metric.Known?
    && t.min in SamplesIn(pushes, t.bucketStart, t.bucketStart + width, t.name, t.metric.metric)
    && t.max in SamplesIn(pushes, t.bucketStart, t.bucketStart + width, t.name, t.metric.metric)
  }

  lemma BucketIsTimes(t: Trend, width: nat, pushes: seq<Push>)
    requires width > 0 && FromBucket(t, width, pushes)
    ensures FromTimes(t, width, pushes)
  {
    BucketSamplesAre(width, pushes, t.bucketStart, t.name, t.metric.metric);
  }

  /**
   * Main result on rows: an emitted row starts at a multiple of the width, and its extremes are samples that go by
   * its name among those collected while the latest timestamp lay within the width from there.
   */
  lemma {:induction false} RowTimes(
      width: nat, host: string, pushes: seq<Push>, states: seq<State>, flushes: seq<seq<Trend>>, n: nat, t: Trend)
    requires IsRun(width, host, pushes, states, flushes) && n < |flushes| && t in flushes[n]
    ensures FromTimes(t, width, pushes)
  {
    RowBucket(width, host, pushes, states, flushes, n, t);
    BucketIsTimes(t, width, pushes);
  }
}
