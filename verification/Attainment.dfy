/** Exactly how many points a history request can be answered with. */
module Attainment {
  import opened Prelude
  import opened Model
  import opened TrendTable
  import opened TableInvariants
  import opened History
  import opened Window

  // ----- Counting multiples -----

  lemma FactorsDiffer(a: nat, b: nat, g: nat)
    requires a < b && g > 0
    ensures a * g < b * g
  {
    MulMonotone(a + 1, b, g);
    assert (a + 1) * g == a * g + g;
  }

  /** The multiples `lo * g`, ..., `(lo + n - 1) * g`. */
  function Multiples(lo: nat, n: nat, g: nat): seq<nat> {
    seq(n, i requires 0 <= i < n => (lo + i) * g)
  }

  lemma MultiplesCount(lo: nat, n: nat, g: nat)
    requires g > 0
    ensures |Elements(Multiples(lo, n, g))| == n
  {
    var s := Multiples(lo, n, g);
    forall i, j | 0 <= i < j < n ensures s[i] != s[j] {
      FactorsDiffer(lo + i, lo + j, g);
    }
    DistinctSize(s);
  }

  /** Whatever lies in the interval starts its group at one of these multiples. */
  lemma StartIsMultiple(ts: nat, since: nat, until: nat, g: nat)
    requires g > 0 && since <= ts <= until
    ensures Start(ts, g) in Elements(Multiples(since / g, GroupsTouched(since, until, g), g))
  {
    DivMonotone(since, ts, g);
    DivMonotone(ts, until, g);
    var i := ts / g - since / g;
    var s := Multiples(since / g, GroupsTouched(since, until, g), g);
    assert s[i] == ts / g * g;
  }

  // ----- Raw answers -----

  lemma TouchedPositive(since: nat, until: nat, g: nat)
    requires g > 0 && since <= until
    ensures GroupsTouched(since, until, g) > 0
  {
    DivMonotone(since, until, g);
  }

  /** The first timestamp of the interval in its `i`-th group. */
  function FirstIn(since: nat, g: nat, i: nat): nat
    requires g > 0
  {
    if i == 0 then since else (since / g + i) * g
  }

  lemma FirstInGroup(since: nat, until: nat, g: nat, i: nat)
    requires g > 0 && since <= until && i < GroupsTouched(since, until, g)
    ensures since <= FirstIn(since, g, i) <= until
    ensures Start(FirstIn(since, g, i), g) == (since / g + i) * g
  {
    DivBounds(since, g);
    DivBounds(until, g);
    if i > 0 {
      MulMonotone(since / g + 1, since / g + i, g);
      MulMonotone(since / g + i, until / g, g);
      assert (since / g + i + 1) * g == (since / g + i) * g + g;
      DivIs((since / g + i) * g, since / g + i, g);
    }
  }

  /** One sample in each group the interval touches. */
  function SamplePerGroup(host: string, c: Container, since: nat, g: nat, n: nat): seq<Sample>
    requires g > 0
  {
    seq(n, i requires 0 <= i < n => Sample(host, FirstIn(since, g, i), c))
  }

  lemma RawAttained(host: string, c: Container, since: nat, until: nat, g: nat)
    requires g > 0 && since <= until
    ensures var n := GroupsTouched(since, until, g);
            n > 0 && |HistoryRaw(SamplePerGroup(host, c, since, g, n), host, c.id, since, until, g)| == n
  {
    TouchedPositive(since, until, g);
    var n := GroupsTouched(since, until, g);
    var samples, s := SamplePerGroup(host, c, since, g, n), Multiples(since / g, n, g);
    var ps := RawPoints(samples, host, c.id, since, until);
    RawPointsInWindow(samples, host, c.id, since, until);
    forall p | p in ps ensures Start(p.ts, g) in Elements(s) {
      StartIsMultiple(p.ts, since, until, g);
    }
    forall x | x in Elements(s) ensures x in Starts(ps, g) {
      var i :| 0 <= i < n && s[i] == x;
      FirstInGroup(since, until, g, i);
      assert samples[i] in samples;
      RawIncluded(samples, host, c.id, since, until, samples[i]);
    }
    assert Starts(ps, g) == Elements(s);
    MultiplesCount(since / g, n, g);
    GroupsAscend(ps, g);
  }

  lemma RawBounded(samples: seq<Sample>, host: string, id: string, since: nat, until: nat, g: nat)
    requires g > 0 && since <= until
    ensures |HistoryRaw(samples, host, id, since, until, g)| <= GroupsTouched(since, until, g)
  {
    RawPointsInWindow(samples, host, id, since, until);
    PointsBounded(RawPoints(samples, host, id, since, until), g, since, until);
  }

  // ----- Trend answers -----

  /** Bucket starts are multiples of the bucket width. */
  predicate WholeBuckets(table: Table, width: nat)
    requires width > 0
  {
    forall key | key in table :: key.bucketStart % width == 0
  }

  predicate IsBucket(b: nat, width: nat, since: nat, until: nat)
    requires width > 0
  {
    since <= b <= until && b % width == 0
  }

  /** The groups that contain a bucket of the window. */
  ghost function HitGroups(width: nat, since: nat, until: nat, g: nat): set<nat>
    requires width > 0 && g > 0
  {
    set b | since <= b <= until && IsBucket(b, width, since, until) :: Start(b, g)
  }

  ghost function BucketKeys(host: string, name: string, width: nat, since: nat, until: nat): set<RowKey>
    requires width > 0
  {
    set b | since <= b <= until && IsBucket(b, width, since, until) :: RowKey(host, name, b)
  }

  /** A row for every bucket of the window. */
  ghost function FullTable(host: string, name: string, width: nat, since: nat, until: nat, row: Wide): Table
    requires width > 0
  {
    map key | key in BucketKeys(host, name, width, since, until) :: row
  }

  lemma TrendBounded(table: Table, host: string, name: string, width: nat, since: nat, until: nat, g: nat)
    requires width > 0 && g > 0 && WholeBuckets(table, width)
    ensures |HistoryContainer(table, host, name, since, until, g)| <= |HitGroups(width, since, until, g)|
  {
    var ps := ContainerPoints(table, host, name, since, until);
    GroupsAscend(ps, g);
    forall p | p in ps ensures Start(p.ts, g) in HitGroups(width, since, until, g) {
      PointIsBucket(table, host, name, width, since, until, p);
    }
    SubsetSize(Starts(ps, g), HitGroups(width, since, until, g));
  }

  lemma PointIsBucket(table: Table, host: string, name: string, width: nat, since: nat, until: nat, p: Point)
    requires width > 0 && WholeBuckets(table, width) && p in ContainerPoints(table, host, name, since, until)
    ensures IsBucket(p.ts, width, since, until)
  {
    var starts, ps := ContainerStarts(table, host, name, since, until),
                      ContainerPoints(table, host, name, since, until);
    SortedIs(starts);
    var i :| 0 <= i < |ps| && ps[i] == p;
    assert Sorted(starts)[i] in starts;
  }

  lemma TrendAttained(host: string, name: string, width: nat, since: nat, until: nat, g: nat, row: Wide)
    requires width > 0 && g > 0
    ensures WholeBuckets(FullTable(host, name, width, since, until, row), width)
    ensures |HistoryContainer(FullTable(host, name, width, since, until, row), host, name, since, until, g)|
         == |HitGroups(width, since, until, g)|
  {
    var table := FullTable(host, name, width, since, until, row);
    var starts, ps := ContainerStarts(table, host, name, since, until),
                      ContainerPoints(table, host, name, since, until);
    GroupsAscend(ps, g);
    SortedIs(starts);
    forall b | IsBucket(b, width, since, until) ensures Start(b, g) in Starts(ps, g) {
      assert RowKey(host, name, b) in BucketKeys(host, name, width, since, until);
      assert RowKey(host, name, b) in table && RowKey(host, name, b).bucketStart in starts;
      var i :| 0 <= i < |Sorted(starts)| && Sorted(starts)[i] == b;
      assert ps[i].ts == b && ps[i] in ps;
    }
    forall p | p in ps ensures Start(p.ts, g) in HitGroups(width, since, until, g) {
      PointIsBucket(table, host, name, width, since, until, p);
    }
    assert Starts(ps, g) == HitGroups(width, since, until, g);
  }

  // ----- The number of groups hit, in closed form -----

  function RoundUp(a: nat, width: nat): nat
    requires width > 0
  {
    DivCeil(a, width) * width
  }

  function RoundDown(a: nat, width: nat): nat
    requires width > 0
  {
    a / width * width
  }

  lemma RoundUpIs(a: nat, width: nat)
    requires width > 0
    ensures a <= RoundUp(a, width) < a + width
    ensures RoundUp(a, width) % width == 0 && RoundUp(a, width) / width == DivCeil(a, width)
  {
    DivBounds(a, width);
    MultipleIs(DivCeil(a, width), width);
    assert (a / width + 1) * width == a / width * width + width;
  }

  lemma MultipleIs(q: nat, width: nat)
    requires width > 0
    ensures q * width % width == 0 && q * width / width == q
  {
    DivIs(q * width, q, width);
    assert (q + 1) * width == q * width + width;
    DivBounds(q * width, width);
  }

  /** A multiple at or above `a` is at or above `a` rounded up; one at or below is at or below it rounded down. */
  lemma RoundedBounds(b: nat, a: nat, width: nat)
    requires width > 0 && b % width == 0
    ensures a <= b <==> RoundUp(a, width) <= b
    ensures b <= a <==> b <= RoundDown(a, width)
  {
    RoundUpIs(a, width);
    DivBounds(a, width);
    DivBounds(b, width);
    assert b == b / width * width;
    if a <= b && RoundUp(a, width) > b {
      SameMultiple(RoundUp(a, width), b, width);
    }
    if b <= a {
      DivMonotone(b, a, width);
      MulMonotone(b / width, a / width, width);
    }
  }

  /** Two multiples less than the width apart are the same. */
  lemma SameMultiple(a: nat, b: nat, width: nat)
    requires width > 0 && a % width == 0 && b % width == 0 && b <= a < b + width
    ensures a == b
  {
    DivBounds(a, width);
    DivBounds(b, width);
    assert a == a / width * width && b == b / width * width;
    DivMonotone(b, a, width);
    assert (b / width + 1) * width == b / width * width + width;
    if b / width < a / width {
      MulMonotone(b / width + 1, a / width, width);
    }
  }

  /** The most points a table of buckets of this width can give: what a request may be answered with. */
  function MostPoints(width: nat, since: nat, until: nat, g: nat): int
    requires width > 0 && g > 0
  {
    var first, last := RoundUp(since, width), RoundDown(until, width);
    if first > last then 0 else GroupsTouched(first, last, if width <= g then g else width)
  }

  lemma NothingHit(width: nat, since: nat, until: nat, g: nat)
    requires width > 0 && g > 0 && RoundUp(since, width) > RoundDown(until, width)
    ensures HitGroups(width, since, until, g) == {}
  {
    forall b | IsBucket(b, width, since, until) ensures false {
      RoundedBounds(b, since, width);
      RoundedBounds(b, until, width);
    }
  }

  lemma BucketBetween(b: nat, width: nat, since: nat, until: nat)
    requires width > 0
    ensures IsBucket(b, width, since, until)
       <==> b % width == 0 && RoundUp(since, width) <= b <= RoundDown(until, width)
  {
    if b % width == 0 {
      RoundedBounds(b, since, width);
      RoundedBounds(b, until, width);
    }
  }

  /** Buckets no wider than the groups hit every group between the first and the last of them. */
  lemma NarrowBuckets(width: nat, since: nat, until: nat, g: nat)
    requires 0 < width <= g && RoundUp(since, width) <= RoundDown(until, width)
    ensures |HitGroups(width, since, until, g)| == MostPoints(width, since, until, g)
  {
    var first, last := RoundUp(since, width), RoundDown(until, width);
    var n := GroupsTouched(first, last, g);
    TouchedPositive(first, last, g);
    var s := Multiples(first / g, n, g);
    forall b | IsBucket(b, width, since, until) ensures Start(b, g) in Elements(s) {
      BucketBetween(b, width, since, until);
      StartIsMultiple(b, first, last, g);
    }
    forall x | x in Elements(s) ensures x in HitGroups(width, since, until, g) {
      var i :| 0 <= i < n && s[i] == x;
      BucketInGroup(width, since, until, g, i);
    }
    assert HitGroups(width, since, until, g) == Elements(s);
    MultiplesCount(first / g, n, g);
  }

  lemma BucketInGroup(width: nat, since: nat, until: nat, g: nat, i: nat)
    requires 0 < width <= g && RoundUp(since, width) <= RoundDown(until, width)
    requires i < GroupsTouched(RoundUp(since, width), RoundDown(until, width), g)
    ensures (RoundUp(since, width) / g + i) * g in HitGroups(width, since, until, g)
  {
    var first, last := RoundUp(since, width), RoundDown(until, width);
    var x := FirstIn(first, g, i);
    FirstInGroup(first, last, g, i);
    var b := RoundUp(x, width);
    RoundUpIs(since, width);
    RoundUpIs(x, width);
    MultipleIs(until / width, width);
    RoundedBounds(last, x, width);
    if i == 0 {
      SameMultiple(b, x, width);
    } else {
      var q := first / g + i;
      assert (q + 1) * g == q * g + g;
      DivIs(b, q, g);
    }
    RoundedBounds(b, until, width);
    assert IsBucket(b, width, since, until);
  }

  /** Buckets wider than the groups each hit a group of their own. */
  lemma WideBuckets(width: nat, since: nat, until: nat, g: nat)
    requires 0 < g < width && RoundUp(since, width) <= RoundDown(until, width)
    ensures |HitGroups(width, since, until, g)| == MostPoints(width, since, until, g)
  {
    var first, last := RoundUp(since, width), RoundDown(until, width);
    var n := GroupsTouched(first, last, width);
    TouchedPositive(first, last, width);
    var s := seq(n, i requires 0 <= i < n => Start(Nth(first, width, i), g));
    forall i, j | 0 <= i < j < n ensures s[i] != s[j] {
      NthApart(first, width, i, j);
      StartsApart(Nth(first, width, i), Nth(first, width, j), g);
    }
    DistinctSize(s);
    forall x | x in Elements(s) ensures x in HitGroups(width, since, until, g) {
      var i :| 0 <= i < n && s[i] == x;
      NthBucket(width, since, until, i);
    }
    forall b | IsBucket(b, width, since, until) ensures Start(b, g) in Elements(s) {
      var i := BucketNumber(width, since, until, b);
      assert s[i] == Start(b, g);
    }
    assert HitGroups(width, since, until, g) == Elements(s);
  }

  /** The `i`-th multiple of the width from `first` on. */
  function Nth(first: nat, width: nat, i: nat): nat
    requires width > 0
  {
    (first / width + i) * width
  }

  lemma NthApart(first: nat, width: nat, i: nat, j: nat)
    requires width > 0 && i < j
    ensures Nth(first, width, i) + width <= Nth(first, width, j)
  {
    MulMonotone(first / width + i + 1, first / width + j, width);
    assert (first / width + i + 1) * width == (first / width + i) * width + width;
  }

  lemma StartsApart(a: nat, b: nat, g: nat)
    requires g > 0 && a + g <= b
    ensures Start(a, g) < Start(b, g)
  {
    StartBelow(a, g);
    StartBelow(b, g);
  }

  lemma NthBucket(width: nat, since: nat, until: nat, i: nat)
    requires width > 0 && RoundUp(since, width) <= RoundDown(until, width)
    requires i < GroupsTouched(RoundUp(since, width), RoundDown(until, width), width)
    ensures IsBucket(Nth(RoundUp(since, width), width, i), width, since, until)
  {
    var first, last := RoundUp(since, width), RoundDown(until, width);
    RoundUpIs(since, width);
    MultipleIs(first / width + i, width);
    MultipleIs(until / width, width);
    DivBounds(first, width);
    DivBounds(until, width);
    MulMonotone(first / width, first / width + i, width);
    MulMonotone(first / width + i, last / width, width);
    MultipleIs(first / width, width);
    BucketBetween((first / width + i) * width, width, since, until);
  }

  lemma BucketNumber(width: nat, since: nat, until: nat, b: nat) returns (i: nat)
    requires width > 0 && RoundUp(since, width) <= RoundDown(until, width) && IsBucket(b, width, since, until)
    ensures i < GroupsTouched(RoundUp(since, width), RoundDown(until, width), width)
    ensures Nth(RoundUp(since, width), width, i) == b
  {
    BucketBetween(b, width, since, until);
    DivMonotone(RoundUp(since, width), b, width);
    DivMonotone(b, RoundDown(until, width), width);
    DivBounds(b, width);
    i := b / width - RoundUp(since, width) / width;
  }

  lemma HitGroupsCount(width: nat, since: nat, until: nat, g: nat)
    requires width > 0 && g > 0
    ensures |HitGroups(width, since, until, g)| == MostPoints(width, since, until, g)
  {
    if RoundUp(since, width) > RoundDown(until, width) {
      NothingHit(width, since, until, g);
    } else if width <= g {
      NarrowBuckets(width, since, until, g);
    } else {
      WideBuckets(width, since, until, g);
    }
  }

  lemma MostReached(host: string, name: string, width: nat, since: nat, until: nat, g: nat) returns (table: Table)
    requires width > 0 && g > 0
    ensures WholeBuckets(table, width) && TableOk(table)
    ensures |HistoryContainer(table, host, name, since, until, g)| == MostPoints(width, since, until, g)
  {
    var row := Wide(width / 1000, "id", None, 1, PerMetric(m => Cols(Some(0.0), Some(0.0), Some(0.0))));
    table := FullTable(host, name, width, since, until, row);
    HitGroupsCount(width, since, until, g);
    TrendAttained(host, name, width, since, until, g, row);
  }

  // ----- A request as a whole -----

  /** The most points a request can be answered with, from any samples and from a table of one bucket width. */
  function RequestMost(w: HistoryWindow, width: nat): int
    requires width > 0 && w.since <= w.until && w.group > 0
  {
    if w.raw then GroupsTouched(w.since, w.until, RawGroupForWindow(w.until - w.since))
    else MostPoints(width, w.since, w.until, w.group)
  }

  lemma AnswerAtMost(
      w: HistoryWindow, width: nat, samples: seq<Sample>, table: Table, host: string, id: string, name: Option<string>)
    requires width > 0 && w.since <= w.until && w.group > 0 && WholeBuckets(table, width)
    ensures |Answer(w, samples, table, host, id, name)| <= RequestMost(w, width)
  {
    HitGroupsCount(width, w.since, w.until, w.group);
    if w.raw {
      RawBounded(samples, host, id, w.since, w.until, RawGroupForWindow(w.until - w.since));
    } else if name.Some? {
      TrendBounded(table, host, name.value, width, w.since, w.until, w.group);
    }
  }

  lemma AnswerReaches(w: HistoryWindow, width: nat, host: string, c: Container, name: string)
      returns (samples: seq<Sample>, table: Table)
    requires width > 0 && w.since <= w.until && w.group > 0
    ensures WholeBuckets(table, width) && TableOk(table)
    ensures |Answer(w, samples, table, host, c.id, Some(name))| == RequestMost(w, width)
  {
    samples := [];
    table := MostReached(host, name, width, w.since, w.until, w.group);
    if w.raw {
      var g := RawGroupForWindow(w.until - w.since);
      RawAttained(host, c, w.since, w.until, g);
      samples := SamplePerGroup(host, c, w.since, g, GroupsTouched(w.since, w.until, g));
    }
  }

  ghost predicate AnswerExceeds(
      w: HistoryWindow, samples: seq<Sample>, table: Table, host: string, id: string, name: string, n: nat)
    requires w.since <= w.until
  {
    |Answer(w, samples, table, host, id, Some(name))| > n
  }

  /**
   * Main result, for every request: some samples and some sound table of buckets of this width make the answer
   * exceed `n` points exactly when the closed form does.
   */
  lemma AnswerExceedsIff(
      q: HistoryQuery, now: nat, seedWindow: nat, width: nat, host: string, c: Container, name: string, n: nat)
    requires width > 0 && ResolveHistory(q, now, seedWindow).Some?
    ensures var w := ResolveHistory(q, now, seedWindow).value;
            && w.since <= w.until && w.group > 0
            && ((exists samples, table :: WholeBuckets(table, width) && TableOk(table)
                   && AnswerExceeds(w, samples, table, host, c.id, name, n))
                <==> RequestMost(w, width) > n)
  {
    var w := ResolveHistory(q, now, seedWindow).value;
    ResolvedWindow(q, now, seedWindow);
    TrendGroupsBounded(w.since, w.until);
    var s, t := AnswerReaches(w, width, host, c, name);
    assert RequestMost(w, width) > n ==> AnswerExceeds(w, s, t, host, c.id, name, n);
    if samples, table :| WholeBuckets(table, width) && TableOk(table)
                         && AnswerExceeds(w, samples, table, host, c.id, name, n) {
      AnswerAtMost(w, width, samples, table, host, c.id, Some(name));
    }
  }

  // ----- Numbers -----

  /** Buckets of whole minutes, as by default, give at most 1441 points, for every window and alignment. */
  lemma MinuteBucketsBounded(width: nat, since: nat, until: nat)
    requires width > 0 && width % 60_000 == 0 && since <= until
    ensures GroupForWindow(until - since) > 0
    ensures MostPoints(width, since, until, GroupForWindow(until - since)) <= 1441
  {
    TrendGroupsBounded(since, until);
    var g, first, last := GroupForWindow(until - since), RoundUp(since, width), RoundDown(until, width);
    if first <= last {
      MinuteSpan(width, since, until);
      if width <= g {
        MinuteTouched(first, last, g);
      } else {
        RoundUpIs(since, width);
        MultipleIs(until / width, width);
        MulMonotone(g, width, 1440);
        MinuteTouched(first, last, width);
      }
    }
  }

  lemma MinuteTouched(first: nat, last: nat, g: nat)
    requires g > 0 && first <= last <= first + 1440 * g
    ensures GroupsTouched(first, last, g) <= 1441
  {
    if last == first + 1440 * g {
      DivBounds(first, g);
      assert (first / g + 1440) * g == first / g * g + 1440 * g;
      assert (first / g + 1440 + 1) * g == (first / g + 1) * g + 1440 * g;
      DivIs(last, first / g + 1440, g);
    } else {
      TouchedBounded(first, last, g, 1439);
    }
  }

  lemma MinuteMultiple(q: nat, width: nat)
    requires width % 60_000 == 0
    ensures q * width % 60_000 == 0
  {
    var k := width / 60_000;
    assert width == k * 60_000;
    assert q * width == (q * k) * 60_000;
    MultipleIs(q * k, 60_000);
  }

  /** The first and last bucket of a window of whole minutes are at most 1440 groups apart. */
  lemma MinuteSpan(width: nat, since: nat, until: nat)
    requires width > 0 && width % 60_000 == 0 && since <= until
    requires RoundUp(since, width) <= RoundDown(until, width)
    ensures RoundDown(until, width) - RoundUp(since, width) <= 1440 * GroupForWindow(until - since)
  {
    var first, last := RoundUp(since, width), RoundDown(until, width);
    RoundUpIs(since, width);
    DivBounds(until, width);
    MinuteMultiple(DivCeil(since, width), width);
    MinuteMultiple(until / width, width);
    MinuteDifference(last, first);
    MinuteGroup(until - since);
    MinuteSteps(last - first, GroupForWindow(until - since));
  }

  lemma MinuteDifference(a: nat, b: nat)
    requires b <= a && a % 60_000 == 0 && b % 60_000 == 0
    ensures (a - b) % 60_000 == 0
  {
  }

  /** The group is whole minutes, and 1440 of them cover the window to within 1440 ms. */
  lemma MinuteGroup(w: nat)
    ensures GroupForWindow(w) % 60_000 == 0 && w < 1440 * GroupForWindow(w) + 1440
  {
    DivCeilCovers(w / TARGET_POINTS, 60_000);
    MultipleIs(AtLeastOne(DivCeil(w / TARGET_POINTS, 60_000)), 60_000);
  }

  lemma MinuteSteps(d: nat, g: nat)
    requires d % 60_000 == 0 && g % 60_000 == 0 && d < 1440 * g + 1440
    ensures d <= 1440 * g
  {
    var a, b := d / 60_000, g / 60_000;
    assert d == a * 60_000 && g == b * 60_000;
  }

  /** The caps are reached: 2880 raw points, 1442 from buckets of a second, and 1441 from buckets of a minute. */
  lemma CapsAreReached(host: string, name: string, c: Container)
      returns (samples: seq<Sample>, seconds: Table, minutes: Table)
    ensures |RawAnswer(samples, host, c.id, 0, 2879)| == 2880
    ensures WholeBuckets(seconds, 1000) && TableOk(seconds)
    ensures |HistoryContainer(seconds, host, name, 59_000, 86_460_000, GroupForWindow(86_401_000))| == 1442
    ensures WholeBuckets(minutes, 60_000) && TableOk(minutes)
    ensures |HistoryContainer(minutes, host, name, 0, 86_400_000, GroupForWindow(86_400_000))| == 1441
  {
    samples := SamplePerGroup(host, c, 0, 1, 2880);
    assert RawGroupForWindow(2879 - 0) == 1 && GroupsTouched(0, 2879, 1) == 2880;
    RawAttained(host, c, 0, 2879, 1);
    assert GroupForWindow(86_401_000) == 60_000 && GroupForWindow(86_400_000) == 60_000;
    seconds := MostReached(host, name, 1000, 59_000, 86_460_000, 60_000);
    assert MostPoints(1000, 59_000, 86_460_000, 60_000) == 1442;
    minutes := MostReached(host, name, 60_000, 0, 86_400_000, 60_000);
    assert MostPoints(60_000, 0, 86_400_000, 60_000) == 1441;
  }

  // ----- Samples at least some time apart -----

  predicate Spaced(ps: seq<Point>, d: nat) {
    forall i, j | 0 <= i < j < |ps| :: ps[i].ts + d <= ps[j].ts
  }

  lemma {:induction false} SpacedGrow(ps: seq<Point>, d: nat, since: nat, i: nat)
    requires Spaced(ps, d) && i < |ps| && since <= ps[0].ts
    ensures ps[i].ts >= since + i * d
  {
    if i > 0 {
      SpacedGrow(ps, d, since, i - 1);
      assert i * d == (i - 1) * d + d;
    }
  }

  lemma FewStarts(ps: seq<Point>, g: nat)
    requires g > 0
    ensures |Starts(ps, g)| <= |ps|
  {
    var s := seq(|ps|, i requires 0 <= i < |ps| => Start(ps[i].ts, g));
    forall x | x in Starts(ps, g) ensures x in Elements(s) {
      var p :| p in ps && Start(p.ts, g) == x;
      var i :| 0 <= i < |ps| && ps[i] == p;
      assert s[i] == x;
    }
    SubsetSize(Starts(ps, g), Elements(s));
    ElementsBounded(s);
  }

  /** Samples at least a second apart give at most 1443 raw points, for every window. */
  lemma {:induction false} SpacedAnswerBounded(samples: seq<Sample>, host: string, id: string, since: nat, until: nat)
    requires since <= until && Spaced(RawPoints(samples, host, id, since, until), 1000)
    ensures |RawAnswer(samples, host, id, since, until)| <= 1443
  {
    var ps, w, g := RawPoints(samples, host, id, since, until), until - since, RawGroupForWindow(until - since);
    RawPointsInWindow(samples, host, id, since, until);
    GroupsAscend(ps, g);
    if w < 1_440_000 {
      FewStarts(ps, g);
      if ps != [] {
        assert ps[0] in ps && ps[|ps| - 1] in ps;
        SpacedGrow(ps, 1000, since, |ps| - 1);
      }
    } else {
      assert w < 1440 * g + 1440 <= 1442 * g;
      TouchedBounded(since, until, g, 1441);
      PointsBounded(ps, g, since, until);
    }
  }
}
