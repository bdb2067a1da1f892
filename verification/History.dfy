/** History queries: selecting rows of a window and downsampling them into groups. */
module History {
  import opened Prelude
  import opened Model
  import opened TrendTable
  import opened TableInvariants

  datatype Point = Point(ts: nat, cols: Six)

  // ----- SQL aggregates: NULLs are ignored, and an aggregate of nothing is NULL -----

  function MinAgg(ps: seq<Point>, m: Metric): Option<real> {
    if ps == [] then None
    else
      var before, x := MinAgg(ps[..|ps| - 1], m), ps[|ps| - 1].cols.At(m).min;
      if x.None? then before else if before.None? then x else Some(Least(before.value, x.value))
  }

  function MaxAgg(ps: seq<Point>, m: Metric): Option<real> {
    if ps == [] then None
    else
      var before, x := MaxAgg(ps[..|ps| - 1], m), ps[|ps| - 1].cols.At(m).max;
      if x.None? then before else if before.None? then x else Some(Greatest(before.value, x.value))
  }

  datatype Total = Total(sum: real, count: nat)

  function MedTotal(ps: seq<Point>, m: Metric): Total {
    if ps == [] then Total(0.0, 0)
    else
      var before, x := MedTotal(ps[..|ps| - 1], m), ps[|ps| - 1].cols.At(m).med;
      if x.None? then before else Total(before.sum + x.value, before.count + 1)
  }

  function AvgAgg(ps: seq<Point>, m: Metric): Option<real> {
    SqlDiv(MedTotal(ps, m).sum, MedTotal(ps, m).count)
  }

  function AggregateCols(ps: seq<Point>, m: Metric): Cols {
    Cols(MinAgg(ps, m), AvgAgg(ps, m), MaxAgg(ps, m))
  }

  // ----- GROUP BY bucket ORDER BY bucket -----

  /** The start of the group of width `g` that `ts` lies in. */
  function Start(ts: nat, g: nat): nat
    requires g > 0
  {
    ts / g * g
  }

  function InGroup(ps: seq<Point>, g: nat, start: nat): seq<Point>
    requires g > 0
  {
    if ps == [] then []
    else
      var p := ps[|ps| - 1];
      InGroup(ps[..|ps| - 1], g, start) + if Start(p.ts, g) == start then [p] else []
  }

  function Starts(ps: seq<Point>, g: nat): set<nat>
    requires g > 0
  {
    set p | p in ps :: Start(p.ts, g)
  }

  lemma {:induction false} HasLeast(s: set<nat>, x: nat)
    requires x in s
    ensures exists y :: y in s && forall z | z in s :: y <= z
    decreases x
  {
    if y :| y in s && y < x {
      HasLeast(s, y);
    }
  }

  ghost function LeastOf(s: set<nat>): (x: nat)
    requires s != {}
    ensures x in s && forall y | y in s :: x <= y
  {
    var any :| any in s;
    HasLeast(s, any);
    var x :| x in s && forall y | y in s :: x <= y;
    x
  }

  /** A finite set in ascending order. */
  ghost function Sorted(s: set<nat>): seq<nat> {
    if s == {} then [] else [LeastOf(s)] + Sorted(s - {LeastOf(s)})
  }

  lemma {:induction false} SortedElements(s: set<nat>)
    ensures |Sorted(s)| == |s|
    ensures forall x :: x in Sorted(s) <==> x in s
  {
    if s != {} {
      var x := LeastOf(s);
      SortedElements(s - {x});
      assert forall y :: y in [x] + Sorted(s - {x}) <==> y == x || y in Sorted(s - {x});
    }
  }

  lemma {:induction false} SortedAscends(s: set<nat>, i: nat, j: nat)
    requires i < j < |Sorted(s)|
    ensures Sorted(s)[i] < Sorted(s)[j]
    decreases j
  {
    var x := LeastOf(s);
    var rest := Sorted(s - {x});
    if i > 0 {
      SortedAscends(s - {x}, i - 1, j - 1);
    } else {
      SortedElements(s - {x});
      assert rest[j - 1] in rest;
    }
  }

  lemma {:induction false} SortedIs(s: set<nat>)
    ensures |Sorted(s)| == |s|
    ensures forall x :: x in Sorted(s) <==> x in s
    ensures forall i, j | 0 <= i < j < |Sorted(s)| :: Sorted(s)[i] < Sorted(s)[j]
  {
    SortedElements(s);
    forall i, j | 0 <= i < j < |Sorted(s)| ensures Sorted(s)[i] < Sorted(s)[j] {
      SortedAscends(s, i, j);
    }
  }

  ghost function GroupPoint(ps: seq<Point>, g: nat, start: nat): Point
    requires g > 0
  {
    Point(start, PerMetric(m => AggregateCols(InGroup(ps, g, start), m)))
  }

  ghost function Downsample(ps: seq<Point>, g: nat): seq<Point>
    requires g > 0
  {
    var starts := Sorted(Starts(ps, g));
    seq(|starts|, i requires 0 <= i < |starts| => GroupPoint(ps, g, starts[i]))
  }

  // ----- The queries -----

  function AtLeastOne(g: nat): nat {
    if g == 0 then 1 else g
  }

  predicate InWindow(b: nat, since: nat, until: nat) {
    since <= b <= until
  }

  ghost function ContainerStarts(table: Table, host: string, name: string, since: nat, until: nat): set<nat> {
    set key | key in table && key.host == host && key.name == name && InWindow(key.bucketStart, since, until)
      :: key.bucketStart
  }

  /** The rows of one container in the window. */
  ghost function ContainerPoints(table: Table, host: string, name: string, since: nat, until: nat): seq<Point> {
    var starts := Sorted(ContainerStarts(table, host, name, since, until));
    SortedIs(ContainerStarts(table, host, name, since, until));
    seq(|starts|, i requires 0 <= i < |starts| =>
      assert starts[i] in ContainerStarts(table, host, name, since, until);
      Point(starts[i], table[RowKey(host, name, starts[i])].cols))
  }

  ghost function HistoryContainer(
      table: Table, host: string, name: string, since: nat, until: nat, g: nat): seq<Point>
  {
    Downsample(ContainerPoints(table, host, name, since, until), AtLeastOne(g))
  }

  ghost function MembersAt(table: Table, host: string, stack: string, b: nat): set<RowKey> {
    set key | key in table && key.host == host && table[key].stack == Some(stack) && key.bucketStart == b
  }

  /** Adding, with NULL as nothing. */
  function Plus(a: Option<real>, b: Option<real>): Option<real> {
    if b.None? then a else if a.None? then b else Some(a.value + b.value)
  }

  ghost function AnyOf(keys: set<RowKey>): (key: RowKey)
    requires keys != {}
    ensures key in keys
  {
    var key :| key in keys;
    key
  }

  /** SUM of one column over some rows. */
  ghost function SumOver(table: Table, keys: set<RowKey>, column: Wide -> Option<real>): Option<real>
    requires keys <= table.Keys
  {
    if keys == {} then None
    else Plus(SumOver(table, keys - {AnyOf(keys)}, column), column(table[AnyOf(keys)]))
  }

  ghost function SumCols(table: Table, keys: set<RowKey>, m: Metric): Cols
    requires keys <= table.Keys
  {
    Cols(SumOver(table, keys, (row: Wide) => row.cols.At(m).min),
         SumOver(table, keys, (row: Wide) => row.cols.At(m).med),
         SumOver(table, keys, (row: Wide) => row.cols.At(m).max))
  }

  ghost function StackStarts(table: Table, host: string, stack: string, since: nat, until: nat): set<nat> {
    set key | key in table && key.host == host && table[key].stack == Some(stack)
              && InWindow(key.bucketStart, since, until) :: key.bucketStart
  }

  /** The members of a stack, summed per bucket. */
  ghost function StackPoints(table: Table, host: string, stack: string, since: nat, until: nat): seq<Point> {
    var starts := Sorted(StackStarts(table, host, stack, since, until));
    seq(|starts|, i requires 0 <= i < |starts| =>
      Point(starts[i], PerMetric(m => SumCols(table, MembersAt(table, host, stack, starts[i]), m))))
  }

  ghost function HistoryStack(table: Table, host: string, stack: string, since: nat, until: nat, g: nat): seq<Point> {
    Downsample(StackPoints(table, host, stack, since, until), AtLeastOne(g))
  }

  /** One raw sample of one container. */
  datatype Sample = Sample(host: string, ts: nat, container: Container)

  /** The raw rows of one container id in the window; each column is its own minimum, mean and maximum. */
  function RawPoints(samples: seq<Sample>, host: string, id: string, since: nat, until: nat): seq<Point> {
    if samples == [] then []
    else
      var s := samples[|samples| - 1];
      RawPoints(samples[..|samples| - 1], host, id, since, until)
      + if s.host == host && s.container.id == id && InWindow(s.ts, since, until)
        then [Point(s.ts, PerMetric((m: Metric) =>
               Cols(s.container.Reading(m), s.container.Reading(m), s.container.Reading(m))))]
        else []
  }

  ghost function HistoryRaw(
      samples: seq<Sample>, host: string, id: string, since: nat, until: nat, g: nat): seq<Point>
  {
    Downsample(RawPoints(samples, host, id, since, until), AtLeastOne(g))
  }

  // ----- What grouping does -----

  lemma {:induction false} InGroupIs(ps: seq<Point>, g: nat, start: nat)
    requires g > 0
    ensures forall p :: p in InGroup(ps, g, start) <==> p in ps && Start(p.ts, g) == start
  {
    if ps != [] {
      InGroupIs(ps[..|ps| - 1], g, start);
      assert forall p :: p in ps <==> p in ps[..|ps| - 1] || p == ps[|ps| - 1];
    }
  }

  lemma StartBelow(ts: nat, g: nat)
    requires g > 0
    ensures Start(ts, g) <= ts < Start(ts, g) + g
    ensures Start(ts, g) / g == ts / g && Start(Start(ts, g), g) == Start(ts, g)
  {
    DivBounds(ts, g);
    DivIs(Start(ts, g), ts / g, g);
  }

  /** `ts` lies in the group that point `p` of width `g` stands for. */
  predicate Covers(p: Point, g: nat, ts: nat) {
    p.ts <= ts < p.ts + g
  }

  /** Points come out strictly ascending, one for each group, on multiples of the width. */
  lemma GroupsAscend(ps: seq<Point>, g: nat)
    requires g > 0
    ensures |Downsample(ps, g)| == |Starts(ps, g)|
    ensures forall i, j | 0 <= i < j < |Downsample(ps, g)| :: Downsample(ps, g)[i].ts < Downsample(ps, g)[j].ts
    ensures forall i | 0 <= i < |Downsample(ps, g)| ::
              Start(Downsample(ps, g)[i].ts, g) == Downsample(ps, g)[i].ts && Downsample(ps, g)[i].ts % g == 0
  {
    SortedIs(Starts(ps, g));
    forall i | 0 <= i < |Downsample(ps, g)|
      ensures Start(Downsample(ps, g)[i].ts, g) == Downsample(ps, g)[i].ts
      ensures Downsample(ps, g)[i].ts % g == 0
    {
      var p := InputOf(ps, g, i);
      StartBelow(p.ts, g);
      MultipleOf(p.ts / g, g);
    }
  }

  /** Main result: every row lies in exactly one group. */
  lemma GroupsPartition(ps: seq<Point>, g: nat, p: Point)
    requires g > 0 && p in ps
    ensures exists i :: 0 <= i < |Downsample(ps, g)| && Covers(Downsample(ps, g)[i], g, p.ts)
    ensures forall i, j | 0 <= i < j < |Downsample(ps, g)| ::
              !(Covers(Downsample(ps, g)[i], g, p.ts) && Covers(Downsample(ps, g)[j], g, p.ts))
  {
    var i := FinePointOf(ps, g, p);
    StartBelow(p.ts, g);
    assert Covers(Downsample(ps, g)[i], g, p.ts);
    GroupsAscend(ps, g);
    var out := Downsample(ps, g);
    forall i, j | 0 <= i < j < |out| ensures !(Covers(out[i], g, p.ts) && Covers(out[j], g, p.ts)) {
      GroupsDisjoint(out[i], out[j], g, p.ts);
    }
  }

  lemma GroupsDisjoint(a: Point, b: Point, g: nat, ts: nat)
    requires g > 0 && Start(a.ts, g) == a.ts < b.ts == Start(b.ts, g)
    ensures !(Covers(a, g, ts) && Covers(b, g, ts))
  {
    MultiplesApart(a.ts / g, b.ts / g, g);
  }

  lemma MultiplesApart(a: nat, b: nat, g: nat)
    requires g > 0 && a * g < b * g
    ensures a * g + g <= b * g
  {
    if a >= b {
      MulMonotone(b, a, g);
    }
    MulMonotone(a + 1, b, g);
    assert (a + 1) * g == a * g + g;
  }

  ghost function MinVals(ps: seq<Point>, m: Metric): set<real> {
    set p | p in ps && p.cols.At(m).min.Some? :: p.cols.At(m).min.value
  }

  ghost function MaxVals(ps: seq<Point>, m: Metric): set<real> {
    set p | p in ps && p.cols.At(m).max.Some? :: p.cols.At(m).max.value
  }

  lemma {:induction false} MinAggIs(ps: seq<Point>, m: Metric)
    ensures IsLeast(MinAgg(ps, m), MinVals(ps, m))
  {
    if ps != [] {
      var n := |ps| - 1;
      MinAggIs(ps[..n], m);
      assert forall p :: p in ps <==> p in ps[..n] || p == ps[n];
      var x := ps[n].cols.At(m).min;
      assert MinVals(ps, m) == MinVals(ps[..n], m) + if x.Some? then {x.value} else {};
    }
  }

  lemma {:induction false} MaxAggIs(ps: seq<Point>, m: Metric)
    ensures IsGreatest(MaxAgg(ps, m), MaxVals(ps, m))
  {
    if ps != [] {
      var n := |ps| - 1;
      MaxAggIs(ps[..n], m);
      assert forall p :: p in ps <==> p in ps[..n] || p == ps[n];
      var x := ps[n].cols.At(m).max;
      assert MaxVals(ps, m) == MaxVals(ps[..n], m) + if x.Some? then {x.value} else {};
    }
  }

  /** Position `i` of a downsampled history: the extremes of exactly its group's inputs. */
  lemma {:induction false} PointExtremes(ps: seq<Point>, g: nat, i: nat, m: Metric)
    requires g > 0 && i < |Downsample(ps, g)|
    ensures var p := Downsample(ps, g)[i];
            && IsLeast(p.cols.At(m).min, MinVals(InGroup(ps, g, p.ts), m))
            && IsGreatest(p.cols.At(m).max, MaxVals(InGroup(ps, g, p.ts), m))
  {
    var p := Downsample(ps, g)[i];
    var group := InGroup(ps, g, p.ts);
    assert p == GroupPoint(ps, g, p.ts) && p.cols.At(m) == AggregateCols(group, m);
    MinAggIs(group, m);
    MaxAggIs(group, m);
  }

  // ----- Ordered columns in every history -----

  /** The mean of the medians lies between the extremes. */
  lemma {:induction false} AverageBetween(ps: seq<Point>, m: Metric, lo: real, hi: real)
    requires forall p | p in ps && p.cols.At(m).med.Some? :: lo <= p.cols.At(m).med.value <= hi
    ensures var t := MedTotal(ps, m); Weight(lo, t.count) <= t.sum <= Weight(hi, t.count)
  {
    if ps != [] {
      var n := |ps| - 1;
      assert ps[n] in ps;
      AverageBetween(ps[..n], m, lo, hi);
      var before := MedTotal(ps[..n], m);
      WeightSpreads(lo, before.count, 1);
      WeightSpreads(hi, before.count, 1);
      assert Weight(lo, 1) == lo && Weight(hi, 1) == hi;
    }
  }

  lemma {:induction false} CountedIffAny(ps: seq<Point>, m: Metric)
    requires forall p | p in ps :: SixOk(p.cols)
    ensures MedTotal(ps, m).count == 0 <==> MinAgg(ps, m).None?
    ensures MinAgg(ps, m).None? <==> MaxAgg(ps, m).None?
  {
    if ps != [] {
      assert ps[|ps| - 1] in ps && ColsOk(ps[|ps| - 1].cols.At(m));
      CountedIffAny(ps[..|ps| - 1], m);
    }
  }

  lemma AggregateOk(ps: seq<Point>, m: Metric)
    requires forall p | p in ps :: SixOk(p.cols)
    ensures ColsOk(AggregateCols(ps, m))
  {
    CountedIffAny(ps, m);
    MinAggIs(ps, m);
    MaxAggIs(ps, m);
    if MinAgg(ps, m).Some? {
      var lo, hi, t := MinAgg(ps, m).value, MaxAgg(ps, m).value, MedTotal(ps, m);
      forall p | p in ps && p.cols.At(m).med.Some? ensures lo <= p.cols.At(m).med.value <= hi {
        assert ColsOk(p.cols.At(m));
        assert p.cols.At(m).min.value in MinVals(ps, m) && p.cols.At(m).max.value in MaxVals(ps, m);
      }
      AverageBetween(ps, m, lo, hi);
      QuotientBetween(t.sum, t.count, lo, hi);
    }
  }

  lemma DownsampleOk(ps: seq<Point>, g: nat)
    requires g > 0 && forall p | p in ps :: SixOk(p.cols)
    ensures forall p | p in Downsample(ps, g) :: SixOk(p.cols)
  {
    forall i | 0 <= i < |Downsample(ps, g)| ensures SixOk(Downsample(ps, g)[i].cols) {
      var start := Downsample(ps, g)[i].ts;
      InGroupIs(ps, g, start);
      forall m: Metric ensures ColsOk(Downsample(ps, g)[i].cols.At(m)) {
        AggregateOk(InGroup(ps, g, start), m);
        assert Downsample(ps, g)[i] == GroupPoint(ps, g, start);
      }
    }
  }

  /** Sums over the same rows keep the order of the columns, row by row. */
  lemma {:induction false} SumsOrdered(table: Table, keys: set<RowKey>, m: Metric)
    requires keys <= table.Keys && forall key | key in keys :: ColsOk(table[key].cols.At(m))
    ensures ColsOk(SumCols(table, keys, m))
  {
    var lo := (row: Wide) => row.cols.At(m).min;
    var mid := (row: Wide) => row.cols.At(m).med;
    var hi := (row: Wide) => row.cols.At(m).max;
    SumOrdered(table, keys, m, lo, mid);
    SumOrdered(table, keys, m, mid, hi);
  }

  lemma {:induction false} SumOrdered(
      table: Table, keys: set<RowKey>, m: Metric, a: Wide -> Option<real>, b: Wide -> Option<real>)
    requires keys <= table.Keys
    requires forall key | key in keys :: (a(table[key]).Some? <==> b(table[key]).Some?)
               && (a(table[key]).Some? ==> a(table[key]).value <= b(table[key]).value)
    ensures SumOver(table, keys, a).Some? <==> SumOver(table, keys, b).Some?
    ensures SumOver(table, keys, a).Some? ==> SumOver(table, keys, a).value <= SumOver(table, keys, b).value
  {
    if keys != {} {
      SumOrdered(table, keys - {AnyOf(keys)}, m, a, b);
    }
  }

  /** The order rows are summed in does not matter: any row may come last. */
  lemma {:induction false} SumTakesOut(table: Table, keys: set<RowKey>, column: Wide -> Option<real>, key: RowKey)
    requires keys <= table.Keys && key in keys
    ensures SumOver(table, keys, column) == Plus(SumOver(table, keys - {key}, column), column(table[key]))
    decreases keys
  {
    var first := AnyOf(keys);
    if first != key {
      SumTakesOut(table, keys - {first}, column, key);
      SumTakesOut(table, keys - {key}, column, first);
      assert keys - {first} - {key} == keys - {key} - {first};
    }
  }

  /** Main result: every point any trend history returns has columns that are all NULL or ordered. */
  lemma HistoryOrdered(table: Table, host: string, what: string, since: nat, until: nat, g: nat)
    requires TableOk(table)
    ensures forall p | p in HistoryContainer(table, host, what, since, until, g) :: SixOk(p.cols)
    ensures forall p | p in HistoryStack(table, host, what, since, until, g) :: SixOk(p.cols)
  {
    var ps, qs := ContainerPoints(table, host, what, since, until), StackPoints(table, host, what, since, until);
    forall i | 0 <= i < |ps| ensures SixOk(ps[i].cols) {
      SortedIs(ContainerStarts(table, host, what, since, until));
      assert ps[i].ts in ContainerStarts(table, host, what, since, until);
      assert RowOk(table[RowKey(host, what, ps[i].ts)]);
    }
    forall i | 0 <= i < |qs| ensures SixOk(qs[i].cols) {
      forall m: Metric ensures ColsOk(qs[i].cols.At(m)) {
        assert forall key | key in MembersAt(table, host, what, qs[i].ts) :: RowOk(table[key]);
        SumsOrdered(table, MembersAt(table, host, what, qs[i].ts), m);
      }
    }
    DownsampleOk(ps, AtLeastOne(g));
    DownsampleOk(qs, AtLeastOne(g));
  }

  // ----- Coarsening -----

  /** Grouping by a multiple of the width may go through the finer groups. */
  lemma StartOfStart(ts: nat, g: nat, k: nat)
    requires g > 0 && k > 0
    ensures k * g > 0 && Start(Start(ts, g), k * g) == Start(ts, k * g)
  {
    var w := k * g;
    MulMonotone(1, k, g);
    var q := ts / w;
    DivBounds(ts, w);
    assert q * w == q * k * g;
    FitsDiv(q * k, ts, g);
    MulMonotone(q * k, ts / g, g);
    StartBelow(ts, g);
    DivIs(Start(ts, g), q, w);
  }

  lemma LeastUnique(a: Option<real>, b: Option<real>, s: set<real>)
    requires IsLeast(a, s) && IsLeast(b, s)
    ensures a == b
  {
  }

  lemma GreatestUnique(a: Option<real>, b: Option<real>, s: set<real>)
    requires IsGreatest(a, s) && IsGreatest(b, s)
    ensures a == b
  {
  }

  /** The fine point an input lies in. */
  lemma FinePointOf(ps: seq<Point>, g: nat, p: Point) returns (i: nat)
    requires g > 0 && p in ps
    ensures i < |Downsample(ps, g)| && Downsample(ps, g)[i].ts == Start(p.ts, g)
    ensures p in InGroup(ps, g, Downsample(ps, g)[i].ts)
  {
    SortedIs(Starts(ps, g));
    InGroupIs(ps, g, Start(p.ts, g));
    assert Start(p.ts, g) in Sorted(Starts(ps, g));
    i :| 0 <= i < |Sorted(Starts(ps, g))| && Sorted(Starts(ps, g))[i] == Start(p.ts, g);
  }

  /** Every fine point has an input. */
  lemma InputOf(ps: seq<Point>, g: nat, i: nat) returns (p: Point)
    requires g > 0 && i < |Downsample(ps, g)|
    ensures p in ps && Start(p.ts, g) == Downsample(ps, g)[i].ts
  {
    SortedIs(Starts(ps, g));
    assert Sorted(Starts(ps, g))[i] in Starts(ps, g);
    p :| p in ps && Start(p.ts, g) == Sorted(Starts(ps, g))[i];
  }

  lemma SameStarts(ps: seq<Point>, g: nat, k: nat)
    requires g > 0 && k > 0 && k * g > 0
    ensures Starts(Downsample(ps, g), k * g) == Starts(ps, k * g)
  {
    var fine := Downsample(ps, g);
    forall s | s in Starts(ps, k * g) ensures s in Starts(fine, k * g) {
      var p :| p in ps && Start(p.ts, k * g) == s;
      var i := FinePointOf(ps, g, p);
      StartOfStart(p.ts, g, k);
      assert fine[i] in fine;
    }
    forall s | s in Starts(fine, k * g) ensures s in Starts(ps, k * g) {
      var f :| f in fine && Start(f.ts, k * g) == s;
      var i :| 0 <= i < |fine| && fine[i] == f;
      var p := InputOf(ps, g, i);
      StartOfStart(p.ts, g, k);
    }
  }

  /** Every input of a coarse group has a fine min at or below it. */
  lemma CoarseMinBounds(ps: seq<Point>, g: nat, k: nat, start: nat, m: Metric, x: real) returns (y: real)
    requires g > 0 && k > 0 && k * g > 0 && x in MinVals(InGroup(ps, k * g, start), m)
    ensures y in MinVals(InGroup(Downsample(ps, g), k * g, start), m) && y <= x
  {
    var fine := Downsample(ps, g);
    InGroupIs(ps, k * g, start);
    InGroupIs(fine, k * g, start);
    var p :| p in InGroup(ps, k * g, start) && p.cols.At(m).min == Some(x);
    var i := FinePointOf(ps, g, p);
    StartOfStart(p.ts, g, k);
    PointExtremes(ps, g, i, m);
    assert x in MinVals(InGroup(ps, g, fine[i].ts), m);
    assert fine[i] in InGroup(fine, k * g, start);
    y := fine[i].cols.At(m).min.value;
  }

  /** Every fine min of a coarse group is an input of it. */
  lemma {:induction false} CoarseMinAttained(ps: seq<Point>, g: nat, k: nat, start: nat, m: Metric, x: real)
    requires g > 0 && k > 0 && k * g > 0 && x in MinVals(InGroup(Downsample(ps, g), k * g, start), m)
    ensures x in MinVals(InGroup(ps, k * g, start), m)
  {
    var fine := Downsample(ps, g);
    InGroupIs(ps, k * g, start);
    InGroupIs(fine, k * g, start);
    var f :| f in InGroup(fine, k * g, start) && f.cols.At(m).min == Some(x);
    var i :| 0 <= i < |fine| && fine[i] == f;
    PointExtremes(ps, g, i, m);
    InGroupIs(ps, g, f.ts);
    var p :| p in InGroup(ps, g, f.ts) && p.cols.At(m).min == Some(x);
    StartOfStart(p.ts, g, k);
    assert p in InGroup(ps, k * g, start);
  }

  /** Within one coarse group, the least of the fine minima is the least of the inputs' minima. */
  lemma {:induction false} CoarseLeast(ps: seq<Point>, g: nat, k: nat, start: nat, m: Metric, v: Option<real>)
    requires g > 0 && k > 0 && k * g > 0
    requires IsLeast(v, MinVals(InGroup(Downsample(ps, g), k * g, start), m))
    ensures IsLeast(v, MinVals(InGroup(ps, k * g, start), m))
  {
    forall x | x in MinVals(InGroup(ps, k * g, start), m) ensures v.Some? && v.value <= x {
      var y := CoarseMinBounds(ps, g, k, start, m, x);
    }
    if v.Some? {
      CoarseMinAttained(ps, g, k, start, m, v.value);
    }
  }

  /** Every input of a coarse group has a fine max at or above it. */
  lemma CoarseMaxBounds(ps: seq<Point>, g: nat, k: nat, start: nat, m: Metric, x: real) returns (y: real)
    requires g > 0 && k > 0 && k * g > 0 && x in MaxVals(InGroup(ps, k * g, start), m)
    ensures y in MaxVals(InGroup(Downsample(ps, g), k * g, start), m) && x <= y
  {
    var fine := Downsample(ps, g);
    InGroupIs(ps, k * g, start);
    InGroupIs(fine, k * g, start);
    var p :| p in InGroup(ps, k * g, start) && p.cols.At(m).max == Some(x);
    var i := FinePointOf(ps, g, p);
    StartOfStart(p.ts, g, k);
    PointExtremes(ps, g, i, m);
    assert x in MaxVals(InGroup(ps, g, fine[i].ts), m);
    assert fine[i] in InGroup(fine, k * g, start);
    y := fine[i].cols.At(m).max.value;
  }

  /** Every fine max of a coarse group is an input of it. */
  lemma {:induction false} CoarseMaxAttained(ps: seq<Point>, g: nat, k: nat, start: nat, m: Metric, x: real)
    requires g > 0 && k > 0 && k * g > 0 && x in MaxVals(InGroup(Downsample(ps, g), k * g, start), m)
    ensures x in MaxVals(InGroup(ps, k * g, start), m)
  {
    var fine := Downsample(ps, g);
    InGroupIs(ps, k * g, start);
    InGroupIs(fine, k * g, start);
    var f :| f in InGroup(fine, k * g, start) && f.cols.At(m).max == Some(x);
    var i :| 0 <= i < |fine| && fine[i] == f;
    PointExtremes(ps, g, i, m);
    InGroupIs(ps, g, f.ts);
    var p :| p in InGroup(ps, g, f.ts) && p.cols.At(m).max == Some(x);
    StartOfStart(p.ts, g, k);
    assert p in InGroup(ps, k * g, start);
  }

  /** Within one coarse group, the greatest of the fine maxima is the greatest of the inputs' maxima. */
  lemma {:induction false} CoarseGreatest(ps: seq<Point>, g: nat, k: nat, start: nat, m: Metric, v: Option<real>)
    requires g > 0 && k > 0 && k * g > 0
    requires IsGreatest(v, MaxVals(InGroup(Downsample(ps, g), k * g, start), m))
    ensures IsGreatest(v, MaxVals(InGroup(ps, k * g, start), m))
  {
    forall x | x in MaxVals(InGroup(ps, k * g, start), m) ensures v.Some? && x <= v.value {
      var y := CoarseMaxBounds(ps, g, k, start, m, x);
    }
    if v.Some? {
      CoarseMaxAttained(ps, g, k, start, m, v.value);
    }
  }

  /** Main result: regrouping a history of width `g` into `k * g` gives the envelope of querying at `k * g`. */
  lemma Coarsening(ps: seq<Point>, g: nat, k: nat)
    requires g > 0 && k > 0
    ensures k * g > 0
    ensures var direct, twice := Downsample(ps, k * g), Downsample(Downsample(ps, g), k * g);
            && |direct| == |twice|
            && forall i, m | 0 <= i < |direct| ::
                 && twice[i].ts == direct[i].ts
                 && twice[i].cols.At(m).min == direct[i].cols.At(m).min
                 && twice[i].cols.At(m).max == direct[i].cols.At(m).max
  {
    MulMonotone(1, k, g);
    SameStarts(ps, g, k);
    var fine := Downsample(ps, g);
    var direct, twice := Downsample(ps, k * g), Downsample(fine, k * g);
    forall i, m | 0 <= i < |direct|
      ensures twice[i].ts == direct[i].ts
      ensures twice[i].cols.At(m).min == direct[i].cols.At(m).min
      ensures twice[i].cols.At(m).max == direct[i].cols.At(m).max
    {
      var start := direct[i].ts;
      PointExtremes(fine, k * g, i, m);
      PointExtremes(ps, k * g, i, m);
      CoarseLeast(ps, g, k, start, m, twice[i].cols.At(m).min);
      CoarseGreatest(ps, g, k, start, m, twice[i].cols.At(m).max);
      LeastUnique(twice[i].cols.At(m).min, direct[i].cols.At(m).min, MinVals(InGroup(ps, k * g, start), m));
      GreatestUnique(twice[i].cols.At(m).max, direct[i].cols.At(m).max, MaxVals(InGroup(ps, k * g, start), m));
    }
  }

  // ----- Two histories in other terms -----

  /** The readings of one container id in the window that fall into one group. */
  ghost function RawReadings(
      samples: seq<Sample>, host: string, id: string, since: nat, until: nat, g: nat, start: nat, m: Metric): set<real>
    requires g > 0
  {
    set s | s in samples && s.host == host && s.container.id == id && since <= s.ts <= until
            && Start(s.ts, g) == start && s.container.Reading(m).Some? :: s.container.Reading(m).value
  }

  lemma {:induction false} RawPointsAre(
      samples: seq<Sample>, host: string, id: string, since: nat, until: nat, g: nat, start: nat, m: Metric)
    requires g > 0
    ensures var group := InGroup(RawPoints(samples, host, id, since, until), g, start);
            && MinVals(group, m) == RawReadings(samples, host, id, since, until, g, start, m)
            && MaxVals(group, m) == RawReadings(samples, host, id, since, until, g, start, m)
  {
    var ps := RawPoints(samples, host, id, since, until);
    var group, readings := InGroup(ps, g, start), RawReadings(samples, host, id, since, until, g, start, m);
    InGroupIs(ps, g, start);
    forall x | x in readings ensures x in MinVals(group, m) && x in MaxVals(group, m) {
      var s :| s in samples && s.host == host && s.container.id == id && InWindow(s.ts, since, until)
               && Start(s.ts, g) == start && s.container.Reading(m) == Some(x);
      RawIncluded(samples, host, id, since, until, s);
      assert RawPoint(s) in group;
    }
    forall p | p in group
      ensures p.cols.At(m).min == p.cols.At(m).max
      ensures p.cols.At(m).min.Some? ==> p.cols.At(m).min.value in readings
    {
      var s := RawSource(samples, host, id, since, until, p);
    }
  }

  function RawPoint(s: Sample): Point {
    Point(s.ts, PerMetric((m: Metric) =>
      Cols(s.container.Reading(m), s.container.Reading(m), s.container.Reading(m))))
  }

  lemma {:induction false} RawSource(
      samples: seq<Sample>, host: string, id: string, since: nat, until: nat, p: Point) returns (s: Sample)
    requires p in RawPoints(samples, host, id, since, until)
    ensures s in samples && s.host == host && s.container.id == id && InWindow(s.ts, since, until) && p == RawPoint(s)
  {
    var n := |samples| - 1;
    if p in RawPoints(samples[..n], host, id, since, until) {
      s := RawSource(samples[..n], host, id, since, until, p);
    } else {
      s := samples[n];
    }
  }

  lemma {:induction false} RawIncluded(
      samples: seq<Sample>, host: string, id: string, since: nat, until: nat, s: Sample)
    requires s in samples && s.host == host && s.container.id == id && InWindow(s.ts, since, until)
    ensures RawPoint(s) in RawPoints(samples, host, id, since, until)
  {
    var n := |samples| - 1;
    if s in samples[..n] {
      RawIncluded(samples[..n], host, id, since, until, s);
    }
  }

  /** Main result on raw history: each point carries the least and greatest reading of its group. */
  lemma RawHistoryIsReadings(
      samples: seq<Sample>, host: string, id: string, since: nat, until: nat, group: nat, i: nat, m: Metric)
    requires i < |HistoryRaw(samples, host, id, since, until, group)|
    ensures var p := HistoryRaw(samples, host, id, since, until, group)[i];
            var readings := RawReadings(samples, host, id, since, until, AtLeastOne(group), p.ts, m);
            IsLeast(p.cols.At(m).min, readings) && IsGreatest(p.cols.At(m).max, readings)
  {
    var ps, g := RawPoints(samples, host, id, since, until), AtLeastOne(group);
    PointExtremes(ps, g, i, m);
    RawPointsAre(samples, host, id, since, until, g, Downsample(ps, g)[i].ts, m);
  }

  /** Every point of a raw history has columns that are all NULL, or a mean between the extremes. */
  lemma {:induction false} RawHistoryOrdered(
      samples: seq<Sample>, host: string, id: string, since: nat, until: nat, group: nat)
    ensures forall p | p in HistoryRaw(samples, host, id, since, until, group) :: SixOk(p.cols)
  {
    var ps := RawPoints(samples, host, id, since, until);
    forall p | p in ps ensures SixOk(p.cols) {
      var s := RawSource(samples, host, id, since, until, p);
    }
    DownsampleOk(ps, AtLeastOne(group));
  }

  /** A stack whose only member is one name has that name's history. */
  lemma StackOfOne(
      table: Table, host: string, stack: string, name: string, since: nat, until: nat, g: nat)
    requires forall key | key in table && key.host == host :: table[key].stack == Some(stack) <==> key.name == name
    ensures HistoryStack(table, host, stack, since, until, g) == HistoryContainer(table, host, name, since, until, g)
  {
    assert StackStarts(table, host, stack, since, until) == ContainerStarts(table, host, name, since, until);
    var starts := ContainerStarts(table, host, name, since, until);
    SortedIs(starts);
    var ps, qs := StackPoints(table, host, stack, since, until), ContainerPoints(table, host, name, since, until);
    forall i | 0 <= i < |ps| ensures ps[i] == qs[i] {
      var key := RowKey(host, name, Sorted(starts)[i]);
      assert Sorted(starts)[i] in starts;
      assert MembersAt(table, host, stack, Sorted(starts)[i]) == {key};
      forall m ensures ps[i].cols.At(m) == qs[i].cols.At(m) {
        OneMember(table, key, m);
      }
      SameSix(ps[i].cols, qs[i].cols);
    }
    assert ps == qs;
  }

  lemma OneMember(table: Table, key: RowKey, m: Metric)
    requires key in table
    ensures SumCols(table, {key}, m) == table[key].cols.At(m)
  {
    SumOfOne(table, key, (row: Wide) => row.cols.At(m).min);
    SumOfOne(table, key, (row: Wide) => row.cols.At(m).med);
    SumOfOne(table, key, (row: Wide) => row.cols.At(m).max);
  }

  lemma {:induction false} SumOfOne(table: Table, key: RowKey, column: Wide -> Option<real>)
    requires key in table
    ensures SumOver(table, {key}, column) == column(table[key])
  {
    var none := {key} - {AnyOf({key})};
    assert none == {} && SumOver(table, none, column) == None;
  }
}
