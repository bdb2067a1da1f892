/** What the averages and sums of history queries are, as plain sums of reals. */
module Means {
  import opened Prelude
  import opened Model
  import opened TrendTable
  import opened History

  // ----- Plain sums -----

  function RealSum(xs: seq<real>): real {
    if xs == [] then 0.0 else xs[0] + RealSum(xs[1..])
  }

  lemma {:induction false} RealSumConcat(a: seq<real>, b: seq<real>)
    ensures RealSum(a + b) == RealSum(a) + RealSum(b)
  {
    if a == [] {
      assert a + b == b;
    } else {
      assert (a + b)[1..] == a[1..] + b;
      RealSumConcat(a[1..], b);
    }
  }

  lemma {:induction false} RealSumOne(x: real)
    ensures RealSum([x]) == x
  {
    assert [x][1..] == [];
  }

  /** The order of the summands does not matter. */
  lemma {:induction false} RealSumPermutes(a: seq<real>, b: seq<real>)
    requires multiset(a) == multiset(b)
    ensures RealSum(a) == RealSum(b)
    decreases |a|
  {
    if a == [] {
      assert |b| == |multiset(b)| == 0;
    } else {
      var before, after := TakeOut(a, b);
      var n := |a| - 1;
      RealSumPermutes(a[..n], before + after);
      assert a == a[..n] + [a[n]];
      RealSumConcat(a[..n], [a[n]]);
      RealSumConcat(before, after);
      RealSumConcat(before, [a[n]] + after);
      RealSumConcat([a[n]], after);
      RealSumOne(a[n]);
    }
  }

  /** `v` is the arithmetic mean of `xs`, or NULL when there are none. */
  ghost predicate IsAverage(v: Option<real>, xs: seq<real>) {
    match v
    case None => xs == []
    case Some(x) => xs != [] && x * |xs| as real == RealSum(xs)
  }

  // ----- AVG -----

  function Present(x: Option<real>): seq<real> {
    if x.Some? then [x.value] else []
  }

  /** The medians present at timestamps from `lo` to before `hi`, in order. */
  function MedsWithin(ps: seq<Point>, lo: nat, hi: nat, m: Metric): seq<real> {
    if ps == [] then []
    else (if lo <= ps[0].ts < hi then Present(ps[0].cols.At(m).med) else []) + MedsWithin(ps[1..], lo, hi, m)
  }

  lemma {:induction false} MedsConcat(a: seq<Point>, b: seq<Point>, lo: nat, hi: nat, m: Metric)
    ensures MedsWithin(a + b, lo, hi, m) == MedsWithin(a, lo, hi, m) + MedsWithin(b, lo, hi, m)
  {
    if a == [] {
      assert a + b == b;
    } else {
      assert (a + b)[1..] == a[1..] + b;
      MedsConcat(a[1..], b, lo, hi, m);
    }
  }

  lemma {:induction false} MedsSnoc(ps: seq<Point>, lo: nat, hi: nat, m: Metric)
    requires ps != []
    ensures var n := |ps| - 1;
            MedsWithin(ps, lo, hi, m)
            == MedsWithin(ps[..n], lo, hi, m) + if lo <= ps[n].ts < hi then Present(ps[n].cols.At(m).med) else []
  {
    var n := |ps| - 1;
    assert ps == ps[..n] + [ps[n]] && [ps[n]][1..] == [];
    MedsConcat(ps[..n], [ps[n]], lo, hi, m);
  }

  /** A group is selected by its interval. */
  lemma StartIff(ts: nat, g: nat, start: nat)
    requires g > 0 && Start(start, g) == start
    ensures Start(ts, g) == start <==> start <= ts < start + g
  {
    StartBelow(ts, g);
    if start <= ts < start + g {
      DivBounds(start, g);
      assert start == start / g * g;
      assert (start / g + 1) * g == start / g * g + g;
      DivIs(ts, start / g, g);
    }
  }

  /** The running total of a group is the plain sum and number of its medians. */
  lemma {:induction false} TotalIsSum(ps: seq<Point>, g: nat, start: nat, m: Metric)
    requires g > 0 && Start(start, g) == start
    ensures var t, xs := MedTotal(InGroup(ps, g, start), m), MedsWithin(ps, start, start + g, m);
            t.sum == RealSum(xs) && t.count == |xs|
    decreases |ps|
  {
    if ps != [] {
      var n := |ps| - 1;
      var before, xs, p := InGroup(ps[..n], g, start), MedsWithin(ps[..n], start, start + g, m), ps[n];
      TotalIsSum(ps[..n], g, start, m);
      MedsSnoc(ps, start, start + g, m);
      StartIff(p.ts, g, start);
      if Start(p.ts, g) == start {
        assert (before + [p])[..|before|] == before;
        RealSumConcat(xs, Present(p.cols.At(m).med));
        if p.cols.At(m).med.Some? {
          RealSumOne(p.cols.At(m).med.value);
        }
      } else {
        assert before + [] == before && xs + [] == xs;
      }
    }
  }

  lemma {:induction false} DividedIsAverage(xs: seq<real>)
    ensures IsAverage(SqlDiv(RealSum(xs), |xs|), xs)
  {
  }

  lemma {:induction false} GroupAverage(ps: seq<Point>, g: nat, start: nat, m: Metric)
    requires g > 0 && Start(start, g) == start
    ensures IsAverage(AvgAgg(InGroup(ps, g, start), m), MedsWithin(ps, start, start + g, m))
  {
    TotalIsSum(ps, g, start, m);
    DividedIsAverage(MedsWithin(ps, start, start + g, m));
  }

  lemma PointStart(ps: seq<Point>, g: nat, i: nat)
    requires g > 0 && i < |Downsample(ps, g)|
    ensures Start(Downsample(ps, g)[i].ts, g) == Downsample(ps, g)[i].ts
  {
    GroupsAscend(ps, g);
  }

  lemma {:induction false} PointAverage(ps: seq<Point>, g: nat, i: nat, m: Metric)
    requires g > 0 && i < |Downsample(ps, g)|
    ensures var p := Downsample(ps, g)[i]; p.cols.At(m).med == AvgAgg(InGroup(ps, g, p.ts), m)
  {
  }

  /** Main result: each point's middle column is the mean of the inputs' medians in its interval. */
  lemma {:induction false} PointMean(ps: seq<Point>, g: nat, i: nat, m: Metric)
    requires g > 0 && i < |Downsample(ps, g)|
    ensures var p := Downsample(ps, g)[i];
            IsAverage(p.cols.At(m).med, MedsWithin(ps, p.ts, p.ts + g, m))
  {
    PointStart(ps, g, i);
    PointAverage(ps, g, i, m);
    GroupAverage(ps, g, Downsample(ps, g)[i].ts, m);
  }

  // ----- Raw readings -----

  /** The readings of one container id at timestamps of the window from `lo` to before `hi`, in order. */
  function ReadingsWithin(
      samples: seq<Sample>, host: string, id: string, since: nat, until: nat, lo: nat, hi: nat, m: Metric): seq<real>
  {
    if samples == [] then []
    else
      var s := samples[|samples| - 1];
      ReadingsWithin(samples[..|samples| - 1], host, id, since, until, lo, hi, m)
      + if s.host == host && s.container.id == id && since <= s.ts <= until && lo <= s.ts < hi
        then Present(s.container.Reading(m)) else []
  }

  lemma {:induction false} RawMeds(
      samples: seq<Sample>, host: string, id: string, since: nat, until: nat, lo: nat, hi: nat, m: Metric)
    ensures MedsWithin(RawPoints(samples, host, id, since, until), lo, hi, m)
         == ReadingsWithin(samples, host, id, since, until, lo, hi, m)
  {
    if samples != [] {
      var n := |samples| - 1;
      var s, before := samples[n], RawPoints(samples[..n], host, id, since, until);
      RawMeds(samples[..n], host, id, since, until, lo, hi, m);
      var xs := MedsWithin(before, lo, hi, m);
      if s.host == host && s.container.id == id && InWindow(s.ts, since, until) {
        MedsSnoc(before + [RawPoint(s)], lo, hi, m);
        assert (before + [RawPoint(s)])[..|before|] == before;
      } else {
        assert before + [] == before && xs + [] == xs;
      }
    }
  }

  /** Main result on raw history: each point's middle column is the mean of all its group's readings. */
  lemma {:induction false} RawMean(
      samples: seq<Sample>, host: string, id: string, since: nat, until: nat, group: nat, i: nat, m: Metric)
    requires i < |HistoryRaw(samples, host, id, since, until, group)|
    ensures var p := HistoryRaw(samples, host, id, since, until, group)[i];
            IsAverage(p.cols.At(m).med,
                      ReadingsWithin(samples, host, id, since, until, p.ts, p.ts + AtLeastOne(group), m))
  {
    var ps, g := RawPoints(samples, host, id, since, until), AtLeastOne(group);
    PointMean(ps, g, i, m);
    var p := Downsample(ps, g)[i];
    RawMeds(samples, host, id, since, until, p.ts, p.ts + g, m);
  }

  // ----- SUM over the members of a stack -----

  /** The plain sum of one value a key. */
  ghost function SumOfKeys(keys: set<RowKey>, f: RowKey -> real): real {
    if keys == {} then 0.0 else SumOfKeys(keys - {AnyOf(keys)}, f) + f(AnyOf(keys))
  }

  /** Any key may be added last. */
  lemma {:induction false} SumOfKeysAdds(keys: set<RowKey>, f: RowKey -> real, key: RowKey)
    requires key !in keys
    ensures SumOfKeys(keys + {key}, f) == SumOfKeys(keys, f) + f(key)
    decreases keys
  {
    var all := keys + {key};
    var first := AnyOf(all);
    if first == key {
      assert all - {key} == keys;
    } else {
      SumOfKeysAdds(keys - {first}, f, key);
      assert all - {first} == keys - {first} + {key};
      assert keys == keys - {first} + {first};
      SumOfKeysAdds(keys - {first}, f, first);
    }
  }

  lemma {:induction false} SameSum(keys: set<RowKey>, f: RowKey -> real, g: RowKey -> real)
    requires forall key | key in keys :: f(key) == g(key)
    ensures SumOfKeys(keys, f) == SumOfKeys(keys, g)
    decreases keys
  {
    if keys != {} {
      SameSum(keys - {AnyOf(keys)}, f, g);
    }
  }

  function OrZero(x: Option<real>): real {
    if x.Some? then x.value else 0.0
  }

  /** `v` is the sum of the values present, or NULL when there are none. */
  ghost predicate IsSumOf(v: Option<real>, keys: set<RowKey>, f: RowKey -> Option<real>) {
    var present := set key | key in keys && f(key).Some?;
    match v
    case None => present == {}
    case Some(x) => present != {} && x == SumOfKeys(present, key => OrZero(f(key)))
  }

  lemma {:induction false} SumOfPresent(
      v: Option<real>, keys: set<RowKey>, f: RowKey -> Option<real>, present: set<RowKey>, g: RowKey -> real)
    requires IsSumOf(v, keys, f)
    requires forall key :: key in present <==> key in keys && f(key).Some?
    requires forall key | key in present :: f(key) == Some(g(key))
    ensures v == if present == {} then None else Some(SumOfKeys(present, g))
  {
    assert present == set key | key in keys && f(key).Some?;
    SameSum(present, key => OrZero(f(key)), g);
  }

  /** Main result on sums: a column summed over rows is the plain sum of its values, and NULL exactly without any. */
  lemma {:induction false} SumOverIsSum(
      table: Table, keys: set<RowKey>, column: Wide -> Option<real>, f: RowKey -> Option<real>)
    requires keys <= table.Keys && forall key | key in keys :: column(table[key]) == f(key)
    ensures IsSumOf(SumOver(table, keys, column), keys, f)
    decreases keys
  {
    if keys != {} {
      var key := AnyOf(keys);
      var rest := keys - {key};
      SumOverIsSum(table, rest, column, f);
      var before, present := set k | k in rest && f(k).Some?, set k | k in keys && f(k).Some?;
      if f(key).Some? {
        assert present == before + {key};
        SumOfKeysAdds(before, k => OrZero(f(k)), key);
        if before == {} {
          assert SumOfKeys(before, k => OrZero(f(k))) == 0.0;
        }
      } else {
        assert present == before;
      }
    }
  }

  /** One more row adds its value, and a NULL changes nothing. */
  lemma {:induction false} SumOverAdds(table: Table, keys: set<RowKey>, column: Wide -> Option<real>, key: RowKey)
    requires keys + {key} <= table.Keys && key !in keys
    ensures var before, after := SumOver(table, keys, column), SumOver(table, keys + {key}, column);
            var x := column(table[key]);
            && (x.None? ==> after == before)
            && (x.Some? && before.None? ==> after == x)
            && (x.Some? && before.Some? ==> after == Some(before.value + x.value))
  {
    SumTakesOut(table, keys + {key}, column, key);
    assert keys + {key} - {key} == keys;
  }

  // ----- The middle column of a stack -----

  ghost function MedianAt(table: Table, m: Metric): RowKey -> Option<real> {
    key => if key in table then table[key].cols.At(m).med else None
  }

  /** The row of one bucket of a stack carries the sum of its members' stored medians. */
  lemma {:induction false} StackPointMedian(
      table: Table, host: string, stack: string, since: nat, until: nat, p: Point, m: Metric)
    requires p in StackPoints(table, host, stack, since, until)
    ensures since <= p.ts <= until
    ensures var members := set key |
              key in table && key.host == host && key.bucketStart == p.ts && table[key].stack == Some(stack);
            IsSumOf(p.cols.At(m).med, members, MedianAt(table, m))
  {
    var starts, ps := StackStarts(table, host, stack, since, until), StackPoints(table, host, stack, since, until);
    SortedIs(starts);
    var i :| 0 <= i < |ps| && ps[i] == p;
    assert Sorted(starts)[i] in starts;
    var keys := MembersAt(table, host, stack, p.ts);
    assert keys == set key | key in table && key.host == host && key.bucketStart == p.ts
                             && table[key].stack == Some(stack);
    assert p.cols.At(m) == SumCols(table, keys, m);
    SumOverIsSum(table, keys, (row: Wide) => row.cols.At(m).med, MedianAt(table, m));
  }
}
