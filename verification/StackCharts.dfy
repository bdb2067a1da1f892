/** What a stack's history says about the samples of its members. */
module StackCharts {
  import opened Prelude
  import opened Model
  import opened TrendTable
  import opened TableInvariants
  import opened History
  import opened EndToEnd
  import opened Means

  // ----- The extremes of finite sets -----

  lemma {:induction false} HasExtremes(s: set<real>, x: real)
    requires x in s
    ensures exists lo :: IsLeast(Some(lo), s)
    ensures exists hi :: IsGreatest(Some(hi), s)
    decreases s
  {
    var rest := s - {x};
    assert s == rest + {x};
    if y :| y in rest {
      HasExtremes(rest, y);
      var lo :| IsLeast(Some(lo), rest);
      var hi :| IsGreatest(Some(hi), rest);
      assert IsLeast(Some(Least(lo, x)), s) && IsGreatest(Some(Greatest(hi, x)), s);
    } else {
      assert IsLeast(Some(x), s) && IsGreatest(Some(x), s);
    }
  }

  lemma NoExtremesNoElements(s: set<real>)
    ensures (forall lo :: !IsLeast(Some(lo), s)) ==> s == {}
    ensures (forall hi :: !IsGreatest(Some(hi), s)) ==> s == {}
  {
    if s != {} {
      var x := Element(s);
      HasExtremes(s, x);
    }
  }

  ghost function LeastOfSet(s: set<real>): (v: Option<real>)
    ensures IsLeast(v, s)
  {
    NoExtremesNoElements(s);
    if exists lo :: IsLeast(Some(lo), s) then
      var lo :| IsLeast(Some(lo), s);
      Some(lo)
    else None
  }

  ghost function GreatestOfSet(s: set<real>): (v: Option<real>)
    ensures IsGreatest(v, s)
  {
    NoExtremesNoElements(s);
    if exists hi :: IsGreatest(Some(hi), s) then
      var hi :| IsGreatest(Some(hi), s);
      Some(hi)
    else None
  }

  // ----- Sums over the members -----

  ghost function SamplesOf(runs: seq<HostRun>, key: RowKey, m: Metric): set<real> {
    StoredSamples(runs, key.name, m, key.bucketStart)
  }

  /** The rows among `keys` that have samples of the metric. */
  ghost function Sampled(runs: seq<HostRun>, keys: set<RowKey>, m: Metric): set<RowKey> {
    set key | key in keys && SamplesOf(runs, key, m) != {}
  }

  ghost function LeastAt(runs: seq<HostRun>, m: Metric): RowKey -> Option<real> {
    key => LeastOfSet(SamplesOf(runs, key, m))
  }

  ghost function GreatestAt(runs: seq<HostRun>, m: Metric): RowKey -> Option<real> {
    key => GreatestOfSet(SamplesOf(runs, key, m))
  }

  ghost function Values(f: RowKey -> Option<real>): RowKey -> real {
    key => OrZero(f(key))
  }

  /** The sum of the least samples of the rows that have any. */
  ghost function LeastSum(runs: seq<HostRun>, keys: set<RowKey>, m: Metric): Option<real> {
    var sampled := Sampled(runs, keys, m);
    if sampled == {} then None else Some(SumOfKeys(sampled, Values(LeastAt(runs, m))))
  }

  ghost function GreatestSum(runs: seq<HostRun>, keys: set<RowKey>, m: Metric): Option<real> {
    var sampled := Sampled(runs, keys, m);
    if sampled == {} then None else Some(SumOfKeys(sampled, Values(GreatestAt(runs, m))))
  }

  lemma LeastSumIs(runs: seq<HostRun>, keys: set<RowKey>, m: Metric, v: Option<real>)
    requires IsSumOf(v, keys, LeastAt(runs, m))
    ensures v == LeastSum(runs, keys, m)
  {
    forall key ensures LeastAt(runs, m)(key).Some? <==> SamplesOf(runs, key, m) != {} {
      assert IsLeast(LeastAt(runs, m)(key), SamplesOf(runs, key, m));
    }
    SumOfPresent(v, keys, LeastAt(runs, m), Sampled(runs, keys, m), Values(LeastAt(runs, m)));
  }

  lemma GreatestSumIs(runs: seq<HostRun>, keys: set<RowKey>, m: Metric, v: Option<real>)
    requires IsSumOf(v, keys, GreatestAt(runs, m))
    ensures v == GreatestSum(runs, keys, m)
  {
    forall key ensures GreatestAt(runs, m)(key).Some? <==> SamplesOf(runs, key, m) != {} {
      assert IsGreatest(GreatestAt(runs, m)(key), SamplesOf(runs, key, m));
    }
    SumOfPresent(v, keys, GreatestAt(runs, m), Sampled(runs, keys, m), Values(GreatestAt(runs, m)));
  }

  lemma {:induction false} SumsAreSamples(
      host: string, runs: seq<HostRun>, batches: seq<seq<Trend>>, keys: set<RowKey>, m: Metric)
    requires Stored(host, runs, batches) && keys <= Batches(batches).Keys
    requires forall key | key in keys :: key.host == host
    ensures SumCols(Batches(batches), keys, m).min == LeastSum(runs, keys, m)
    ensures SumCols(Batches(batches), keys, m).max == GreatestSum(runs, keys, m)
  {
    var table := Batches(batches);
    var lo, hi := LeastAt(runs, m), GreatestAt(runs, m);
    forall key | key in keys
      ensures table[key].cols.At(m).min == lo(key) && table[key].cols.At(m).max == hi(key)
    {
      var samples := SamplesOf(runs, key, m);
      assert key == RowKey(host, key.name, key.bucketStart);
      RowEnvelope(host, runs, batches, key.name, m, key.bucketStart);
      LeastUnique(table[key].cols.At(m).min, LeastOfSet(samples), samples);
      GreatestUnique(table[key].cols.At(m).max, GreatestOfSet(samples), samples);
    }
    SumOverIsSum(table, keys, (row: Wide) => row.cols.At(m).min, lo);
    SumOverIsSum(table, keys, (row: Wide) => row.cols.At(m).max, hi);
    LeastSumIs(runs, keys, m, SumCols(table, keys, m).min);
    GreatestSumIs(runs, keys, m, SumCols(table, keys, m).max);
  }

  // ----- History -----

  /** The buckets of the window that fall into one group and have rows filed under the stack. */
  ghost function StackBuckets(
      table: Table, host: string, stack: string, since: nat, until: nat, g: nat, start: nat): set<nat>
    requires g > 0
  {
    set key | key in table && key.host == host && table[key].stack == Some(stack)
              && since <= key.bucketStart <= until && Start(key.bucketStart, g) == start :: key.bucketStart
  }

  ghost function LeastSums(
      runs: seq<HostRun>, table: Table, host: string, stack: string, m: Metric, buckets: set<nat>): set<real>
  {
    set b | b in buckets && LeastSum(runs, MembersAt(table, host, stack, b), m).Some?
      :: LeastSum(runs, MembersAt(table, host, stack, b), m).value
  }

  ghost function GreatestSums(
      runs: seq<HostRun>, table: Table, host: string, stack: string, m: Metric, buckets: set<nat>): set<real>
  {
    set b | b in buckets && GreatestSum(runs, MembersAt(table, host, stack, b), m).Some?
      :: GreatestSum(runs, MembersAt(table, host, stack, b), m).value
  }

  lemma {:induction false} StackPointIs(
      host: string, runs: seq<HostRun>, batches: seq<seq<Trend>>, stack: string, m: Metric,
      since: nat, until: nat, p: Point)
    requires Stored(host, runs, batches) && p in StackPoints(Batches(batches), host, stack, since, until)
    ensures p.ts in StackStarts(Batches(batches), host, stack, since, until)
    ensures p.cols.At(m).min == LeastSum(runs, MembersAt(Batches(batches), host, stack, p.ts), m)
    ensures p.cols.At(m).max == GreatestSum(runs, MembersAt(Batches(batches), host, stack, p.ts), m)
  {
    var table := Batches(batches);
    var starts, ps := StackStarts(table, host, stack, since, until), StackPoints(table, host, stack, since, until);
    SortedIs(starts);
    var i :| 0 <= i < |ps| && ps[i] == p;
    assert Sorted(starts)[i] in starts;
    SumsAreSamples(host, runs, batches, MembersAt(table, host, stack, p.ts), m);
  }

  lemma StackPointAt(table: Table, host: string, stack: string, since: nat, until: nat, b: nat) returns (p: Point)
    requires b in StackStarts(table, host, stack, since, until)
    ensures p in StackPoints(table, host, stack, since, until) && p.ts == b
  {
    var starts, ps := StackStarts(table, host, stack, since, until), StackPoints(table, host, stack, since, until);
    SortedIs(starts);
    var i :| 0 <= i < |Sorted(starts)| && Sorted(starts)[i] == b;
    p := ps[i];
  }

  /** The extremes over a group of stack points, in terms of the members' samples. */
  lemma {:induction false} StackGroup(
      host: string, runs: seq<HostRun>, batches: seq<seq<Trend>>, stack: string, m: Metric,
      since: nat, until: nat, g: nat, start: nat)
    requires Stored(host, runs, batches) && g > 0
    ensures var table := Batches(batches);
            var group := InGroup(StackPoints(table, host, stack, since, until), g, start);
            var buckets := StackBuckets(table, host, stack, since, until, g, start);
            && MinVals(group, m) == LeastSums(runs, table, host, stack, m, buckets)
            && MaxVals(group, m) == GreatestSums(runs, table, host, stack, m, buckets)
  {
    var table := Batches(batches);
    var ps := StackPoints(table, host, stack, since, until);
    var group, buckets := InGroup(ps, g, start), StackBuckets(table, host, stack, since, until, g, start);
    InGroupIs(ps, g, start);
    forall p | p in group
      ensures p.ts in buckets
      ensures p.cols.At(m).min == LeastSum(runs, MembersAt(table, host, stack, p.ts), m)
      ensures p.cols.At(m).max == GreatestSum(runs, MembersAt(table, host, stack, p.ts), m)
    {
      StackPointIs(host, runs, batches, stack, m, since, until, p);
    }
    forall b | b in buckets ensures exists p :: p in group && p.ts == b {
      var p := StackPointAt(table, host, stack, since, until, b);
      assert p in group;
    }
  }

  /**
   * Main result: each point of a stack's history has as minimum the least, over the buckets of its group, of the
   * sum of its members' least samples, and as maximum the greatest of the sums of their greatest samples.
   */
  lemma {:induction false} StackHistoryIsSamples(
      host: string, runs: seq<HostRun>, batches: seq<seq<Trend>>, stack: string, m: Metric,
      since: nat, until: nat, group: nat, i: nat)
    requires Stored(host, runs, batches)
    requires i < |HistoryStack(Batches(batches), host, stack, since, until, group)|
    ensures var table, g := Batches(batches), AtLeastOne(group);
            var p := HistoryStack(table, host, stack, since, until, group)[i];
            var buckets := StackBuckets(table, host, stack, since, until, g, p.ts);
            && IsLeast(p.cols.At(m).min, LeastSums(runs, table, host, stack, m, buckets))
            && IsGreatest(p.cols.At(m).max, GreatestSums(runs, table, host, stack, m, buckets))
  {
    var g := AtLeastOne(group);
    var ps := StackPoints(Batches(batches), host, stack, since, until);
    PointExtremes(ps, g, i, m);
    StackGroup(host, runs, batches, stack, m, since, until, g, Downsample(ps, g)[i].ts);
  }
}
