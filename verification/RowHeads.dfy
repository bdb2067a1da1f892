/** The columns the metrics of a stored row share: its container, its stack and its sample count. */
module RowHeads {
  import opened Prelude
  import opened Model
  import opened Bucketer
  import opened BucketTrace
  import opened TrendTable
  import opened TableInvariants
  import opened EndToEnd
  import opened Medians

  predicate Bears(t: Trend, key: RowKey) {
    KeyOf(t) == key && t.metric.Known?
  }

  ghost predicate LastBearer(trends: seq<Trend>, key: RowKey, i: int) {
    0 <= i < |trends| && Bears(trends[i], key) && forall j | i < j < |trends| :: !Bears(trends[j], key)
  }

  ghost predicate FirstStacked(trends: seq<Trend>, key: RowKey, i: int) {
    && 0 <= i < |trends| && Bears(trends[i], key) && trends[i].stack.Some?
    && forall j | 0 <= j < i && Bears(trends[j], key) :: trends[j].stack.None?
  }

  ghost predicate Unstacked(trends: seq<Trend>, key: RowKey) {
    forall t | t in trends && Bears(t, key) :: t.stack.None?
  }

  /** The stack of the first row of a key that names one, or none if no row does. */
  ghost predicate IsFirstStack(stack: Option<string>, trends: seq<Trend>, key: RowKey) {
    match stack
    case None => Unstacked(trends, key)
    case Some(_) => exists i :: FirstStacked(trends, key, i) && trends[i].stack == stack
  }

  /** `n` is the number of samples of the most sampled metric of a key. */
  ghost predicate IsMost(n: nat, trends: seq<Trend>, key: RowKey) {
    && (forall m: Metric :: TotalSamples(EnvelopesOf(trends, key, m)) <= n)
    && exists m: Metric :: TotalSamples(EnvelopesOf(trends, key, m)) == n
  }

  // ----- One batch -----

  lemma {:induction false} PivotLast(trends: seq<Trend>, key: RowKey) returns (i: nat)
    requires key in Pivot(trends)
    ensures LastBearer(trends, key, i)
    ensures Pivot(trends)[key].id == trends[i].id && Pivot(trends)[key].bucketSecs == trends[i].bucketSecs
  {
    var n := |trends| - 1;
    if Bears(trends[n], key) {
      i := n;
    } else {
      i := PivotLast(trends[..n], key);
    }
  }

  lemma {:induction false} FirstStackOfMore(trends: seq<Trend>, key: RowKey, stack: Option<string>, t: Trend)
    requires IsFirstStack(stack, trends, key)
    ensures IsFirstStack(if Bears(t, key) then Coalesce(stack, t.stack) else stack, trends + [t], key)
  {
    var more := trends + [t];
    assert forall u :: u in more <==> u in trends || u == t;
    if stack.Some? {
      var i :| FirstStacked(trends, key, i) && trends[i].stack == stack;
      assert FirstStacked(more, key, i) && more[i].stack == stack;
    } else if Bears(t, key) && t.stack.Some? {
      assert FirstStacked(more, key, |trends|) && more[|trends|].stack == t.stack;
    }
  }

  lemma {:induction false} PivotStack(trends: seq<Trend>, key: RowKey)
    ensures IsFirstStack(if key in Pivot(trends) then Pivot(trends)[key].stack else None, trends, key)
  {
    if trends != [] {
      var n := |trends| - 1;
      PivotStack(trends[..n], key);
      var before := Pivot(trends[..n]);
      assert trends == trends[..n] + [trends[n]];
      FirstStackOfMore(trends[..n], key, if key in before then before[key].stack else None, trends[n]);
    }
  }

  lemma {:induction false} SamplesAttained(trends: seq<Trend>, key: RowKey) returns (m: Metric)
    requires key in Pivot(trends)
    ensures m in Pivot(trends)[key].metrics && Pivot(trends)[key].metrics[m].samples == Pivot(trends)[key].samples
  {
    var n := |trends| - 1;
    var before := Pivot(trends[..n]);
    if key in before {
      m := SamplesAttained(trends[..n], key);
      if Bears(trends[n], key) && Pivot(trends)[key].samples > before[key].samples {
        m := trends[n].metric.metric;
      }
    } else {
      m := trends[n].metric.metric;
    }
  }

  lemma {:induction false} PivotTotals(trends: seq<Trend>, key: RowKey, m: Metric)
    ensures TotalSamples(EnvelopesOf(trends, key, m))
         == if MetricAt(Pivot(trends), key, m).Some? then MetricAt(Pivot(trends), key, m).value.samples else 0
  {
    PivotIs(trends, key, m);
    if EnvelopesOf(trends, key, m) != [] {
      MergeAllMedian(EnvelopesOf(trends, key, m));
    }
  }

  /** A pivoted row's sample count is that of its most sampled metric; a key without a row has no samples. */
  lemma {:induction false} PivotMost(trends: seq<Trend>, key: RowKey)
    ensures IsMost(if key in Pivot(trends) then Pivot(trends)[key].samples else 0, trends, key)
  {
    var most := if key in Pivot(trends) then Pivot(trends)[key].samples else 0;
    forall m: Metric ensures TotalSamples(EnvelopesOf(trends, key, m)) <= most {
      PivotTotals(trends, key, m);
      if MetricAt(Pivot(trends), key, m).Some? {
        PivotSampled(trends, key, m);
      }
    }
    var m := Cpu;
    if key in Pivot(trends) {
      m := SamplesAttained(trends, key);
    }
    PivotTotals(trends, key, m);
  }

  /** Main result on a batch: what a pivoted row says of its container, stack and samples. */
  lemma {:induction false} PivotHead(trends: seq<Trend>, key: RowKey) returns (last: nat)
    requires key in Pivot(trends)
    ensures IsMost(Pivot(trends)[key].samples, trends, key)
    ensures IsFirstStack(Pivot(trends)[key].stack, trends, key)
    ensures LastBearer(trends, key, last)
    ensures Pivot(trends)[key].id == trends[last].id && Pivot(trends)[key].bucketSecs == trends[last].bucketSecs
  {
    PivotMost(trends, key);
    PivotStack(trends, key);
    last := PivotLast(trends, key);
  }

  // ----- Any batches -----

  function Sum(counts: seq<nat>): nat {
    if counts == [] then 0 else Sum(counts[..|counts| - 1]) + counts[|counts| - 1]
  }

  ghost predicate AreMost(counts: seq<nat>, batches: seq<seq<Trend>>, key: RowKey) {
    |counts| == |batches| && forall k | 0 <= k < |batches| :: IsMost(counts[k], batches[k], key)
  }

  lemma {:induction false} SamplesAdd(batches: seq<seq<Trend>>, key: RowKey) returns (counts: seq<nat>)
    ensures AreMost(counts, batches, key)
    ensures Sum(counts) == if key in Batches(batches) then Batches(batches)[key].samples else 0
  {
    if batches == [] {
      counts := [];
    } else {
      var n := |batches| - 1;
      var before := SamplesAdd(batches[..n], key);
      PivotMost(batches[n], key);
      UpsertAllAt(Batches(batches[..n]), Pivot(batches[n]), key);
      counts := before + [if key in Pivot(batches[n]) then Pivot(batches[n])[key].samples else 0];
      assert counts[..n] == before;
      forall k | 0 <= k < |batches| ensures IsMost(counts[k], batches[k], key) {
        if k < n {
          assert counts[k] == before[k] && batches[k] == batches[..n][k];
        }
      }
    }
  }

  lemma {:induction false} LastAfter(before: seq<Trend>, batch: seq<Trend>, key: RowKey, i: nat)
    ensures LastBearer(batch, key, i) ==> LastBearer(before + batch, key, |before| + i)
    ensures LastBearer(before, key, i) && (forall t | t in batch :: !Bears(t, key)) ==>
              LastBearer(before + batch, key, i)
  {
    var all := before + batch;
    if LastBearer(batch, key, i) {
      forall j | |before| + i < j < |all| ensures !Bears(all[j], key) {
        assert all[j] == batch[j - |before|];
      }
    }
    if LastBearer(before, key, i) && forall t | t in batch :: !Bears(t, key) {
      forall j | i < j < |all| ensures !Bears(all[j], key) {
        assert all[j] == if j < |before| then before[j] else batch[j - |before|];
      }
    }
  }

  lemma {:induction false} TableLast(batches: seq<seq<Trend>>, key: RowKey) returns (i: nat)
    requires key in Batches(batches)
    ensures LastBearer(All(batches), key, i)
    ensures Batches(batches)[key].id == All(batches)[i].id
    ensures Batches(batches)[key].bucketSecs == All(batches)[i].bucketSecs
    decreases |batches|
  {
    var n := |batches| - 1;
    var before, batch := All(batches[..n]), batches[n];
    UpsertAllAt(Batches(batches[..n]), Pivot(batch), key);
    PivotKeys(batch, key);
    if key in Pivot(batch) {
      var last := PivotLast(batch, key);
      LastAfter(before, batch, key, last);
      i := |before| + last;
    } else {
      i := TableLast(batches[..n], key);
      LastAfter(before, batch, key, i);
    }
  }

  ghost predicate LastStacked(stack: Option<string>, batches: seq<seq<Trend>>, key: RowKey, k: int) {
    && 0 <= k < |batches| && IsFirstStack(stack, batches[k], key)
    && forall j | k < j < |batches| :: Unstacked(batches[j], key)
  }

  /** The stack that the last batch to name one names first, or none if no batch does. */
  ghost predicate IsLatestStack(stack: Option<string>, batches: seq<seq<Trend>>, key: RowKey) {
    match stack
    case None => forall k | 0 <= k < |batches| :: Unstacked(batches[k], key)
    case Some(_) => exists k :: LastStacked(stack, batches, key, k)
  }

  lemma {:induction false} LatestStackOfMore(
      batches: seq<seq<Trend>>, key: RowKey, stored: Option<string>, batch: seq<Trend>, stack: Option<string>)
    requires IsLatestStack(stored, batches, key) && IsFirstStack(stack, batch, key)
    ensures IsLatestStack(Coalesce(stack, stored), batches + [batch], key)
  {
    var more := batches + [batch];
    assert forall k | 0 <= k < |batches| :: more[k] == batches[k];
    if stack.Some? {
      assert LastStacked(stack, more, key, |batches|);
    } else if stored.Some? {
      var k :| LastStacked(stored, batches, key, k);
      assert LastStacked(stored, more, key, k);
    }
  }

  lemma {:induction false} TableStack(batches: seq<seq<Trend>>, key: RowKey)
    ensures IsLatestStack(if key in Batches(batches) then Batches(batches)[key].stack else None, batches, key)
  {
    if batches != [] {
      var n := |batches| - 1;
      var table, batch := Batches(batches[..n]), batches[n];
      TableStack(batches[..n], key);
      PivotStack(batch, key);
      UpsertAllAt(table, Pivot(batch), key);
      LatestStackOfMore(
        batches[..n], key, if key in table then table[key].stack else None,
        batch, if key in Pivot(batch) then Pivot(batch)[key].stack else None);
      assert batches == batches[..n] + [batch];
    }
  }

  /**
   * Main result on the table, for any batches: a row's id and bucket width are those of the last row of its key,
   * its stack is the one named by the last batch to name one, and its sample count adds up the batches' most
   * sampled metrics.
   */
  lemma {:induction false} TableHead(batches: seq<seq<Trend>>, key: RowKey) returns (last: nat, counts: seq<nat>)
    requires key in Batches(batches)
    ensures LastBearer(All(batches), key, last)
    ensures Batches(batches)[key].id == All(batches)[last].id
    ensures Batches(batches)[key].bucketSecs == All(batches)[last].bucketSecs
    ensures IsLatestStack(Batches(batches)[key].stack, batches, key)
    ensures AreMost(counts, batches, key) && Batches(batches)[key].samples == Sum(counts)
  {
    last := TableLast(batches, key);
    TableStack(batches, key);
    counts := SamplesAdd(batches, key);
  }

  // ----- From readings to the stack a row is filed under -----

  /** A container that goes by `name` in bucket `b` was first read in that stack. */
  ghost predicate GoesIn(r: HostRun, b: nat, id: string, name: string, m: Metric, stack: Option<string>) {
    Goes(r, b, id, name, m) && FirstIn(r, b, id, m).value.stack == stack
  }

  /** A container that goes by a name has a row under it, filed under its id and stack. */
  lemma GoingHasRow(host: string, r: HostRun, b: nat, id: string, name: string, m: Metric) returns (t: Trend)
    requires Ran(r, host) && Goes(r, b, id, name, m)
    ensures InFlush(r.flushes, t) && RowFor(t, host, name, b, m)
    ensures t.id == id && t.stack == FirstIn(r, b, id, m).value.stack
  {
    var n := FlushOf(r.width, host, r.pushes, r.states, r.flushes, b);
    var rs, k := BucketReadings(r.width, r.pushes, b), Key(id, m);
    FoldedIs(rs, k);
    RowExists(r.flushes[n], Folded(rs), b, r.width / 1000, host, k);
    t := RowOf(k, Folded(rs)[k], b, r.width / 1000, host);
  }

  lemma {:induction false} InAll(batches: seq<seq<Trend>>, t: Trend)
    ensures t in All(batches) <==> exists k :: 0 <= k < |batches| && t in batches[k]
  {
    if batches != [] {
      var n := |batches| - 1;
      InAll(batches[..n], t);
      if k :| 0 <= k < |batches| && t in batches[k] {
        assert k < n ==> t in batches[..n][k];
      }
    }
  }

  /** A stored row of a key was flushed for a container that goes by the key's name. */
  lemma BearerGoes(host: string, runs: seq<HostRun>, batches: seq<seq<Trend>>, name: string, b: nat, t: Trend)
      returns (k: nat, m: Metric)
    requires Stored(host, runs, batches) && t in All(batches) && Bears(t, RowKey(host, name, b))
    ensures k < |runs| && GoesIn(runs[k], b, t.id, name, m, t.stack)
  {
    var j :| 0 <= j < |runs| && InFlush(runs[j].flushes, t);
    var id := RowStatistics(host, runs[j], t);
    k, m := j, t.metric.metric;
  }

  /**
   * Main result end to end: a stored row names a container that goes by its name in its bucket, and the stack of
   * one that does; it names no stack exactly when no such container was first read in one.
   */
  lemma {:induction false} StoredHead(
      host: string, runs: seq<HostRun>, batches: seq<seq<Trend>>, name: string, b: nat)
    requires Stored(host, runs, batches) && RowKey(host, name, b) in Batches(batches)
    ensures var row := Batches(batches)[RowKey(host, name, b)];
            exists k, m :: 0 <= k < |runs| && Goes(runs[k], b, row.id, name, m)
    ensures var stack := Batches(batches)[RowKey(host, name, b)].stack;
            if stack.Some? then exists k, id, m :: 0 <= k < |runs| && GoesIn(runs[k], b, id, name, m, stack)
            else
              forall k, id, m | 0 <= k < |runs| && Goes(runs[k], b, id, name, m) ::
                GoesIn(runs[k], b, id, name, m, None)
  {
    var key := RowKey(host, name, b);
    var row := Batches(batches)[key];
    var last, counts := TableHead(batches, key);
    var k, m := BearerGoes(host, runs, batches, name, b, All(batches)[last]);
    assert Goes(runs[k], b, row.id, name, m);
    if row.stack.Some? {
      StackNamed(host, runs, batches, name, b, row.stack);
    } else {
      forall k, id, m | 0 <= k < |runs| && Goes(runs[k], b, id, name, m)
        ensures GoesIn(runs[k], b, id, name, m, None)
      {
        NoStackNamed(host, runs, batches, k, b, id, name, m);
      }
    }
  }

  lemma {:induction false} StackNamed(
      host: string, runs: seq<HostRun>, batches: seq<seq<Trend>>, name: string, b: nat, stack: Option<string>)
    requires Stored(host, runs, batches) && stack.Some? && IsLatestStack(stack, batches, RowKey(host, name, b))
    ensures exists k, id, m :: 0 <= k < |runs| && GoesIn(runs[k], b, id, name, m, stack)
  {
    var key := RowKey(host, name, b);
    var n :| LastStacked(stack, batches, key, n);
    var i :| FirstStacked(batches[n], key, i) && batches[n][i].stack == stack;
    InAll(batches, batches[n][i]);
    var k, m := BearerGoes(host, runs, batches, name, b, batches[n][i]);
  }

  lemma {:induction false} NoStackNamed(
      host: string, runs: seq<HostRun>, batches: seq<seq<Trend>>, k: nat, b: nat, id: string, name: string, m: Metric)
    requires Stored(host, runs, batches) && IsLatestStack(None, batches, RowKey(host, name, b))
    requires k < |runs| && Goes(runs[k], b, id, name, m)
    ensures GoesIn(runs[k], b, id, name, m, None)
  {
    var t := GoingHasRow(host, runs[k], b, id, name, m);
    assert InRuns(runs, t);
    InAll(batches, t);
    var n :| 0 <= n < |batches| && t in batches[n];
    assert Bears(t, RowKey(host, name, b)) && Unstacked(batches[n], RowKey(host, name, b));
  }
}
