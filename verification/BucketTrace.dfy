/** Whole runs of the bucketer: what every bucket collects, and what is conserved. */
module BucketTrace {
  import opened Prelude
  import opened Model
  import opened Bucketer
  import Stats

  datatype Push = Push(ts: nat, containers: seq<Container>)

  /** The bucket open after the pushes: the latest aligned start seen so far, even if the clock steps back. */
  function OpenBucket(width: nat, pushes: seq<Push>): nat
    requires width > 0 && pushes != []
  {
    var start := Align(pushes[|pushes| - 1].ts, width);
    if |pushes| == 1 then start
    else
      var before := OpenBucket(width, pushes[..|pushes| - 1]);
      if start > before then start else before
  }

  /** All readings pushed while bucket `b` was open, in order. */
  function BucketReadings(width: nat, pushes: seq<Push>, b: nat): seq<Reading>
    requires width > 0
  {
    if pushes == [] then []
    else
      BucketReadings(width, pushes[..|pushes| - 1], b)
      + if OpenBucket(width, pushes) == b then Readings(pushes[|pushes| - 1].containers) else []
  }

  function Folded(rs: seq<Reading>): Accs {
    AccumulateAll(map[], rs)
  }

  ghost predicate StepAt(
      width: nat, host: string, pushes: seq<Push>, states: seq<State>, flushes: seq<seq<Trend>>, i: nat)
    requires width > 0 && |states| == |pushes| + 1 && |flushes| == |pushes| && i < |pushes|
  {
    NonEmpty(states[i].accs)
    && Steps(width, host, states[i], pushes[i].ts, pushes[i].containers, states[i + 1], flushes[i])
  }

  /** A run of the bucketer from its constructor on; the rows of each flush come in an arbitrary order. */
  ghost predicate IsRun(
      width: nat, host: string, pushes: seq<Push>, states: seq<State>, flushes: seq<seq<Trend>>)
  {
    && width > 0 && |states| == |pushes| + 1 && |flushes| == |pushes|
    && states[0] == State(None, map[])
    && forall i | 0 <= i < |pushes| :: StepAt(width, host, pushes, states, flushes, i)
  }

  // ----- Accumulators in closed form -----

  function ValuesOf(rs: seq<Reading>, k: Key): seq<real> {
    if rs == [] then []
    else ValuesOf(rs[..|rs| - 1], k) + if rs[|rs| - 1].key == k then [rs[|rs| - 1].value] else []
  }

  /** The first reading of a key. */
  function FirstOf(rs: seq<Reading>, k: Key): Option<Reading> {
    if rs == [] then None
    else
      var before := FirstOf(rs[..|rs| - 1], k);
      if before.None? && rs[|rs| - 1].key == k then Some(rs[|rs| - 1]) else before
  }

  /** `rs[i]` is the first reading of `k`. */
  ghost predicate FirstAt(rs: seq<Reading>, k: Key, i: int) {
    0 <= i < |rs| && rs[i].key == k && forall j | 0 <= j < i :: rs[j].key != k
  }

  lemma {:induction false} FirstOfIs(rs: seq<Reading>, k: Key)
    ensures match FirstOf(rs, k)
            case None => forall i | 0 <= i < |rs| :: rs[i].key != k
            case Some(r) => exists i :: FirstAt(rs, k, i) && rs[i] == r
  {
    if rs != [] {
      var n := |rs| - 1;
      FirstOfIs(rs[..n], k);
      if FirstOf(rs[..n], k).Some? {
        var i :| FirstAt(rs[..n], k, i) && rs[..n][i] == FirstOf(rs[..n], k).value;
        assert FirstAt(rs, k, i) && rs[i] == FirstOf(rs, k).value;
      } else {
        forall i | 0 <= i < n ensures rs[i].key != k {
          assert rs[..n][i] == rs[i];
        }
        if rs[n].key == k {
          assert FirstAt(rs, k, n);
        }
      }
    }
  }

  /** Main result on accumulation: one accumulator a key, named by its first reading, holding all its values. */
  lemma {:induction false} FoldedIs(rs: seq<Reading>, k: Key)
    ensures k in Folded(rs) <==> FirstOf(rs, k).Some?
    ensures k in Folded(rs) ==>
              var first := FirstOf(rs, k).value;
              Folded(rs)[k] == Acc(first.name, first.stack, ValuesOf(rs, k)) && ValuesOf(rs, k) != []
    ensures k !in Folded(rs) ==> ValuesOf(rs, k) == []
  {
    if rs != [] {
      FoldedIs(rs[..|rs| - 1], k);
    }
  }

  lemma {:induction false} ValuesConcat(a: seq<Reading>, b: seq<Reading>, k: Key)
    ensures ValuesOf(a + b, k) == ValuesOf(a, k) + ValuesOf(b, k)
    decreases |b|
  {
    if b == [] {
      assert a + b == a;
    } else {
      assert (a + b)[..|a + b| - 1] == a + b[..|b| - 1];
      ValuesConcat(a, b[..|b| - 1], k);
    }
  }

  function Listed(v: Option<real>): (s: seq<real>)
    ensures |s| <= 1 && forall x :: x in s <==> v == Some(x)
  {
    if v.Some? then [v.value] else []
  }

  lemma {:induction false} OneValues(c: Container, m: Metric, k: Key)
    ensures ValuesOf(One(c, m), k) == if k == Key(c.id, m) then Listed(c.Reading(m)) else []
  {
    if c.Reading(m).Some? {
      assert One(c, m)[..0] == [];
    }
  }

  lemma {:induction false} SixValues(
      a: seq<Reading>, b: seq<Reading>, d: seq<Reading>, e: seq<Reading>, f: seq<Reading>, g: seq<Reading>, k: Key)
    ensures ValuesOf(a + b + d + e + f + g, k)
         == ValuesOf(a, k) + ValuesOf(b, k) + ValuesOf(d, k) + ValuesOf(e, k) + ValuesOf(f, k) + ValuesOf(g, k)
  {
    ValuesConcat(a, b, k);
    ValuesConcat(a + b, d, k);
    ValuesConcat(a + b + d, e, k);
    ValuesConcat(a + b + d + e, f, k);
    ValuesConcat(a + b + d + e + f, g, k);
  }

  /** The values one metric of a container contributes to another's. */
  function Share(c: Container, m: Metric, other: Metric): seq<real> {
    if m == other then Listed(c.Reading(m)) else []
  }

  lemma {:induction false} OneShare(c: Container, m: Metric, other: Metric)
    ensures ValuesOf(One(c, m), Key(c.id, other)) == Share(c, m, other)
  {
    OneValues(c, m, Key(c.id, other));
  }

  lemma SharesAre(c: Container, m: Metric)
    ensures Share(c, Cpu, m) + Share(c, Mem, m) + Share(c, NetRx, m) + Share(c, NetTx, m)
          + Share(c, DiskRead, m) + Share(c, DiskWrite, m) == Listed(c.Reading(m))
  {
  }

  lemma {:induction false} MetricValues(c: Container, m: Metric)
    ensures ValuesOf(ReadingsOf(c), Key(c.id, m)) == Listed(c.Reading(m))
  {
    SixValues(
      One(c, Cpu), One(c, Mem), One(c, NetRx), One(c, NetTx), One(c, DiskRead), One(c, DiskWrite), Key(c.id, m));
    OneShare(c, Cpu, m);
    OneShare(c, Mem, m);
    OneShare(c, NetRx, m);
    OneShare(c, NetTx, m);
    OneShare(c, DiskRead, m);
    OneShare(c, DiskWrite, m);
    SharesAre(c, m);
  }

  lemma OneBears(c: Container, m: Metric)
    ensures forall r | r in One(c, m) :: r.key.id == c.id && r.name == c.name && r.stack == c.stack
  {
  }

  lemma {:induction false} ReadingsBear(c: Container, r: Reading)
    requires r in ReadingsOf(c)
    ensures r.key.id == c.id && r.name == c.name && r.stack == c.stack
  {
    var m :| r in One(c, m);
    OneBears(c, m);
  }

  /** The field behind each metric; memory is read as a number of bytes. */
  predicate IsField(x: Option<real>, c: Container, m: Metric) {
    match m
    case Cpu => x == c.cpuPercent
    case Mem => (x.Some? <==> c.memUsed.Some?) && (x.Some? ==> x.value == c.memUsed.value as real)
    case NetRx => x == c.netRx
    case NetTx => x == c.netTx
    case DiskRead => x == c.diskRead
    case DiskWrite => x == c.diskWrite
  }

  /** Each field of a container that is there is read exactly once, as its own metric. */
  lemma {:induction false} FieldsRead(c: Container, m: Metric, x: Option<real>)
    requires IsField(x, c, m)
    ensures ValuesOf(ReadingsOf(c), Key(c.id, m)) == Listed(x)
  {
    MetricValues(c, m);
  }

  /** The readings of a list are those of its containers, in listing order. */
  lemma {:induction false} ReadingsConcat(a: seq<Container>, b: seq<Container>)
    ensures Readings(a + b) == Readings(a) + Readings(b)
    ensures forall c :: Readings([c]) == ReadingsOf(c)
    decreases |b|
  {
    forall c: Container ensures Readings([c]) == ReadingsOf(c) {
      assert [c][..0] == [] && [] + ReadingsOf(c) == ReadingsOf(c);
    }
    if b == [] {
      assert a + b == a;
    } else {
      var n := |b| - 1;
      assert (a + b)[..|a + b| - 1] == a + b[..n];
      ReadingsConcat(a, b[..n]);
      ConcatAssociates(Readings(a), Readings(b[..n]), ReadingsOf(b[n]));
    }
  }

  lemma {:induction false} HasFirst(rs: seq<Reading>, i: nat)
    requires i < |rs|
    ensures FirstOf(rs, rs[i].key).Some?
    ensures rs[i].value in ValuesOf(rs, rs[i].key)
  {
    if i < |rs| - 1 {
      HasFirst(rs[..|rs| - 1], i);
    }
  }

  lemma {:induction false} ValueFrom(rs: seq<Reading>, k: Key, v: real) returns (i: nat)
    requires v in ValuesOf(rs, k)
    ensures i < |rs| && rs[i].key == k && rs[i].value == v
  {
    var n := |rs| - 1;
    if v in ValuesOf(rs[..n], k) {
      i := ValueFrom(rs[..n], k, v);
    } else {
      i := n;
    }
  }

  // ----- The bucketer's state along a run -----

  lemma {:induction false} OpenBucketGrows(width: nat, pushes: seq<Push>, i: nat, j: nat)
    requires width > 0 && 0 < i <= j <= |pushes|
    ensures OpenBucket(width, pushes[..i]) <= OpenBucket(width, pushes[..j])
    decreases j
  {
    if i < j {
      assert pushes[..j][..j - 1] == pushes[..j - 1];
      OpenBucketGrows(width, pushes, i, j - 1);
    }
  }

  lemma {:induction false} OpenBucketAligned(width: nat, pushes: seq<Push>)
    requires width > 0 && pushes != []
    ensures OpenBucket(width, pushes) % width == 0
  {
    AlignedStart(pushes[|pushes| - 1].ts, width);
    if |pushes| > 1 {
      OpenBucketAligned(width, pushes[..|pushes| - 1]);
    }
  }

  lemma AlignedStart(ts: nat, width: nat)
    requires width > 0
    ensures Align(ts, width) % width == 0
  {
    DivBounds(ts, width);
    assert Align(ts, width) == ts / width * width;
    MultipleOf(ts / width, width);
  }

  /** Nothing has been collected yet for a bucket later than the open one. */
  lemma {:induction false} NothingLater(width: nat, pushes: seq<Push>, b: nat)
    requires width > 0 && (pushes == [] || b > OpenBucket(width, pushes))
    ensures BucketReadings(width, pushes, b) == []
    decreases |pushes|
  {
    if pushes != [] {
      var n := |pushes| - 1;
      if n > 0 {
        assert pushes[..n + 1] == pushes;
        OpenBucketGrows(width, pushes, n, n + 1);
      }
      NothingLater(width, pushes[..n], b);
    }
  }

  /** A closed bucket collects nothing more. */
  lemma {:induction false} ClosedStays(width: nat, pushes: seq<Push>, n: nat, m: nat, b: nat)
    requires width > 0 && 0 < n <= m <= |pushes| && b < OpenBucket(width, pushes[..n])
    ensures BucketReadings(width, pushes[..m], b) == BucketReadings(width, pushes[..n - 1], b)
    decreases m
  {
    OpenBucketGrows(width, pushes, n, m);
    assert pushes[..m][..m - 1] == pushes[..m - 1];
    if n < m {
      ClosedStays(width, pushes, n, m - 1, b);
    }
  }

  /** What one more push does to the open bucket and its readings. */
  lemma {:induction false} OpenStep(width: nat, pushes: seq<Push>, n: nat)
    requires width > 0 && 0 < n < |pushes|
    ensures var before, after := OpenBucket(width, pushes[..n]), OpenBucket(width, pushes[..n + 1]);
            var start, rs := Align(pushes[n].ts, width), Readings(pushes[n].containers);
            && after == (if start > before then start else before)
            && (after > before ==> BucketReadings(width, pushes[..n + 1], after) == rs)
            && (after == before ==> BucketReadings(width, pushes[..n + 1], after)
                                    == BucketReadings(width, pushes[..n], before) + rs)
  {
    assert pushes[..n + 1][..n] == pushes[..n];
    var before, after := OpenBucket(width, pushes[..n]), OpenBucket(width, pushes[..n + 1]);
    if after > before {
      NothingLater(width, pushes[..n], after);
    }
  }

  lemma {:induction false} FirstOpen(width: nat, pushes: seq<Push>)
    requires width > 0 && pushes != []
    ensures var b := Align(pushes[0].ts, width);
            && OpenBucket(width, pushes[..1]) == b
            && BucketReadings(width, pushes[..1], b) == Readings(pushes[0].containers)
  {
    var first := pushes[..1];
    assert first[0] == pushes[0] && first[..0] == [];
  }

  /** The state after `n` pushes, read off the pushes. */
  function OpenState(width: nat, pushes: seq<Push>, n: nat): State
    requires width > 0 && n <= |pushes|
  {
    if n == 0 then State(None, map[])
    else
      var b := OpenBucket(width, pushes[..n]);
      State(Some(b), Folded(BucketReadings(width, pushes[..n], b)))
  }

  /** One step keeps the state in that form. */
  lemma StateStep(
      width: nat, host: string, pushes: seq<Push>, n: nat, s: State, s': State, rows: seq<Trend>)
    requires width > 0 && n < |pushes| && s == OpenState(width, pushes, n) && NonEmpty(s.accs)
    requires Steps(width, host, s, pushes[n].ts, pushes[n].containers, s', rows)
    ensures s' == OpenState(width, pushes, n + 1)
  {
    var rs := Readings(pushes[n].containers);
    if n == 0 {
      FirstOpen(width, pushes);
    } else {
      OpenStep(width, pushes, n);
      var before := BucketReadings(width, pushes[..n], OpenBucket(width, pushes[..n]));
      assert AccumulateAll(Folded(before), rs) == Folded(before + rs) by {
        AccumulateConcat(map[], before, rs);
      }
    }
  }

  /** Main result on states: the bucketer holds exactly the open bucket's readings. */
  lemma {:induction false} StateIsOpenBucket(
      width: nat, host: string, pushes: seq<Push>, states: seq<State>, flushes: seq<seq<Trend>>, n: nat)
    requires IsRun(width, host, pushes, states, flushes) && n <= |pushes|
    ensures states[n] == OpenState(width, pushes, n)
    decreases n
  {
    if n > 0 {
      StateIsOpenBucket(width, host, pushes, states, flushes, n - 1);
      assert StepAt(width, host, pushes, states, flushes, n - 1);
      StateStep(width, host, pushes, n - 1, states[n - 1], states[n], flushes[n - 1]);
    }
  }

  /** A push onto an open bucket: its rows drain that bucket if a later one opens, and are none otherwise. */
  lemma {:induction false} FlushStep(
      width: nat, host: string, pushes: seq<Push>, states: seq<State>, flushes: seq<seq<Trend>>, n: nat)
    requires IsRun(width, host, pushes, states, flushes) && 0 < n < |pushes|
    ensures var b := OpenBucket(width, pushes[..n]);
            var accs := Folded(BucketReadings(width, pushes[..n], b));
            && NonEmpty(accs)
            && if b < OpenBucket(width, pushes[..n + 1]) then Drains(flushes[n], accs, b, width / 1000, host)
               else flushes[n] == []
  {
    StateIsOpenBucket(width, host, pushes, states, flushes, n);
    OpenStep(width, pushes, n);
    assert StepAt(width, host, pushes, states, flushes, n);
  }

  /** Main result on flushes: a push that opens a later bucket emits exactly the readings of the one it closes. */
  lemma {:induction false} FlushIsClosedBucket(
      width: nat, host: string, pushes: seq<Push>, states: seq<State>, flushes: seq<seq<Trend>>, n: nat)
    requires IsRun(width, host, pushes, states, flushes) && n < |pushes|
    ensures var crosses := n > 0 && OpenBucket(width, pushes[..n]) < OpenBucket(width, pushes[..n + 1]);
            if crosses then
              var b := OpenBucket(width, pushes[..n]);
              var rs := BucketReadings(width, pushes, b);
              NonEmpty(Folded(rs)) && Drains(flushes[n], Folded(rs), b, width / 1000, host)
            else flushes[n] == []
  {
    if n == 0 {
      assert StepAt(width, host, pushes, states, flushes, 0);
    } else {
      FlushStep(width, host, pushes, states, flushes, n);
      if OpenBucket(width, pushes[..n]) < OpenBucket(width, pushes[..n + 1]) {
        assert pushes[..|pushes|] == pushes && pushes[..n + 1][..n] == pushes[..n];
        ClosedStays(width, pushes, n + 1, |pushes|, OpenBucket(width, pushes[..n]));
      }
    }
  }

  /** Emitted buckets are aligned, and a later flush is of a strictly later bucket. */
  lemma FlushesAscend(
      width: nat, host: string, pushes: seq<Push>, states: seq<State>, flushes: seq<seq<Trend>>,
      i: nat, j: nat, t: Trend, u: Trend)
    requires IsRun(width, host, pushes, states, flushes) && i < j < |flushes|
    requires t in flushes[i] && u in flushes[j]
    ensures t.bucketStart < u.bucketStart
    ensures t.bucketStart % width == 0 && u.bucketStart % width == 0
  {
    FlushIsClosedBucket(width, host, pushes, states, flushes, i);
    FlushIsClosedBucket(width, host, pushes, states, flushes, j);
    OpenBucketGrows(width, pushes, i + 1, j);
    OpenBucketAligned(width, pushes[..i]);
    OpenBucketAligned(width, pushes[..j]);
  }

  /** Within a flush each container and metric has one row. */
  lemma OneRowPerKey(rows: seq<Trend>, accs: Accs, start: nat, secs: nat, host: string, i: nat, j: nat)
    requires NonEmpty(accs) && Drains(rows, accs, start, secs, host) && i < j < |rows|
    ensures rows[i].id != rows[j].id || rows[i].metric != rows[j].metric
  {
    var keys: seq<Key> :|
      Distinct(keys) && Elements(keys) == accs.Keys && rows == RowsOf(keys, accs, start, secs, host);
    assert keys[i] != keys[j];
  }

  // ----- Conservation -----

  function Without(rs: seq<Reading>, k: Key): seq<Reading> {
    if rs == [] then []
    else Without(rs[..|rs| - 1], k) + if rs[|rs| - 1].key == k then [] else [rs[|rs| - 1]]
  }

  lemma {:induction false} WithoutCounts(rs: seq<Reading>, k: Key, other: Key)
    ensures |rs| == |ValuesOf(rs, k)| + |Without(rs, k)|
    ensures other != k ==> ValuesOf(Without(rs, k), other) == ValuesOf(rs, other)
    ensures ValuesOf(Without(rs, k), k) == []
  {
    if rs != [] {
      var n := |rs| - 1;
      WithoutCounts(rs[..n], k, other);
      var w := Without(rs[..n], k);
      if rs[n].key != k {
        assert (w + [rs[n]])[..|w|] == w;
      } else {
        assert w + [] == w;
      }
    }
  }

  function Samples(rows: seq<Trend>): nat {
    if rows == [] then 0 else Samples(rows[..|rows| - 1]) + rows[|rows| - 1].samples
  }

  /** The keys of `keys` account for all of `rs`. */
  ghost predicate Account(keys: seq<Key>, accs: Accs, rs: seq<Reading>) {
    && (forall k | k in keys :: k in accs && accs[k].values == ValuesOf(rs, k))
    && forall k :: k !in keys ==> ValuesOf(rs, k) == []
  }

  lemma {:induction false} AccountWithout(keys: seq<Key>, accs: Accs, rs: seq<Reading>, k: Key)
    requires Account(keys + [k], accs, rs) && k !in keys
    ensures Account(keys, accs, Without(rs, k))
  {
    forall other ensures other != k ==> ValuesOf(Without(rs, k), other) == ValuesOf(rs, other) {
      WithoutCounts(rs, k, other);
    }
    WithoutCounts(rs, k, k);
    assert forall other :: other in keys + [k] <==> other in keys || other == k;
  }

  lemma RowsSnoc(keys: seq<Key>, accs: Accs, k: Key, start: nat, secs: nat, host: string)
    requires NonEmpty(accs) && k in accs && forall key | key in keys :: key in accs
    ensures forall key | key in keys + [k] :: key in accs
    ensures Samples(RowsOf(keys + [k], accs, start, secs, host))
         == Samples(RowsOf(keys, accs, start, secs, host)) + |accs[k].values|
  {
    var rows := RowsOf(keys + [k], accs, start, secs, host);
    assert rows[..|keys|] == RowsOf(keys, accs, start, secs, host);
    assert rows[|keys|] == RowOf(k, accs[k], start, secs, host);
    Stats.StatsMean(accs[k].values);
  }

  lemma DistinctPrefix(keys: seq<Key>, k: Key)
    requires Distinct(keys + [k])
    ensures Distinct(keys) && k !in keys
  {
    var all := keys + [k];
    assert forall i | 0 <= i < |keys| :: all[i] == keys[i];
    assert all[|keys|] == k;
  }

  /** The samples in the rows of distinct accumulators that account for some readings are those readings. */
  lemma {:induction false} RowsCount(
      keys: seq<Key>, accs: Accs, rs: seq<Reading>, start: nat, secs: nat, host: string)
    requires Distinct(keys) && NonEmpty(accs) && Account(keys, accs, rs)
    ensures Samples(RowsOf(keys, accs, start, secs, host)) == |rs|
    decreases |keys|
  {
    if keys == [] {
      if rs != [] {
        HasFirst(rs, 0);
      }
    } else {
      var k, rest := keys[|keys| - 1], keys[..|keys| - 1];
      assert keys == rest + [k];
      DistinctPrefix(rest, k);
      AccountWithout(rest, accs, rs, k);
      RowsCount(rest, accs, Without(rs, k), start, secs, host);
      RowsSnoc(rest, accs, k, start, secs, host);
      WithoutCounts(rs, k, k);
    }
  }

  lemma {:induction false} DrainedSamples(rows: seq<Trend>, rs: seq<Reading>, start: nat, secs: nat, host: string)
    requires NonEmpty(Folded(rs)) && Drains(rows, Folded(rs), start, secs, host)
    ensures Samples(rows) == |rs|
  {
    var accs := Folded(rs);
    var keys: seq<Key> :|
      Distinct(keys) && Elements(keys) == accs.Keys && rows == RowsOf(keys, accs, start, secs, host);
    forall k ensures k in keys <==> k in accs {
      assert k in keys <==> k in Elements(keys);
    }
    forall k ensures if k in keys then accs[k].values == ValuesOf(rs, k) else ValuesOf(rs, k) == [] {
      FoldedIs(rs, k);
    }
    RowsCount(keys, accs, rs, start, secs, host);
  }

  /** The samples in a table of accumulators. */
  ghost function Held(accs: Accs): nat
    decreases accs.Keys
  {
    if accs.Keys == {} then 0
    else
      var k :| k in accs.Keys;
      var rest := map k' | k' in accs && k' != k :: accs[k'];
      |accs[k].values| + Held(rest)
  }

  lemma {:induction false} HeldIs(accs: Accs, rs: seq<Reading>)
    requires forall k | k in accs :: accs[k].values == ValuesOf(rs, k)
    requires forall k | k !in accs :: ValuesOf(rs, k) == []
    ensures Held(accs) == |rs|
    decreases accs.Keys
  {
    if accs.Keys == {} {
      if rs != [] {
        HasFirst(rs, 0);
      }
    } else {
      var k :| k in accs.Keys && Held(accs) == |accs[k].values| + Held(map k' | k' in accs && k' != k :: accs[k']);
      var rest := map k' | k' in accs && k' != k :: accs[k'];
      forall other ensures other != k ==> ValuesOf(Without(rs, k), other) == ValuesOf(rs, other) {
        WithoutCounts(rs, k, other);
      }
      WithoutCounts(rs, k, k);
      HeldIs(rest, Without(rs, k));
    }
  }

  function Fed(pushes: seq<Push>): nat {
    if pushes == [] then 0 else Fed(pushes[..|pushes| - 1]) + |Readings(pushes[|pushes| - 1].containers)|
  }

  function Emitted(flushes: seq<seq<Trend>>): nat {
    if flushes == [] then 0 else Emitted(flushes[..|flushes| - 1]) + Samples(flushes[|flushes| - 1])
  }

  /** Main result: at any point of any run, samples emitted plus samples held equal the readings fed in. */
  lemma Conservation(
      width: nat, host: string, pushes: seq<Push>, states: seq<State>, flushes: seq<seq<Trend>>, n: nat)
    requires IsRun(width, host, pushes, states, flushes) && n <= |pushes|
    ensures Emitted(flushes[..n]) + Held(states[n].accs) == Fed(pushes[..n])
  {
    StateIsOpenBucket(width, host, pushes, states, flushes, n);
    ConservedReadings(width, host, pushes, states, flushes, n);
    if n > 0 {
      var rs := BucketReadings(width, pushes[..n], OpenBucket(width, pushes[..n]));
      forall k ensures if k in Folded(rs) then Folded(rs)[k].values == ValuesOf(rs, k) else ValuesOf(rs, k) == [] {
        FoldedIs(rs, k);
      }
      HeldIs(Folded(rs), rs);
    }
  }

  /** How many readings the open bucket holds after `n` pushes. */
  function OpenCount(width: nat, pushes: seq<Push>, n: nat): nat
    requires width > 0 && n <= |pushes|
  {
    if n == 0 then 0 else |BucketReadings(width, pushes[..n], OpenBucket(width, pushes[..n]))|
  }

  /** One push moves readings from the open bucket to the rows it emits, and adds its own. */
  lemma ConservedStep(
      width: nat, host: string, pushes: seq<Push>, states: seq<State>, flushes: seq<seq<Trend>>, n: nat)
    requires IsRun(width, host, pushes, states, flushes) && n < |pushes|
    ensures Samples(flushes[n]) + OpenCount(width, pushes, n + 1)
         == OpenCount(width, pushes, n) + |Readings(pushes[n].containers)|
  {
    FlushIsClosedBucket(width, host, pushes, states, flushes, n);
    assert pushes[..n + 1][..n] == pushes[..n];
    var b := OpenBucket(width, pushes[..n + 1]);
    if n == 0 || OpenBucket(width, pushes[..n]) < b {
      NothingLater(width, pushes[..n], b);
      if n > 0 {
        var closed := OpenBucket(width, pushes[..n]);
        assert pushes[..|pushes|] == pushes;
        ClosedStays(width, pushes, n + 1, |pushes|, closed);
        DrainedSamples(flushes[n], BucketReadings(width, pushes, closed), closed, width / 1000, host);
      }
    }
  }

  lemma {:induction false} ConservedReadings(
      width: nat, host: string, pushes: seq<Push>, states: seq<State>, flushes: seq<seq<Trend>>, n: nat)
    requires IsRun(width, host, pushes, states, flushes) && n <= |pushes|
    ensures Emitted(flushes[..n]) + OpenCount(width, pushes, n) == Fed(pushes[..n])
    decreases n
  {
    if n > 0 {
      ConservedReadings(width, host, pushes, states, flushes, n - 1);
      ConservedStep(width, host, pushes, states, flushes, n - 1);
      assert pushes[..n][..n - 1] == pushes[..n - 1] && flushes[..n][..n - 1] == flushes[..n - 1];
    }
  }

  // ----- Which samples stand behind a row -----

  /** Reading `i` is of metric `m` and goes by `name`: the name its key was first sighted under. */
  predicate GoesBy(rs: seq<Reading>, i: nat, name: string, m: Metric)
    requires i < |rs|
  {
    var first := FirstOf(rs, rs[i].key);
    rs[i].key.metric == m && first.Some? && first.value.name == name
  }

  /** The values attributed to a name. */
  ghost function Attributed(rs: seq<Reading>, name: string, m: Metric): set<real> {
    set i | 0 <= i < |rs| && GoesBy(rs, i, name, m) :: rs[i].value
  }

  ghost predicate RowFor(t: Trend, host: string, name: string, b: nat, m: Metric) {
    t.host == host && t.name == name && t.bucketStart == b && t.metric == Known(m)
  }

  /** Every row comes from one accumulator. */
  lemma RowSource(rows: seq<Trend>, rs: seq<Reading>, b: nat, secs: nat, host: string, t: Trend) returns (k: Key)
    requires NonEmpty(Folded(rs)) && Drains(rows, Folded(rs), b, secs, host) && t in rows
    ensures k in Folded(rs) && t == RowOf(k, Folded(rs)[k], b, secs, host)
  {
    var accs := Folded(rs);
    var keys: seq<Key> :| Distinct(keys) && Elements(keys) == accs.Keys && rows == RowsOf(keys, accs, b, secs, host);
    var i :| 0 <= i < |rows| && rows[i] == t;
    k := keys[i];
    assert k in Elements(keys);
  }

  /** Every accumulator has its row. */
  lemma RowExists(rows: seq<Trend>, accs: Accs, b: nat, secs: nat, host: string, k: Key)
    requires NonEmpty(accs) && Drains(rows, accs, b, secs, host) && k in accs
    ensures RowOf(k, accs[k], b, secs, host) in rows
  {
    var keys: seq<Key> :| Distinct(keys) && Elements(keys) == accs.Keys && rows == RowsOf(keys, accs, b, secs, host);
    assert k in Elements(keys);
    var i :| 0 <= i < |keys| && keys[i] == k;
    assert rows[i] == RowOf(k, accs[k], b, secs, host);
  }

  /** A row's extremes are samples attributed to its name. */
  lemma RowExtremes(rows: seq<Trend>, rs: seq<Reading>, b: nat, secs: nat, host: string, t: Trend)
    requires NonEmpty(Folded(rs)) && Drains(rows, Folded(rs), b, secs, host) && t in rows
    ensures t.metric.Known? && t.host == host && t.bucketStart == b
    ensures t.min in Attributed(rs, t.name, t.metric.metric) && t.max in Attributed(rs, t.name, t.metric.metric)
  {
    var k := RowSource(rows, rs, b, secs, host, t);
    FoldedIs(rs, k);
    Stats.StatsMean(Folded(rs)[k].values);
    var lo := ValueFrom(rs, k, t.min);
    var hi := ValueFrom(rs, k, t.max);
    assert GoesBy(rs, lo, t.name, k.metric) && GoesBy(rs, hi, t.name, k.metric);
  }

  /** Every sample attributed to a name is bounded by a row for that name. */
  lemma SampleHasRow(
      rows: seq<Trend>, rs: seq<Reading>, b: nat, secs: nat, host: string, name: string, m: Metric, v: real)
      returns (t: Trend)
    requires NonEmpty(Folded(rs)) && Drains(rows, Folded(rs), b, secs, host) && v in Attributed(rs, name, m)
    ensures t in rows && RowFor(t, host, name, b, m) && t.min <= v <= t.max
  {
    var i :| 0 <= i < |rs| && GoesBy(rs, i, name, m) && rs[i].value == v;
    var k := rs[i].key;
    FoldedIs(rs, k);
    HasFirst(rs, i);
    Stats.StatsMean(Folded(rs)[k].values);
    RowExists(rows, Folded(rs), b, secs, host, k);
    t := RowOf(k, Folded(rs)[k], b, secs, host);
  }

  /** Every row the bucketer emits is sound: ordered statistics over at least one sample. */
  lemma RowsSound(rows: seq<Trend>, accs: Accs, b: nat, secs: nat, host: string)
    requires NonEmpty(accs) && Drains(rows, accs, b, secs, host)
    ensures forall t | t in rows :: t.min <= t.median <= t.max && t.samples > 0 && t.metric.Known? && t.host == host
  {
    var keys: seq<Key> :| Distinct(keys) && Elements(keys) == accs.Keys && rows == RowsOf(keys, accs, b, secs, host);
    forall i | 0 <= i < |rows| ensures rows[i].min <= rows[i].median <= rows[i].max && rows[i].samples > 0 {
      Stats.StatsMean(accs[keys[i]].values);
    }
  }
}
