/** Accumulating samples into wall-clock buckets and closing them into trend rows. */
module Bucketer {
  import opened Prelude
  import opened Model
  import Stats

  datatype Key = Key(id: string, metric: Metric)
  datatype Acc = Acc(name: string, stack: Option<string>, values: seq<real>)
  type Accs = map<Key, Acc>

  /** One reading of one metric of one container. */
  datatype Reading = Reading(key: Key, name: string, stack: Option<string>, value: real)

  function One(c: Container, m: Metric): seq<Reading> {
    match c.Reading(m)
    case None => []
    case Some(v) => [Reading(Key(c.id, m), c.name, c.stack, v)]
  }

  function ReadingsOf(c: Container): seq<Reading> {
    One(c, Cpu) + One(c, Mem) + One(c, NetRx) + One(c, NetTx) + One(c, DiskRead) + One(c, DiskWrite)
  }

  function Readings(cs: seq<Container>): seq<Reading> {
    if cs == [] then [] else Readings(cs[..|cs| - 1]) + ReadingsOf(cs[|cs| - 1])
  }

  /** The first sighting of a key fixes the name and stack; later ones only add their value. */
  function Accumulate(accs: Accs, r: Reading): Accs {
    if r.key in accs then accs[r.key := accs[r.key].(values := accs[r.key].values + [r.value])]
    else accs[r.key := Acc(r.name, r.stack, [r.value])]
  }

  function AccumulateAll(accs: Accs, rs: seq<Reading>): Accs {
    if rs == [] then accs else Accumulate(AccumulateAll(accs, rs[..|rs| - 1]), rs[|rs| - 1])
  }

  lemma {:induction false} AccumulateConcat(accs: Accs, a: seq<Reading>, b: seq<Reading>)
    ensures AccumulateAll(accs, a + b) == AccumulateAll(AccumulateAll(accs, a), b)
    decreases |b|
  {
    if b == [] {
      assert a + b == a;
    } else {
      assert (a + b)[..|a + b| - 1] == a + b[..|b| - 1];
      AccumulateConcat(accs, a, b[..|b| - 1]);
    }
  }

  function RowOf(k: Key, acc: Acc, start: nat, secs: nat, host: string): Trend
    requires acc.values != []
  {
    Stats.StatsMean(acc.values);
    var s := Stats.From(acc.values).value;
    Trend(start, secs, host, k.id, acc.name, acc.stack, Known(k.metric), s.min, s.max, s.median, s.count)
  }

  predicate NonEmpty(accs: Accs) {
    forall k | k in accs :: accs[k].values != []
  }

  function RowsOf(keys: seq<Key>, accs: Accs, start: nat, secs: nat, host: string): seq<Trend>
    requires NonEmpty(accs) && forall k | k in keys :: k in accs
  {
    seq(|keys|, i requires 0 <= i < |keys| => RowOf(keys[i], accs[keys[i]], start, secs, host))
  }

  /** The rows are those of all accumulators, each once, in any order. */
  ghost predicate Drains(rows: seq<Trend>, accs: Accs, start: nat, secs: nat, host: string)
    requires NonEmpty(accs)
  {
    exists keys: seq<Key> ::
      && Distinct(keys) && Elements(keys) == accs.Keys
      && rows == RowsOf(keys, accs, start, secs, host)
  }

  // ----- The bucketer -----

  datatype State = State(current: Option<nat>, accs: Accs)

  function Align(ts: nat, width: nat): nat
    requires width > 0
  {
    ts - ts % width
  }

  predicate Crosses(s: State, start: nat) {
    s.current.Some? && start > s.current.value
  }

  /** One push: a later bucket closes the current one; the readings go to whichever is then open. */
  ghost predicate Steps(width: nat, host: string, s: State, ts: nat, cs: seq<Container>, s': State, rows: seq<Trend>)
    requires width > 0 && NonEmpty(s.accs)
  {
    var start := Align(ts, width);
    if Crosses(s, start) then
      && s' == State(Some(start), AccumulateAll(map[], Readings(cs)))
      && Drains(rows, s.accs, s.current.value, width / 1000, host)
    else
      && s' == State(Some(if s.current.Some? then s.current.value else start), AccumulateAll(s.accs, Readings(cs)))
      && rows == []
  }

  class Bucketer {
    const bucketMs: nat
    const host: string
    var currentStart: Option<nat>
    var containers: Accs

    ghost predicate Valid()
      reads this
    {
      bucketMs > 0 && NonEmpty(containers)
    }

    ghost function Contents(): State
      reads this
    {
      State(currentStart, containers)
    }

    constructor (bucketSecs: nat, host: string)
      ensures Valid() && Contents() == State(None, map[])
      ensures this.host == host && bucketMs == (if bucketSecs == 0 then 1 else bucketSecs) * 1000
    {
      bucketMs := (if bucketSecs == 0 then 1 else bucketSecs) * 1000;
      this.host := host;
      currentStart := None;
      containers := map[];
    }

    method Push(ts: nat, cs: seq<Container>) returns (flushed: seq<Trend>)
      requires Valid()
      modifies this
      ensures Valid()
      ensures Steps(bucketMs, host, old(Contents()), ts, cs, Contents(), flushed)
    {
      var start := ts - ts % bucketMs;
      flushed := [];
      if currentStart.Some? && start > currentStart.value {
        flushed := Close(currentStart.value);
        currentStart := Some(start);
      } else if currentStart.None? {
        currentStart := Some(start);
      }
      AddContainers(cs);
    }

    method AddContainers(cs: seq<Container>)
      requires Valid()
      modifies this`containers
      ensures Valid() && containers == AccumulateAll(old(containers), Readings(cs))
    {
      for i := 0 to |cs|
        invariant Valid()
        invariant containers == AccumulateAll(old(containers), Readings(cs[..i]))
      {
        assert cs[..i + 1][..i] == cs[..i];
        AccumulateConcat(old(containers), Readings(cs[..i]), ReadingsOf(cs[i]));
        AddContainer(cs[i]);
      }
      assert cs[..|cs|] == cs;
    }

    method AddContainer(c: Container)
      requires Valid()
      modifies this`containers
      ensures Valid() && containers == AccumulateAll(old(containers), ReadingsOf(c))
    {
      ghost var before := containers;
      Add(c, Cpu);
      Add(c, Mem);
      AccumulateConcat(before, One(c, Cpu), One(c, Mem));
      Add(c, NetRx);
      AccumulateConcat(before, One(c, Cpu) + One(c, Mem), One(c, NetRx));
      Add(c, NetTx);
      AccumulateConcat(before, One(c, Cpu) + One(c, Mem) + One(c, NetRx), One(c, NetTx));
      Add(c, DiskRead);
      AccumulateConcat(before, One(c, Cpu) + One(c, Mem) + One(c, NetRx) + One(c, NetTx), One(c, DiskRead));
      Add(c, DiskWrite);
      AccumulateConcat(
        before, One(c, Cpu) + One(c, Mem) + One(c, NetRx) + One(c, NetTx) + One(c, DiskRead), One(c, DiskWrite));
    }

    method Add(c: Container, m: Metric)
      requires Valid()
      modifies this`containers
      ensures Valid() && containers == AccumulateAll(old(containers), One(c, m))
    {
      var reading := c.Reading(m);
      if reading.Some? {
        var k := Key(c.id, m);
        if k !in containers {
          containers := containers[k := Acc(c.name, c.stack, [])];
        }
        containers := containers[k := containers[k].(values := containers[k].values + [reading.value])];
        var v := reading.value;
        assert One(c, m)[..0] == [] && [] + [v] == [v];
        assert containers == Accumulate(old(containers), Reading(k, c.name, c.stack, v));
      }
    }

    /** Drain every accumulator into a row, in whatever order the table yields them. */
    method Close(start: nat) returns (rows: seq<Trend>)
      requires Valid()
      modifies this`containers
      ensures containers == map[] && Drains(rows, old(containers), start, bucketMs / 1000, host)
    {
      ghost var all, keys := containers, [];
      rows := [];
      while containers.Keys != {}
        invariant NonEmpty(all) && containers.Keys <= all.Keys && forall k | k in containers :: containers[k] == all[k]
        invariant Distinct(keys) && Elements(keys) == all.Keys - containers.Keys
        invariant forall k | k in keys :: k in Elements(keys)
        invariant rows == RowsOf(keys, all, start, bucketMs / 1000, host)
        decreases containers.Keys
      {
        var k :| k in containers.Keys;
        rows := rows + [RowOf(k, containers[k], start, bucketMs / 1000, host)];
        ElementsSnoc(keys, k);
        keys := keys + [k];
        containers := map k' | k' in containers && k' != k :: containers[k'];
      }
    }
  }

  lemma ElementsSnoc<T>(s: seq<T>, x: T)
    ensures Elements(s + [x]) == Elements(s) + {x}
    ensures Distinct(s) && x !in Elements(s) ==> Distinct(s + [x])
  {
    assert forall y :: y in s + [x] <==> y in s || y == x;
    assert forall i | 0 <= i < |s| :: s[i] in Elements(s);
  }
}
