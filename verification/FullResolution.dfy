/** Charts that show every stored row as it is. */
module FullResolution {
  import opened Prelude
  import opened Model
  import opened TrendTable
  import opened History
  import opened Window

  predicate Ascends(ps: seq<Point>) {
    forall i, j | 0 <= i < j < |ps| :: ps[i].ts < ps[j].ts
  }

  /** Every point starts a group of its own. */
  predicate OwnGroups(ps: seq<Point>, g: nat)
    requires g > 0
  {
    Ascends(ps) && forall p | p in ps :: Start(p.ts, g) == p.ts
  }

  predicate StartsAt(p: Point, g: nat, start: nat)
    requires g > 0
  {
    Start(p.ts, g) == start
  }

  lemma {:induction false} OwnGroup(ps: seq<Point>, g: nat, i: nat, start: nat)
    requires g > 0 && i < |ps| && forall j | 0 <= j < |ps| :: StartsAt(ps[j], g, start) <==> j == i
    ensures InGroup(ps, g, start) == [ps[i]]
    decreases |ps|
  {
    var n := |ps| - 1;
    assert StartsAt(ps[n], g, start) <==> n == i;
    if i < n {
      OwnGroup(ps[..n], g, i, start);
    } else {
      NoGroup(ps[..n], g, start);
    }
  }

  lemma {:induction false} NoGroup(ps: seq<Point>, g: nat, start: nat)
    requires g > 0 && forall j | 0 <= j < |ps| :: !StartsAt(ps[j], g, start)
    ensures InGroup(ps, g, start) == []
  {
    if ps != [] {
      assert !StartsAt(ps[|ps| - 1], g, start);
      NoGroup(ps[..|ps| - 1], g, start);
    }
  }

  lemma OneRowAggregate(p: Point, m: Metric)
    ensures AggregateCols([p], m) == p.cols.At(m)
  {
    assert [p][..0] == [] && [p][|[p]| - 1] == p;
    assert MinAgg([p], m) == p.cols.At(m).min && MaxAgg([p], m) == p.cols.At(m).max;
    match p.cols.At(m).med {
      case None =>
        assert MedTotal([p], m) == Total(0.0, 0);
      case Some(x) =>
        assert MedTotal([p], m) == Total(0.0 + x, 1);
        Cancel(x, 1);
        assert Weight(x, 1) == x;
    }
  }

  /** Two ascending lists with the same elements are the same. */
  lemma {:induction false} AscendingUnique(a: seq<nat>, b: seq<nat>)
    requires forall i, j | 0 <= i < j < |a| :: a[i] < a[j]
    requires forall i, j | 0 <= i < j < |b| :: b[i] < b[j]
    requires |a| == |b| && forall x :: x in a <==> x in b
    ensures a == b
  {
    if a != [] {
      assert a[0] in b && b[0] in a;
      var x := a[0];
      assert b[0] == x;
      forall y ensures y in a[1..] <==> y in b[1..] {
        assert y in a[1..] <==> y in a && y != x;
        assert y in b[1..] <==> y in b && y != x;
      }
      AscendingUnique(a[1..], b[1..]);
    }
  }

  lemma StartsAreOwn(ps: seq<Point>, g: nat)
    requires g > 0 && OwnGroups(ps, g)
    ensures Sorted(Starts(ps, g)) == seq(|ps|, i requires 0 <= i < |ps| => ps[i].ts)
  {
    var starts := Starts(ps, g);
    var ts := seq(|ps|, i requires 0 <= i < |ps| => ps[i].ts);
    SortedIs(starts);
    forall x ensures x in ts <==> x in starts {
      if x in ts {
        var i :| 0 <= i < |ts| && ts[i] == x;
        assert ps[i] in ps;
      }
      if x in starts {
        var p :| p in ps && Start(p.ts, g) == x;
        var i :| 0 <= i < |ps| && ps[i] == p;
        assert ts[i] == x;
      }
    }
    DistinctSize(ts);
    assert Elements(ts) == starts;
    AscendingUnique(ts, Sorted(starts));
  }

  lemma OwnPoint(ps: seq<Point>, g: nat, i: nat)
    requires g > 0 && OwnGroups(ps, g) && i < |ps|
    ensures GroupPoint(ps, g, ps[i].ts) == ps[i]
  {
    forall j | 0 <= j < |ps| ensures StartsAt(ps[j], g, ps[i].ts) <==> j == i {
      assert ps[j] in ps;
    }
    OwnGroup(ps, g, i, ps[i].ts);
    forall m ensures GroupPoint(ps, g, ps[i].ts).cols.At(m) == ps[i].cols.At(m) {
      OneRowAggregate(ps[i], m);
    }
    SameSix(GroupPoint(ps, g, ps[i].ts).cols, ps[i].cols);
  }

  /** Where every point starts its own group, downsampling changes nothing, medians included. */
  lemma UnchangedByDownsample(ps: seq<Point>, g: nat)
    requires g > 0 && OwnGroups(ps, g)
    ensures Downsample(ps, g) == ps
  {
    StartsAreOwn(ps, g);
    forall i | 0 <= i < |ps| ensures Downsample(ps, g)[i] == ps[i] {
      OwnPoint(ps, g, i);
    }
  }

  /** The group is one minute exactly for windows below a day and 1440 ms. */
  lemma MinuteGroupIff(window: nat)
    ensures GroupForWindow(window) == 60_000 <==> window < 1440 * 60_001
  {
  }

  /** Main result: a chart of up to a day shows every row of a table of whole minutes as it is stored. */
  lemma DayIsFullResolution(table: Table, host: string, name: string, since: nat, until: nat)
    requires since <= until && until - since < 1440 * 60_001
    requires forall key | key in table && key.host == host && key.name == name :: key.bucketStart % 60_000 == 0
    ensures HistoryContainer(table, host, name, since, until, GroupForWindow(until - since))
         == ContainerPoints(table, host, name, since, until)
  {
    MinuteGroupIff(until - since);
    MinutePoints(table, host, name, since, until);
    UnchangedByDownsample(ContainerPoints(table, host, name, since, until), 60_000);
  }

  lemma MinuteStart(b: nat)
    requires b % 60_000 == 0
    ensures Start(b, 60_000) == b
  {
  }

  lemma MinutePoints(table: Table, host: string, name: string, since: nat, until: nat)
    requires forall key | key in table && key.host == host && key.name == name :: key.bucketStart % 60_000 == 0
    ensures OwnGroups(ContainerPoints(table, host, name, since, until), 60_000)
  {
    var starts, ps := ContainerStarts(table, host, name, since, until),
                      ContainerPoints(table, host, name, since, until);
    SortedIs(starts);
    forall i | 0 <= i < |ps| ensures Start(ps[i].ts, 60_000) == ps[i].ts {
      assert Sorted(starts)[i] in starts;
      MinuteStart(ps[i].ts);
    }
  }
}
