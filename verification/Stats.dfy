/** Minimum, maximum and median of a list of samples. */
module Stats {
  import opened Prelude

  datatype Stats = Stats(min: real, max: real, median: real, count: nat)

  predicate Ascending(s: seq<real>) {
    forall i, j | 0 <= i <= j < |s| :: s[i] <= s[j]
  }

  function Insert(x: real, s: seq<real>): seq<real> {
    if s == [] || x <= s[0] then [x] + s else [s[0]] + Insert(x, s[1..])
  }

  function Sort(values: seq<real>): seq<real> {
    if values == [] then [] else Insert(values[0], Sort(values[1..]))
  }

  function Midpoint(a: real, b: real): real {
    (a + b) / 2.0
  }

  function MedianOfSorted(s: seq<real>): real
    requires s != []
  {
    var n := |s|;
    if n % 2 == 1 then s[n / 2] else Midpoint(s[n / 2 - 1], s[n / 2])
  }

  lemma {:induction false} InsertSorts(x: real, s: seq<real>)
    requires Ascending(s)
    ensures Ascending(Insert(x, s)) && multiset(Insert(x, s)) == multiset(s) + multiset{x}
  {
    if s != [] && x > s[0] {
      InsertSorts(x, s[1..]);
      var r := Insert(x, s[1..]);
      assert s == [s[0]] + s[1..];
      forall i | 0 <= i < |r| ensures s[0] <= r[i] {
        assert r[i] in multiset(r);
      }
    } else {
      assert s != [] ==> s == [s[0]] + s[1..];
    }
  }

  lemma {:induction false} SortSorts(values: seq<real>)
    ensures Ascending(Sort(values)) && multiset(Sort(values)) == multiset(values)
  {
    if values != [] {
      SortSorts(values[1..]);
      InsertSorts(values[0], Sort(values[1..]));
      assert values == [values[0]] + values[1..];
    }
  }

  function From(values: seq<real>): Option<Stats> {
    if values == [] then None
    else
      var sorted := Sort(values);
      SortKeepsLength(values);
      Some(Stats(sorted[0], sorted[|sorted| - 1], MedianOfSorted(sorted), |sorted|))
  }

  lemma {:induction false} SortKeepsLength(values: seq<real>)
    ensures |Sort(values)| == |values|
  {
    SortSorts(values);
    assert |multiset(Sort(values))| == |multiset(values)|;
  }

  lemma {:induction false} LeastFirst(s: seq<real>, t: seq<real>)
    requires Ascending(s) && Ascending(t) && multiset(s) == multiset(t) && s != []
    ensures t != [] && s[0] <= t[0]
  {
    assert s[0] in multiset(t);
    assert t[0] in multiset(s);
  }

  lemma RestPermutes(s: seq<real>, t: seq<real>)
    requires s != [] && t != [] && s[0] == t[0] && multiset(s) == multiset(t)
    ensures multiset(s[1..]) == multiset(t[1..])
  {
    assert s == [s[0]] + s[1..] && t == [t[0]] + t[1..];
    assert multiset(s[1..]) == multiset(s) - multiset{s[0]};
    assert multiset(t[1..]) == multiset(t) - multiset{t[0]};
  }

  /** There is only one way to sort. */
  lemma {:induction false} SortedIsUnique(s: seq<real>, t: seq<real>)
    requires Ascending(s) && Ascending(t) && multiset(s) == multiset(t)
    ensures s == t
  {
    if s == [] {
      assert |multiset(t)| == 0;
    } else {
      LeastFirst(s, t);
      LeastFirst(t, s);
      RestPermutes(s, t);
      SortedIsUnique(s[1..], t[1..]);
      assert s == [s[0]] + s[1..] && t == [t[0]] + t[1..];
    }
  }

  /** Of the samples in ascending order, the median is the middle one, or the mean of the two middle ones. */
  lemma {:induction false} MedianIsMiddle(values: seq<real>, s: seq<real>)
    requires values != [] && Ascending(s) && multiset(s) == multiset(values)
    ensures |s| == |values|
    ensures 2.0 * From(values).value.median == s[(|s| - 1) / 2] + s[|s| / 2]
  {
    SortSorts(values);
    SortKeepsLength(values);
    SortedIsUnique(s, Sort(values));
  }

  function AtMost(values: seq<real>, x: real): nat {
    if values == [] then 0 else (if values[0] <= x then 1 else 0) + AtMost(values[1..], x)
  }

  function AtLeast(values: seq<real>, x: real): nat {
    if values == [] then 0 else (if values[0] >= x then 1 else 0) + AtLeast(values[1..], x)
  }

  lemma {:induction false} InsertCounts(y: real, s: seq<real>, x: real)
    ensures AtMost(Insert(y, s), x) == AtMost([y] + s, x)
    ensures AtLeast(Insert(y, s), x) == AtLeast([y] + s, x)
  {
    if s != [] && y > s[0] {
      InsertCounts(y, s[1..], x);
      assert ([y] + s)[1..] == s && ([y] + s[1..])[1..] == s[1..];
      assert ([s[0]] + Insert(y, s[1..]))[1..] == Insert(y, s[1..]);
    }
  }

  lemma {:induction false} SortCounts(values: seq<real>, x: real)
    ensures AtMost(Sort(values), x) == AtMost(values, x)
    ensures AtLeast(Sort(values), x) == AtLeast(values, x)
  {
    if values != [] {
      SortCounts(values[1..], x);
      InsertCounts(values[0], Sort(values[1..]), x);
      assert ([values[0]] + Sort(values[1..]))[1..] == Sort(values[1..]);
    }
  }

  lemma {:induction false} PrefixAtMost(s: seq<real>, k: nat, x: real)
    requires k <= |s| && forall i | 0 <= i < k :: s[i] <= x
    ensures AtMost(s, x) >= k
  {
    if k > 0 {
      PrefixAtMost(s[1..], k - 1, x);
    }
  }

  lemma {:induction false} SuffixAtLeast(s: seq<real>, k: nat, x: real)
    requires k <= |s| && forall i | k <= i < |s| :: s[i] >= x
    ensures AtLeast(s, x) >= |s| - k
  {
    if s != [] {
      SuffixAtLeast(s[1..], if k > 0 then k - 1 else 0, x);
    }
  }

  /**
   * The statistics mean what they say: the extremes are attained and bound every sample, the median lies
   * between them, and at least half of the samples lie on either side of it.
   */
  lemma {:induction false} StatsMean(values: seq<real>)
    requires values != []
    ensures From(values).Some?
    ensures var s := From(values).value;
            && s.min in values && s.max in values && (forall v | v in values :: s.min <= v <= s.max)
            && s.min <= s.median <= s.max
            && 2 * AtMost(values, s.median) >= |values| && 2 * AtLeast(values, s.median) >= |values|
            && s.count == |values|
  {
    var sorted, n := Sort(values), |values|;
    SortSorts(values);
    SortKeepsLength(values);
    var s := From(values).value;
    assert sorted[0] in multiset(sorted) && sorted[n - 1] in multiset(sorted);
    forall v | v in values ensures s.min <= v <= s.max {
      assert v in multiset(sorted);
    }
    PrefixAtMost(sorted, (n + 1) / 2, s.median);
    SuffixAtLeast(sorted, n / 2, s.median);
    SortCounts(values, s.median);
  }
}
