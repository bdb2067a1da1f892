/** Small datatypes and finite-collection facts shared by the kernels. */
module Prelude {

  datatype Option<+T> = None | Some(value: T)

  /** Unsigned subtraction that stops at zero. */
  function SatSub(a: nat, b: nat): nat {
    if a < b then 0 else a - b
  }

  function Elements<T>(s: seq<T>): set<T> {
    set x | x in s
  }

  predicate Distinct<T(==)>(s: seq<T>) {
    forall i, j | 0 <= i < j < |s| :: s[i] != s[j]
  }

  lemma Element<T>(s: set<T>) returns (x: T)
    requires s != {}
    ensures x in s
  {
    x :| x in s;
  }

  lemma ElementsBounded<T>(s: seq<T>)
    ensures |Elements(s)| <= |s|
  {
    if s != [] {
      ElementsBounded(s[1..]);
      assert Elements(s) == {s[0]} + Elements(s[1..]);
    }
  }

  lemma SubsetSize<T>(a: set<T>, b: set<T>)
    requires a <= b
    ensures |a| <= |b|
  {
    if a != {} {
      var x :| x in a;
      SubsetSize(a - {x}, b - {x});
    }
  }

  /** A list longer than the set it draws from repeats an element. */
  lemma Pigeonhole<T>(p: seq<T>, pool: set<T>)
    requires forall x | x in p :: x in pool
    requires |p| > |pool|
    ensures exists i, j :: 0 <= i < j < |p| && p[i] == p[j]
  {
    if forall i, j | 0 <= i < j < |p| :: p[i] != p[j] {
      DistinctSize(p);
      SubsetSize(Elements(p), pool);
    }
  }

  lemma DistinctSize<T>(p: seq<T>)
    requires forall i, j | 0 <= i < j < |p| :: p[i] != p[j]
    ensures |Elements(p)| == |p|
  {
    if p != [] {
      DistinctSize(p[1..]);
      assert Elements(p) == {p[0]} + Elements(p[1..]);
    }
  }

  lemma ConcatAssociates<T>(a: seq<T>, b: seq<T>, c: seq<T>)
    ensures (a + b) + c == a + (b + c)
  {
  }

  /** A list around one occurrence of an element. */
  lemma SplitAt<T>(s: seq<T>, x: T) returns (before: seq<T>, after: seq<T>)
    requires x in s
    ensures s == before + ([x] + after)
    ensures multiset(s) == multiset(before + after) + multiset{x}
  {
    var i :| 0 <= i < |s| && s[i] == x;
    before, after := s[..i], s[i + 1..];
    assert s == before + ([x] + after);
  }

  /** Two permuted lists stay permuted when the last element of one is taken out of both. */
  lemma TakeOut<T>(a: seq<T>, b: seq<T>) returns (before: seq<T>, after: seq<T>)
    requires multiset(a) == multiset(b) && a != []
    ensures b == before + ([a[|a| - 1]] + after)
    ensures multiset(a[..|a| - 1]) == multiset(before + after)
  {
    var x := a[|a| - 1];
    assert a == a[..|a| - 1] + [x];
    assert x in multiset(a);
    before, after := SplitAt(b, x);
    assert multiset(a[..|a| - 1]) == multiset(a) - multiset{x};
  }

  // ----- Division -----

  lemma MulMonotone(x: int, y: int, d: nat)
    requires x <= y
    ensures x * d <= y * d
  {
  }

  /** The quotient is the greatest factor that fits. */
  lemma DivBounds(a: nat, d: nat)
    requires d > 0
    ensures a / d * d <= a < (a / d + 1) * d
  {
    assert a == a / d * d + a % d;
    assert (a / d + 1) * d == a / d * d + d;
  }

  lemma FitsDiv(c: int, a: nat, d: nat)
    requires d > 0 && c * d <= a
    ensures c <= a / d
  {
    DivBounds(a, d);
    if c > a / d {
      MulMonotone(a / d + 1, c, d);
    }
  }

  lemma DivMonotone(a: nat, b: nat, d: nat)
    requires a <= b && d > 0
    ensures a / d <= b / d
  {
    DivBounds(a, d);
    FitsDiv(a / d, b, d);
  }

  /** A quotient is pinned down by its bounds. */
  lemma DivIs(a: nat, q: nat, d: nat)
    requires d > 0 && q * d <= a < (q + 1) * d
    ensures a / d == q
  {
    FitsDiv(q, a, d);
    DivBounds(a, d);
    if a / d > q {
      MulMonotone(q + 1, a / d, d);
    }
  }

  lemma MultipleOf(q: nat, width: nat)
    requires width > 0
    ensures q * width % width == 0
  {
    DivIs(q * width, q, width);
  }
}
