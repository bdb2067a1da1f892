/** Start order of a compose stack: layered Kahn ordering with a cycle fallback. */
module Topo {
  import opened Prelude

  datatype DepCondition = Started | Healthy | CompletedSuccessfully
  datatype Dep = Dep(service: string, condition: DepCondition)
  datatype Member = Member(id: string, service: string, deps: seq<Dep>)

  function Services(members: set<Member>): set<string> {
    set m | m in members :: m.service
  }

  /** The in-stack services a member depends on; others are ignored. */
  function Wants(m: Member, inStack: set<string>): set<string> {
    set d | d in m.deps && d.service in inStack :: d.service
  }

  predicate Ready(m: Member, inStack: set<string>, placed: set<string>) {
    forall d | d in m.deps :: d.service !in inStack || d.service in placed
  }

  /** One side of the partition of `s`, in listing order. */
  function Side(s: seq<Member>, inStack: set<string>, placed: set<string>, ready: bool): seq<Member> {
    if s == [] then []
    else if Ready(s[0], inStack, placed) == ready then [s[0]] + Side(s[1..], inStack, placed, ready)
    else Side(s[1..], inStack, placed, ready)
  }

  lemma {:induction false} SidesPartition(s: seq<Member>, inStack: set<string>, placed: set<string>)
    ensures multiset(Side(s, inStack, placed, true)) + multiset(Side(s, inStack, placed, false)) == multiset(s)
    ensures |Side(s, inStack, placed, true)| + |Side(s, inStack, placed, false)| == |s|
  {
    if s != [] {
      SidesPartition(s[1..], inStack, placed);
      assert s == [s[0]] + s[1..];
    }
  }

  /** What the ordering loop appends: the members it could order, then the rest as a fallback. */
  datatype Plan = Plan(ordered: seq<Member>, fallback: seq<Member>)

  function Kahn(remaining: seq<Member>, inStack: set<string>, placed: set<string>): Plan
    decreases |remaining|
  {
    var ready := Side(remaining, inStack, placed, true);
    var rest := Side(remaining, inStack, placed, false);
    SidesPartition(remaining, inStack, placed);
    if ready == [] then Plan([], rest)
    else
      var tail := Kahn(rest, inStack, placed + Services(Elements(ready)));
      Plan(ready + tail.ordered, tail.fallback)
  }

  function PlanOf(members: seq<Member>): Plan {
    Kahn(members, Services(Elements(members)), {})
  }

  function Order(members: seq<Member>): seq<Member> {
    PlanOf(members).ordered + PlanOf(members).fallback
  }

  method TopoOrder(members: seq<Member>) returns (result: seq<Member>)
    ensures result == Order(members)
  {
    var inStack := Services(Elements(members));
    var placed: set<string> := {};
    result := [];
    var remaining := members;
    assert [] + Kahn(members, inStack, placed).ordered == PlanOf(members).ordered;
    while remaining != []
      invariant Order(members)
             == result + Kahn(remaining, inStack, placed).ordered + Kahn(remaining, inStack, placed).fallback
      decreases |remaining|
    {
      var ready := Side(remaining, inStack, placed, true);
      var notReady := Side(remaining, inStack, placed, false);
      SidesPartition(remaining, inStack, placed);
      if ready == [] {
        result := result + notReady;
        return;
      }
      ghost var tail := Kahn(notReady, inStack, placed + Services(Elements(ready)));
      Regroup(result, ready, tail.ordered, tail.fallback);
      placed := placed + Services(Elements(ready));
      result := result + ready;
      remaining := notReady;
    }
  }

  lemma Regroup<T>(a: seq<T>, b: seq<T>, c: seq<T>, d: seq<T>)
    ensures a + (b + c) + d == (a + b) + c + d
  {
  }

  /** Nothing is lost or invented, whatever the dependencies. */
  lemma OrderIsPermutation(members: seq<Member>)
    ensures multiset(Order(members)) == multiset(members)
  {
    KahnIsPermutation(members, Services(Elements(members)), {});
  }

  lemma {:induction false} KahnIsPermutation(remaining: seq<Member>, inStack: set<string>, placed: set<string>)
    ensures var plan := Kahn(remaining, inStack, placed);
            multiset(plan.ordered) + multiset(plan.fallback) == multiset(remaining)
    decreases |remaining|
  {
    SidesPartition(remaining, inStack, placed);
    var ready := Side(remaining, inStack, placed, true);
    if ready != [] {
      KahnIsPermutation(Side(remaining, inStack, placed, false), inStack, placed + Services(Elements(ready)));
    }
  }

  // ----- The rounds of the loop, as a fixpoint over the whole stack -----

  ghost function ReadySet(stack: set<Member>, placed: set<string>): (ready: set<Member>)
    ensures ready <= stack
  {
    set m | m in stack && Ready(m, Services(stack), placed)
  }

  /** The members found ready in the first `r` rounds. */
  ghost function Done(stack: set<Member>, r: nat): (done: set<Member>)
    ensures done <= stack
    decreases r, 0
  {
    if r == 0 then {} else ReadySet(stack, Placed(stack, r - 1))
  }

  /** The services placed after `r` rounds. */
  ghost function Placed(stack: set<Member>, r: nat): set<string>
    decreases r, 1
  {
    Services(Done(stack, r))
  }

  function Keep<T(==)>(s: seq<T>, pool: set<T>): seq<T> {
    if s == [] then []
    else if s[0] in pool then [s[0]] + Keep(s[1..], pool)
    else Keep(s[1..], pool)
  }

  /** The members that round `r` is the first to find ready, in listing order. */
  ghost function Layer(members: seq<Member>, r: nat): seq<Member> {
    Keep(members, Done(Elements(members), r + 1) - Done(Elements(members), r))
  }

  /** The members still waiting before round `r`, in listing order. */
  ghost function Waiting(members: seq<Member>, r: nat): seq<Member> {
    Keep(members, Elements(members) - Done(Elements(members), r))
  }

  ghost function Layers(members: seq<Member>, r: nat, n: nat): seq<Member>
    decreases n - r
  {
    if r >= n then [] else Layer(members, r) + Layers(members, r + 1, n)
  }

  lemma {:induction false} KeepMembers<T>(s: seq<T>, pool: set<T>)
    ensures forall x :: x in Keep(s, pool) <==> x in s && x in pool
    ensures |Keep(s, pool)| <= |s|
  {
    if s != [] {
      KeepMembers(s[1..], pool);
    }
  }

  lemma {:induction false} KeepSame<T>(s: seq<T>, a: set<T>, b: set<T>)
    requires forall x | x in s :: x in a <==> x in b
    ensures Keep(s, a) == Keep(s, b)
  {
    if s != [] {
      KeepSame(s[1..], a, b);
    }
  }

  /** Partitioning a filtered list by readiness filters it once more. */
  lemma {:induction false} SideOfKeep(
      s: seq<Member>, pool: set<Member>, inStack: set<string>, placed: set<string>, ready: bool, kept: set<Member>)
    requires forall m | m in s :: m in kept <==> m in pool && Ready(m, inStack, placed) == ready
    ensures Side(Keep(s, pool), inStack, placed, ready) == Keep(s, kept)
  {
    if s != [] {
      SideOfKeep(s[1..], pool, inStack, placed, ready, kept);
      if s[0] in pool {
        var rest := Keep(s[1..], pool);
        assert Keep(s, pool) == [s[0]] + rest && Keep(s, pool)[1..] == rest;
      }
    }
  }

  lemma ReadySetGrows(stack: set<Member>, placed: set<string>, more: set<string>)
    requires placed <= more
    ensures ReadySet(stack, placed) <= ReadySet(stack, more)
  {
  }

  lemma {:induction false} DoneGrows(stack: set<Member>, r: nat, n: nat)
    requires r <= n
    ensures Done(stack, r) <= Done(stack, n)
    ensures Placed(stack, r) <= Placed(stack, n)
  {
    if r > 0 {
      DoneGrows(stack, r - 1, n - 1);
      ReadySetGrows(stack, Placed(stack, r - 1), Placed(stack, n - 1));
    }
  }

  lemma SameNext(stack: set<Member>, a: nat, b: nat)
    requires Placed(stack, a) == Placed(stack, b)
    ensures Done(stack, a + 1) == Done(stack, b + 1) && Placed(stack, a + 1) == Placed(stack, b + 1)
  {
  }

  /** The loop's partition of what waits before round `r`: that round's layer, and what waits for the next. */
  lemma RoundPartition(members: seq<Member>, r: nat)
    ensures var stack := Elements(members);
            && Side(Waiting(members, r), Services(stack), Placed(stack, r), true) == Layer(members, r)
            && Side(Waiting(members, r), Services(stack), Placed(stack, r), false) == Waiting(members, r + 1)
  {
    var stack := Elements(members);
    var pool := stack - Done(stack, r);
    DoneGrows(stack, r, r + 1);
    SideOfKeep(members, pool, Services(stack), Placed(stack, r), true, Done(stack, r + 1) - Done(stack, r));
    SideOfKeep(members, pool, Services(stack), Placed(stack, r), false, stack - Done(stack, r + 1));
  }

  lemma RoundPlaces(members: seq<Member>, r: nat)
    ensures Elements(Layer(members, r)) == Done(Elements(members), r + 1) - Done(Elements(members), r)
    ensures Placed(Elements(members), r + 1)
         == Placed(Elements(members), r) + Services(Elements(Layer(members, r)))
  {
    var stack := Elements(members);
    DoneGrows(stack, r, r + 1);
    KeepMembers(members, Done(stack, r + 1) - Done(stack, r));
    var added := Done(stack, r + 1) - Done(stack, r);
    assert added <= stack;
    assert Elements(Layer(members, r)) == added;
    assert Done(stack, r + 1) == Done(stack, r) + added;
  }

  lemma {:induction false} KeepNone<T>(s: seq<T>)
    ensures Keep(s, {}) == []
  {
    if s != [] {
      KeepNone(s[1..]);
    }
  }

  lemma EmptyLayerAddsNothing(members: seq<Member>, r: nat)
    requires Layer(members, r) == []
    ensures Done(Elements(members), r + 1) == Done(Elements(members), r)
  {
    var before, after := Done(Elements(members), r), Done(Elements(members), r + 1);
    DoneGrows(Elements(members), r, r + 1);
    RoundPlaces(members, r);
    assert after - before == {};
    assert after == before + (after - before);
  }

  lemma EmptyLayerStays(members: seq<Member>, r: nat)
    requires Layer(members, r) == []
    ensures Layer(members, r + 1) == []
  {
    var stack := Elements(members);
    EmptyLayerAddsNothing(members, r);
    SameNext(stack, r + 1, r);
    assert Done(stack, r + 2) - Done(stack, r + 1) == {};
    KeepNone(members);
  }

  /** Once a layer is empty nothing becomes ready any more. */
  lemma {:induction false} EmptyTail(members: seq<Member>, r: nat, n: nat)
    requires Layer(members, r) == [] && r <= n
    ensures Layers(members, r, n) == []
    ensures Done(Elements(members), n) == Done(Elements(members), r)
    decreases n - r
  {
    if r < n {
      EmptyLayerAddsNothing(members, r);
      EmptyLayerStays(members, r);
      EmptyTail(members, r + 1, n);
    }
  }

  /** The loop from round `r` on yields the layers from `r` on, and falls back on what never gets ready. */
  lemma {:induction false} KahnIsLayers(members: seq<Member>, r: nat, n: nat)
    requires n >= r + |Waiting(members, r)|
    ensures Kahn(Waiting(members, r), Services(Elements(members)), Placed(Elements(members), r))
         == Plan(Layers(members, r, n), Waiting(members, n))
    decreases |Waiting(members, r)|
  {
    var stack := Elements(members);
    var w := Waiting(members, r);
    RoundPartition(members, r);
    if Layer(members, r) == [] {
      EmptyTail(members, r, n);
      EmptyTail(members, r, r + 1);
    } else {
      SidesPartition(w, Services(stack), Placed(stack, r));
      RoundPlaces(members, r);
      KahnIsLayers(members, r + 1, n);
    }
  }

  lemma {:induction false} PlanIsLayers(members: seq<Member>, n: nat)
    requires n >= |members|
    ensures PlanOf(members) == Plan(Layers(members, 0, n), Waiting(members, n))
  {
    var stack := Elements(members);
    assert Done(stack, 0) == {} && Placed(stack, 0) == {};
    assert stack - {} == stack;
    KeepAll(members, stack);
    assert Waiting(members, 0) == members;
    KahnIsLayers(members, 0, n);
  }

  lemma {:induction false} KeepAll<T>(s: seq<T>, pool: set<T>)
    requires forall x | x in s :: x in pool
    ensures Keep(s, pool) == s
  {
    if s != [] {
      KeepAll(s[1..], pool);
    }
  }
}
