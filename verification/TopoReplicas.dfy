/** Exactly which member comes before which in the start order, whatever the replicas declare. */
module TopoReplicas {
  import opened Prelude
  import opened Topo
  import opened TopoGraph

  /** `m` is held back for `k` rounds: some service it wants has all its replicas held back for `k - 1`. */
  ghost predicate Held(stack: set<Member>, m: Member, k: nat)
    decreases k, 0
  {
    k == 0 || exists t :: t in Wants(m, Services(stack)) && AllHeld(stack, t, k - 1)
  }

  ghost predicate AllHeld(stack: set<Member>, t: string, k: nat)
    decreases k, 1
  {
    forall n | n in stack && n.service == t :: Held(stack, n, k)
  }

  /** `a` is held back for fewer rounds than `b`; as many rounds as there are members decide. */
  ghost predicate Sooner(members: seq<Member>, a: Member, b: Member) {
    exists q: nat :: q <= |members| && !Held(Elements(members), a, q) && Held(Elements(members), b, q)
  }

  ghost predicate SameRound(members: seq<Member>, a: Member, b: Member) {
    forall q: nat | q <= |members| :: Held(Elements(members), a, q) <==> Held(Elements(members), b, q)
  }

  ghost predicate Listed(s: seq<Member>, a: Member, b: Member) {
    exists i, j :: 0 <= i < j < |s| && s[i] == a && s[j] == b
  }

  /** What decides whether `a` comes before `b`: the rounds each is held back, then the listing. */
  ghost predicate Precedes(members: seq<Member>, a: Member, b: Member) {
    Sooner(members, a, b) || (SameRound(members, a, b) && Listed(members, a, b))
  }

  // ----- Rounds -----

  /** The fixpoint iteration finds a member ready exactly when it is no longer held back. */
  lemma {:induction false} DoneIffNotHeld(stack: set<Member>, m: Member, r: nat)
    requires m in stack
    ensures m in Done(stack, r) <==> !Held(stack, m, r)
    decreases r
  {
    if r > 0 {
      ReadyIsWantsPlaced(m, Services(stack), Placed(stack, r - 1));
      forall t | t in Wants(m, Services(stack)) ensures t in Placed(stack, r - 1) <==> !AllHeld(stack, t, r - 1) {
        forall n | n in stack && n.service == t ensures n in Done(stack, r - 1) <==> !Held(stack, n, r - 1) {
          DoneIffNotHeld(stack, n, r - 1);
        }
      }
    }
  }

  lemma {:induction false} HeldShrinks(stack: set<Member>, m: Member, p: nat, q: nat)
    requires m in stack && p <= q && Held(stack, m, q)
    ensures Held(stack, m, p)
  {
    DoneIffNotHeld(stack, m, p);
    DoneIffNotHeld(stack, m, q);
    DoneGrows(stack, p, q);
  }

  // ----- Precedence is a strict order on positions -----

  lemma {:induction false} PrecedesAsymmetric(members: seq<Member>, a: Member, b: Member)
    requires Distinct(members) && a in members && b in members && Precedes(members, a, b)
    ensures !Precedes(members, b, a)
  {
    var stack := Elements(members);
    if Sooner(members, a, b) && Sooner(members, b, a) {
      var p: nat :| p <= |members| && !Held(stack, a, p) && Held(stack, b, p);
      var q: nat :| q <= |members| && !Held(stack, b, q) && Held(stack, a, q);
      if p <= q {
        HeldShrinks(stack, a, p, q);
      } else {
        HeldShrinks(stack, b, q, p);
      }
    }
  }

  lemma {:induction false} KeptAt<T>(s: seq<T>, pool: set<T>, i: nat) returns (u: nat)
    requires i < |Keep(s, pool)|
    ensures u < |s| && s[u] == Keep(s, pool)[i]
    decreases |s|
  {
    if s[0] in pool && i == 0 {
      u := 0;
    } else {
      u := KeptAt(s[1..], pool, if s[0] in pool then i - 1 else i);
      u := u + 1;
    }
  }

  lemma {:induction false} KeepListed<T>(s: seq<T>, pool: set<T>, i: nat, j: nat) returns (u: nat, v: nat)
    requires i < j < |Keep(s, pool)|
    ensures u < v < |s| && s[u] == Keep(s, pool)[i] && s[v] == Keep(s, pool)[j]
    decreases |s|
  {
    if s[0] in pool {
      if i == 0 {
        v := KeptAt(s[1..], pool, j - 1);
        u, v := 0, v + 1;
      } else {
        u, v := KeepListed(s[1..], pool, i - 1, j - 1);
        u, v := u + 1, v + 1;
      }
    } else {
      u, v := KeepListed(s[1..], pool, i, j);
      u, v := u + 1, v + 1;
    }
  }

  /** Round `q` is the first to find `a` ready, and finds `b` ready too only if that is listed later. */
  ghost predicate FirstInRound(members: seq<Member>, a: Member, b: Member, q: nat) {
    var stack := Elements(members);
    && a in Done(stack, q + 1) && a !in Done(stack, q) && b !in Done(stack, q)
    && (b in Done(stack, q + 1) ==> Listed(members, a, b))
  }

  lemma SameLayer(members: seq<Member>, r: nat, i: nat, j: nat)
    requires i < j < |Layer(members, r)|
    ensures FirstInRound(members, Layer(members, r)[i], Layer(members, r)[j], r)
  {
    var stack, layer := Elements(members), Layer(members, r);
    var u, v := KeepListed(members, Done(stack, r + 1) - Done(stack, r), i, j);
    RoundPlaces(members, r);
    assert layer[i] in Elements(layer) && layer[j] in Elements(layer);
  }

  lemma LaterLayer(members: seq<Member>, r: nat, n: nat, a: Member, b: Member)
    requires a in Layer(members, r) && b in Layers(members, r + 1, n)
    ensures FirstInRound(members, a, b, r)
  {
    RoundPlaces(members, r);
    assert a in Elements(Layer(members, r));
    LayersAfter(members, r + 1, n);
    DoneGrows(Elements(members), r, r + 1);
  }

  /** In the layers, an earlier position was ready in an earlier round, or in the same one and listed earlier. */
  lemma {:induction false} LayersSorted(members: seq<Member>, r: nat, n: nat, i: nat, j: nat) returns (q: nat)
    requires i < j < |Layers(members, r, n)|
    ensures q < n && FirstInRound(members, Layers(members, r, n)[i], Layers(members, r, n)[j], q)
    decreases n - r
  {
    var first, rest := Layer(members, r), Layers(members, r + 1, n);
    if i >= |first| {
      q := LayersSorted(members, r + 1, n, i - |first|, j - |first|);
    } else {
      q := r;
      if j < |first| {
        SameLayer(members, r, i, j);
      } else {
        LaterLayer(members, r, n, first[i], rest[j - |first|]);
      }
    }
  }

  lemma {:induction false} RoundsDecide(members: seq<Member>, a: Member, b: Member, q: nat)
    requires q < |members| && a in members && b in members && FirstInRound(members, a, b, q)
    ensures Precedes(members, a, b)
  {
    var stack := Elements(members);
    DoneIffNotHeld(stack, a, q);
    DoneIffNotHeld(stack, b, q);
    DoneIffNotHeld(stack, a, q + 1);
    DoneIffNotHeld(stack, b, q + 1);
    if b in Done(stack, q + 1) {
      forall p: nat | p <= |members| ensures Held(stack, a, p) <==> Held(stack, b, p) {
        OneRound(stack, a, q, p);
        OneRound(stack, b, q, p);
      }
    }
  }

  lemma OneRound(stack: set<Member>, m: Member, q: nat, p: nat)
    requires m in stack && Held(stack, m, q) && !Held(stack, m, q + 1)
    ensures Held(stack, m, p) <==> p <= q
  {
    if p <= q {
      HeldShrinks(stack, m, p, q);
    } else if Held(stack, m, p) {
      HeldShrinks(stack, m, q + 1, p);
    }
  }

  lemma {:induction false} FallbackHeld(members: seq<Member>, m: Member, q: nat)
    requires m in PlanOf(members).fallback && q <= |members|
    ensures m in members && Held(Elements(members), m, q)
  {
    var stack, n := Elements(members), |members|;
    PlanIsLayers(members, n);
    KeepMembers(members, stack - Done(stack, n));
    DoneIffNotHeld(stack, m, n);
    HeldShrinks(stack, m, q, n);
  }

  lemma {:induction false} OrderedNotHeld(members: seq<Member>, m: Member)
    requires m in PlanOf(members).ordered
    ensures m in members && !Held(Elements(members), m, |members|)
  {
    var stack, n := Elements(members), |members|;
    PlanIsLayers(members, n);
    LayersAfter(members, 0, n);
    LayersDone(members, 0, n, m);
    DoneIffNotHeld(stack, m, n);
  }

  lemma {:induction false} LayersDone(members: seq<Member>, r: nat, n: nat, m: Member)
    requires m in Layers(members, r, n)
    ensures m in Done(Elements(members), n)
    decreases n - r
  {
    assert m in Layer(members, r) || m in Layers(members, r + 1, n);
    if m in Layer(members, r) {
      LayerDone(members, r, m);
      DoneGrows(Elements(members), r + 1, n);
    } else {
      LayersDone(members, r + 1, n, m);
    }
  }

  lemma {:induction false} LayerDone(members: seq<Member>, r: nat, m: Member)
    requires m in Layer(members, r)
    ensures m in Done(Elements(members), r + 1)
  {
    RoundPlaces(members, r);
    assert m in Elements(Layer(members, r));
  }

  /** Any two positions of the order are in precedence; neither cycles nor disagreeing replicas are excluded. */
  lemma {:induction false} OrderPrecedes(members: seq<Member>, i: nat, j: nat)
    requires i < j < |Order(members)|
    ensures Precedes(members, Order(members)[i], Order(members)[j])
  {
    var n, plan := |members|, PlanOf(members);
    var a, b := Order(members)[i], Order(members)[j];
    PlanIsLayers(members, n);
    OrderMembers(members, i);
    OrderMembers(members, j);
    if j < |plan.ordered| {
      var q := LayersSorted(members, 0, n, i, j);
      RoundsDecide(members, a, b, q);
    } else if i < |plan.ordered| {
      assert a in plan.ordered && b in plan.fallback;
      OrderedNotHeld(members, a);
      FallbackHeld(members, b, n);
    } else {
      FallbackListed(members, i - |plan.ordered|, j - |plan.ordered|);
    }
  }

  lemma {:induction false} FallbackListed(members: seq<Member>, i: nat, j: nat)
    requires i < j < |PlanOf(members).fallback|
    ensures Precedes(members, PlanOf(members).fallback[i], PlanOf(members).fallback[j])
  {
    var stack, n, fallback := Elements(members), |members|, PlanOf(members).fallback;
    PlanIsLayers(members, n);
    var u, v := KeepListed(members, stack - Done(stack, n), i, j);
    forall q: nat | q <= n ensures Held(stack, fallback[i], q) <==> Held(stack, fallback[j], q) {
      FallbackHeld(members, fallback[i], q);
      FallbackHeld(members, fallback[j], q);
    }
  }

  /** Main result: for every list of members, position in the order is exactly precedence. */
  lemma {:induction false} PositionIff(members: seq<Member>, i: nat, j: nat)
    requires Distinct(members) && i < |Order(members)| && j < |Order(members)|
    ensures j < i <==> Precedes(members, Order(members)[j], Order(members)[i])
  {
    OrderMembers(members, i);
    OrderMembers(members, j);
    var a, b := Order(members)[i], Order(members)[j];
    if j < i {
      OrderPrecedes(members, j, i);
    } else if Precedes(members, b, a) {
      PrecedesAsymmetric(members, b, a);
      if i < j {
        OrderPrecedes(members, i, j);
      }
    }
  }

  /** Every member comes after every replica of every in-stack service it wants. */
  ghost predicate KeepsPromise(members: seq<Member>) {
    forall i, j | 0 <= i < |Order(members)| && 0 <= j < |Order(members)|
                  && Order(members)[j].service in Wants(Order(members)[i], Services(Elements(members))) :: j < i
  }

  ghost predicate DependenciesPrecede(members: seq<Member>) {
    forall m, r | m in members && r in members && r.service in Wants(m, Services(Elements(members))) ::
      Precedes(members, r, m)
  }

  lemma PositionOf(members: seq<Member>, m: Member) returns (i: nat)
    requires m in members
    ensures i < |Order(members)| && Order(members)[i] == m
  {
    OrderIsPermutation(members);
    assert m in multiset(members);
    i :| 0 <= i < |Order(members)| && Order(members)[i] == m;
  }

  /** Main result: the order keeps its promise exactly when each dependency has precedence over its dependents. */
  lemma {:induction false} PromiseIff(members: seq<Member>)
    requires Distinct(members)
    ensures KeepsPromise(members) <==> DependenciesPrecede(members)
  {
    if KeepsPromise(members) {
      forall m, r | m in members && r in members && r.service in Wants(m, Services(Elements(members)))
        ensures Precedes(members, r, m)
      {
        var i := PositionOf(members, m);
        var j := PositionOf(members, r);
        PositionIff(members, i, j);
      }
    }
    if DependenciesPrecede(members) {
      forall i, j | 0 <= i < |Order(members)| && 0 <= j < |Order(members)|
                    && Order(members)[j].service in Wants(Order(members)[i], Services(Elements(members)))
        ensures j < i
      {
        OrderMembers(members, i);
        OrderMembers(members, j);
        PositionIff(members, i, j);
      }
    }
  }

  // ----- Replicas that disagree -----

  lemma {:induction false} RanksFall(stack: set<Member>, p: seq<string>, rank: string -> nat, i: nat, j: nat)
    requires Walk(stack, p) && i < j < |p|
    requires forall s, t | Edge(stack, s, t) :: rank(t) < rank(s)
    ensures rank(p[j]) < rank(p[i])
  {
    assert Edge(stack, p[j - 1], p[j - 1 + 1]);
    if i < j - 1 {
      RanksFall(stack, p, rank, i, j - 1);
    }
  }

  /** Services that can be ranked so that dependencies lead downwards have no cycle. */
  lemma RankedHasNoCycle(stack: set<Member>, rank: string -> nat)
    requires forall s, t | Edge(stack, s, t) :: rank(t) < rank(s)
    ensures !HasCycle(stack)
  {
    forall s, p | WalkFrom(stack, s, p) ensures !Repeats(p) {
      if Repeats(p) {
        var i, j :| 0 <= i < j < |p| && p[i] == p[j];
        RanksFall(stack, p, rank, i, j);
      }
    }
  }

  function Rank(service: string): nat {
    if service == "web" then 3 else if service == "db" then 2 else if service == "cache" then 1 else 0
  }

  const DB1 := Member("1", "db", [])
  const DB2 := Member("2", "db", [Dep("cache", Started)])
  const WEB := Member("3", "web", [Dep("db", Started)])
  const CACHE := Member("4", "cache", [Dep("config", Started)])
  const CONFIG := Member("5", "config", [])
  const STACK := [DB1, DB2, WEB, CACHE, CONFIG]

  lemma StackWants()
    ensures Elements(STACK) == {DB1, DB2, WEB, CACHE, CONFIG}
    ensures Wants(WEB, Services(Elements(STACK))) == {"db"}
    ensures Wants(DB2, Services(Elements(STACK))) == {"cache"}
    ensures Wants(CACHE, Services(Elements(STACK))) == {"config"}
    ensures Wants(DB1, Services(Elements(STACK))) == {} && Wants(CONFIG, Services(Elements(STACK))) == {}
  {
    assert Elements(STACK) == {DB1, DB2, WEB, CACHE, CONFIG};
    assert Services(Elements(STACK)) == {"db", "web", "cache", "config"};
    assert WEB.deps[0] in WEB.deps && DB2.deps[0] in DB2.deps && CACHE.deps[0] in CACHE.deps;
  }

  /** One replica of `db` is ready at once, the other only after two rounds; `web` is content with the first. */
  lemma WebIsSooner()
    ensures Sooner(STACK, WEB, DB2)
  {
    var stack := Elements(STACK);
    StackWants();
    assert !Held(stack, DB1, 1);
    assert !AllHeld(stack, "db", 1);
    assert !Held(stack, WEB, 2);
    assert Held(stack, CACHE, 1) by {
      assert AllHeld(stack, "config", 0);
    }
    assert AllHeld(stack, "cache", 1);
    assert Held(stack, DB2, 2);
  }

  /**
   * Without any cycle, nothing falls back and yet `web` comes before a replica of the service it depends on.
   */
  lemma DisagreeingReplicas() returns (i: nat, j: nat)
    ensures !HasCycle(Elements(STACK)) && PlanOf(STACK).fallback == [] && Distinct(STACK)
    ensures i < j < |Order(STACK)| && Order(STACK)[j].service in Wants(Order(STACK)[i], Services(Elements(STACK)))
  {
    var stack := Elements(STACK);
    StackWants();
    forall s, t | Edge(stack, s, t) ensures Rank(t) < Rank(s) {
      var m :| m in stack && m.service == s && t in Wants(m, Services(stack));
      assert m in {DB1, DB2, WEB, CACHE, CONFIG};
    }
    RankedHasNoCycle(stack, Rank);
    if PlanOf(STACK).fallback != [] {
      FallbackReachesCycle(STACK, PlanOf(STACK).fallback[0]);
    }
    i := PositionOf(STACK, WEB);
    j := PositionOf(STACK, DB2);
    WebIsSooner();
    PositionIff(STACK, j, i);
  }
}
