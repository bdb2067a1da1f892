/** What the start order means for the dependency graph: cycles, depths and safety. */
module TopoGraph {
  import opened Prelude
  import opened Topo

  // ----- The in-stack dependency graph over services -----

  ghost predicate Edge(stack: set<Member>, s: string, t: string) {
    exists m :: m in stack && m.service == s && t in Wants(m, Services(stack))
  }

  /** A dependency path, given by the services it visits. */
  ghost predicate Walk(stack: set<Member>, p: seq<string>) {
    && p != []
    && p[0] in Services(stack)
    && forall i | 0 <= i < |p| - 1 :: Edge(stack, p[i], p[i + 1])
  }

  ghost predicate WalkFrom(stack: set<Member>, s: string, p: seq<string>) {
    Walk(stack, p) && p[0] == s
  }

  ghost predicate Repeats(p: seq<string>) {
    exists i, j :: 0 <= i < j < |p| && p[i] == p[j]
  }

  ghost predicate ReachesCycle(stack: set<Member>, s: string) {
    exists p :: WalkFrom(stack, s, p) && Repeats(p)
  }

  ghost predicate HasCycle(stack: set<Member>) {
    exists s :: ReachesCycle(stack, s)
  }

  /** Some dependency path from `s` has `k` edges. */
  ghost predicate HasPath(stack: set<Member>, s: string, k: nat) {
    exists p :: WalkFrom(stack, s, p) && |p| == k + 1
  }

  /** The longest dependency path from `s` has exactly `k` edges. */
  ghost predicate LongestPath(stack: set<Member>, s: string, k: nat) {
    HasPath(stack, s, k) && !HasPath(stack, s, k + 1)
  }

  /** Replicas of one service want the same in-stack services; unique service names are a special case. */
  ghost predicate Uniform(stack: set<Member>) {
    forall m, n :: m in stack && n in stack && m.service == n.service
                   ==> Wants(m, Services(stack)) == Wants(n, Services(stack))
  }

  lemma UniqueNamesAreUniform(stack: set<Member>)
    requires forall m, n :: m in stack && n in stack && m.service == n.service ==> m == n
    ensures Uniform(stack)
  {
  }

  // ----- Readiness is the absence of long paths -----

  lemma ReadyIsWantsPlaced(m: Member, inStack: set<string>, placed: set<string>)
    ensures Ready(m, inStack, placed) <==> Wants(m, inStack) <= placed
  {
    if Ready(m, inStack, placed) {
      forall t | t in Wants(m, inStack) ensures t in placed {
      }
    } else {
      var d :| d in m.deps && !(d.service !in inStack || d.service in placed);
      assert d.service in Wants(m, inStack);
    }
  }

  lemma PathStep(stack: set<Member>, m: Member, t: string, k: nat)
    requires m in stack && t in Wants(m, Services(stack)) && HasPath(stack, t, k)
    ensures HasPath(stack, m.service, k + 1)
  {
    var p :| WalkFrom(stack, t, p) && |p| == k + 1;
    var q := [m.service] + p;
    assert Edge(stack, m.service, t);
    forall i | 0 <= i < |q| - 1 ensures Edge(stack, q[i], q[i + 1]) {
      if i > 0 {
        assert q[i] == p[i - 1] && q[i + 1] == p[i];
      }
    }
    assert WalkFrom(stack, m.service, q);
  }

  lemma TrivialPath(stack: set<Member>, s: string)
    requires s in Services(stack)
    ensures HasPath(stack, s, 0)
  {
    assert WalkFrom(stack, s, [s]);
  }

  /** A path can be shortened by its first edge, to start at a service its first one depends on. */
  lemma PathTail(stack: set<Member>, s: string, p: seq<string>)
    requires WalkFrom(stack, s, p) && |p| >= 2
    ensures Edge(stack, s, p[1]) && WalkFrom(stack, p[1], p[1..])
  {
    assert Edge(stack, p[0], p[0 + 1]);
    var q := p[1..];
    forall i | 0 <= i < |q| - 1 ensures Edge(stack, q[i], q[i + 1]) {
      assert Edge(stack, p[i + 1], p[i + 1 + 1]);
    }
  }

  /** A member not ready within `r + 1` rounds heads a path of `r + 1` edges; replicas may differ. */
  lemma {:induction false} NotDoneHasPath(stack: set<Member>, m: Member, r: nat)
    requires m in stack && m !in Done(stack, r)
    ensures HasPath(stack, m.service, r)
    decreases r
  {
    if r == 0 {
      TrivialPath(stack, m.service);
    } else {
      var t := MissingDep(stack, m, r);
      var n :| n in stack && n.service == t;
      assert n !in Done(stack, r - 1);
      NotDoneHasPath(stack, n, r - 1);
      PathStep(stack, m, t, r - 1);
    }
  }

  lemma MissingDep(stack: set<Member>, m: Member, r: nat) returns (t: string)
    requires r > 0 && m in stack && m !in Done(stack, r)
    ensures t in Wants(m, Services(stack)) && t in Services(stack) && t !in Placed(stack, r - 1)
  {
    ReadyIsWantsPlaced(m, Services(stack), Placed(stack, r - 1));
    t :| t in Wants(m, Services(stack)) && t !in Placed(stack, r - 1);
  }

  /** Where replicas agree, a member ready within `r` rounds heads no path of `r` edges. */
  lemma {:induction false} DoneHasNoPath(stack: set<Member>, m: Member, r: nat)
    requires Uniform(stack) && m in Done(stack, r)
    ensures !HasPath(stack, m.service, r)
    decreases r
  {
    if HasPath(stack, m.service, r) {
      var p :| WalkFrom(stack, m.service, p) && |p| == r + 1;
      PathTail(stack, m.service, p);
      var n := EarlierDep(stack, m, p[1], r);
      assert |p[1..]| == r;
      DoneHasNoPath(stack, n, r - 1);
    }
  }

  lemma EarlierDep(stack: set<Member>, m: Member, t: string, r: nat) returns (n: Member)
    requires Uniform(stack) && m in Done(stack, r) && Edge(stack, m.service, t)
    ensures r > 0 && n in Done(stack, r - 1) && n.service == t
  {
    var m' :| m' in stack && m'.service == m.service && t in Wants(m', Services(stack));
    n := ReplicaBefore(stack, m, t, r);
  }

  // ----- Cycles -----

  lemma {:induction false} WalkInStack(stack: set<Member>, p: seq<string>, i: nat)
    requires Walk(stack, p) && i < |p|
    ensures p[i] in Services(stack)
  {
    if i > 0 {
      assert Edge(stack, p[i - 1], p[i - 1 + 1]);
    }
  }

  /** A path with more edges than the stack has members runs into a cycle. */
  lemma LongPathRepeats(stack: set<Member>, s: string, k: nat)
    requires HasPath(stack, s, k) && k >= |Services(stack)|
    ensures ReachesCycle(stack, s)
  {
    var p :| WalkFrom(stack, s, p) && |p| == k + 1;
    forall x | x in p ensures x in Services(stack) {
      var i :| 0 <= i < |p| && p[i] == x;
      WalkInStack(stack, p, i);
    }
    Pigeonhole(p, Services(stack));
  }

  /** A walk that repeats a service hands the repetition on to its second service. */
  lemma PassOnCycle(stack: set<Member>, s: string, p: seq<string>) returns (q: seq<string>)
    requires WalkFrom(stack, s, p) && Repeats(p)
    ensures |p| >= 2 && WalkFrom(stack, p[1], q) && Repeats(q)
  {
    var i, j :| 0 <= i < j < |p| && p[i] == p[j];
    PathTail(stack, s, p);
    if i > 0 {
      q := p[1..];
      assert q[i - 1] == q[j - 1];
    } else {
      q := p[1..j + 1] + [p[1]];
      forall k | 0 <= k < |q| - 1 ensures Edge(stack, q[k], q[k + 1]) {
        if k < j - 1 {
          assert q[k] == p[k + 1] && q[k + 1] == p[k + 1 + 1] && Edge(stack, p[k + 1], p[k + 1 + 1]);
        } else {
          assert q[k] == p[j] == p[0] && Edge(stack, p[0], p[0 + 1]);
        }
      }
      assert q[0] == p[1] && q[|q| - 1] == p[1] && q[0] == q[|q| - 1];
    }
  }

  lemma {:induction false} CycleNeverDone(stack: set<Member>, m: Member, r: nat)
    requires Uniform(stack) && m in stack && ReachesCycle(stack, m.service)
    ensures m !in Done(stack, r)
    decreases r
  {
    if m in Done(stack, r) {
      var p :| WalkFrom(stack, m.service, p) && Repeats(p);
      var q := PassOnCycle(stack, m.service, p);
      PathTail(stack, m.service, p);
      var n := EarlierDep(stack, m, p[1], r);
      CycleNeverDone(stack, n, r - 1);
    }
  }

  // ----- The order is a stable sort by longest dependency path, cycles last -----

  ghost function AtDepth(stack: set<Member>, k: nat): set<Member> {
    set m | m in stack && LongestPath(stack, m.service, k)
  }

  ghost function OnCycle(stack: set<Member>): set<Member> {
    set m | m in stack && ReachesCycle(stack, m.service)
  }

  /** The members of depth `k`, `k + 1`, ..., `n - 1`, each depth in listing order. */
  ghost function ByDepth(members: seq<Member>, k: nat, n: nat): seq<Member>
    decreases n - k
  {
    if k >= n then [] else Keep(members, AtDepth(Elements(members), k)) + ByDepth(members, k + 1, n)
  }

  lemma {:induction false} DoneIffNoPath(stack: set<Member>, m: Member, r: nat)
    requires Uniform(stack) && m in stack
    ensures m in Done(stack, r) <==> !HasPath(stack, m.service, r)
  {
    if m in Done(stack, r) {
      DoneHasNoPath(stack, m, r);
    } else {
      NotDoneHasPath(stack, m, r);
    }
  }

  lemma {:induction false} LayerIsDepth(members: seq<Member>, r: nat)
    requires Uniform(Elements(members))
    ensures Layer(members, r) == Keep(members, AtDepth(Elements(members), r))
  {
    var stack := Elements(members);
    forall m | m in members ensures m in Done(stack, r + 1) - Done(stack, r) <==> m in AtDepth(stack, r) {
      DoneIffNoPath(stack, m, r);
      DoneIffNoPath(stack, m, r + 1);
    }
    KeepSame(members, Done(stack, r + 1) - Done(stack, r), AtDepth(stack, r));
  }

  lemma {:induction false} LayersAreDepths(members: seq<Member>, r: nat, n: nat)
    requires Uniform(Elements(members))
    ensures Layers(members, r, n) == ByDepth(members, r, n)
    decreases n - r
  {
    if r < n {
      LayerIsDepth(members, r);
      LayersAreDepths(members, r + 1, n);
    }
  }

  lemma {:induction false} ServicesBounded(members: seq<Member>)
    ensures |Services(Elements(members))| <= |members|
  {
    if members != [] {
      ServicesBounded(members[1..]);
      assert Elements(members) == {members[0]} + Elements(members[1..]);
      assert Services(Elements(members)) == {members[0].service} + Services(Elements(members[1..]));
    }
  }

  /** Whatever the replicas look like, a member left to the fallback depends, in the end, on a cycle. */
  lemma FallbackReachesCycle(members: seq<Member>, m: Member)
    requires m in PlanOf(members).fallback
    ensures ReachesCycle(Elements(members), m.service)
  {
    var stack, n := Elements(members), |members|;
    PlanIsLayers(members, |members|);
    KeepMembers(members, stack - Done(stack, n));
    NotDoneHasPath(stack, m, n);
    ServicesBounded(members);
    LongPathRepeats(stack, m.service, n);
  }

  /** Main result: depths ascending, listing order within a depth, then what cannot be ordered. */
  lemma {:induction false} OrderIsDepthSort(members: seq<Member>)
    requires Uniform(Elements(members))
    ensures PlanOf(members).ordered == ByDepth(members, 0, |members|)
    ensures PlanOf(members).fallback == Keep(members, OnCycle(Elements(members)))
  {
    var stack, n := Elements(members), |members|;
    PlanIsLayers(members, |members|);
    LayersAreDepths(members, 0, n);
    var stuck := stack - Done(stack, n);
    KeepMembers(members, stuck);
    forall m | m in members ensures m in stuck <==> m in OnCycle(stack) {
      if m in stuck {
        assert m in PlanOf(members).fallback;
        FallbackReachesCycle(members, m);
      } else if m in OnCycle(stack) {
        CycleNeverDone(stack, m, n);
      }
    }
    KeepSame(members, stuck, OnCycle(stack));
  }

  lemma FallbackIffCycle(members: seq<Member>)
    requires Uniform(Elements(members))
    ensures PlanOf(members).fallback != [] <==> HasCycle(Elements(members))
  {
    var stack := Elements(members);
    OrderIsDepthSort(members);
    KeepMembers(members, OnCycle(stack));
    var fallback := PlanOf(members).fallback;
    if fallback != [] {
      assert fallback[0] in fallback;
    }
    if HasCycle(stack) {
      var s :| ReachesCycle(stack, s);
      var m :| m in stack && m.service == s;
      assert m in fallback;
    }
  }

  // ----- All inputs: the fallback is the largest deadlock -----

  /** `m` wants service `t`, all of whose replicas are in `x`. */
  ghost predicate BlockedOn(stack: set<Member>, x: set<Member>, m: Member, t: string) {
    t in Wants(m, Services(stack)) && forall n | n in stack && n.service == t :: n in x
  }

  ghost predicate Blocked(stack: set<Member>, x: set<Member>, m: Member) {
    exists t :: BlockedOn(stack, x, m, t)
  }

  /** Every member of `x` waits for a service all of whose replicas are in `x`. */
  ghost predicate Deadlock(stack: set<Member>, x: set<Member>) {
    x <= stack && forall m {:trigger Blocked(stack, x, m)} | m in x :: Blocked(stack, x, m)
  }

  lemma ReplicaBefore(stack: set<Member>, m: Member, t: string, r: nat) returns (n: Member)
    requires m in Done(stack, r) && t in Wants(m, Services(stack))
    ensures r > 0 && n in Done(stack, r - 1) && n in stack && n.service == t
  {
    ReadyIsWantsPlaced(m, Services(stack), Placed(stack, r - 1));
    n :| n in Done(stack, r - 1) && n.service == t;
  }

  lemma DeadlockStep(stack: set<Member>, x: set<Member>, done: set<Member>)
    requires Deadlock(stack, x) && done <= stack - x
    ensures ReadySet(stack, Services(done)) <= stack - x
  {
    forall m | m in x ensures m !in ReadySet(stack, Services(done)) {
      assert Blocked(stack, x, m);
      var t :| BlockedOn(stack, x, m, t);
      ReadyIsWantsPlaced(m, Services(stack), Services(done));
    }
  }

  lemma {:induction false} DeadlockNeverDone(stack: set<Member>, x: set<Member>, r: nat)
    requires Deadlock(stack, x)
    ensures Done(stack, r) <= stack - x
  {
    if r == 0 {
    } else {
      var before := Done(stack, r - 1);
      assert Done(stack, r) == ReadySet(stack, Services(before));
      assert before <= stack - x by {
        DeadlockNeverDone(stack, x, r - 1);
      }
      DeadlockStep(stack, x, before);
    }
  }

  lemma FallbackIsLargestDeadlock(members: seq<Member>, x: set<Member>)
    ensures Deadlock(Elements(members), Elements(PlanOf(members).fallback))
    ensures Deadlock(Elements(members), x) ==> x <= Elements(PlanOf(members).fallback)
  {
    var stack, n := Elements(members), |members|;
    PlanIsLayers(members, |members|);
    KeepMembers(members, stack - Done(stack, n));
    var stuck := Elements(PlanOf(members).fallback);
    assert stuck == stack - Done(stack, n);
    StableAtEnd(members);
    forall m | m in stuck
      ensures Blocked(stack, stuck, m)
    {
      var t := MissingDep(stack, m, n + 1);
      assert BlockedOn(stack, stuck, m, t);
    }
    if Deadlock(stack, x) {
      DeadlockNeverDone(stack, x, n);
    }
  }

  /** `|members|` rounds are enough: one more finds nothing new. */
  lemma {:induction false} StableAtEnd(members: seq<Member>)
    ensures Done(Elements(members), |members| + 1) == Done(Elements(members), |members|)
  {
    var stack, n := Elements(members), |members|;
    DoneGrows(stack, n, n + 1);
    PlanIsLayers(members, n);
    PlanIsLayers(members, n + 1);
    KeepMembers(members, stack - Done(stack, n));
    KeepMembers(members, stack - Done(stack, n + 1));
    forall m | m in Done(stack, n + 1) ensures m in Done(stack, n) {
      assert m !in Waiting(members, n + 1);
    }
  }

  // ----- What a start pass may rely on -----

  /** Round `q` is where position `i` of the layers `ls` belongs: it splits what is done before from the rest. */
  ghost predicate RoundOf(stack: set<Member>, ls: seq<Member>, r: nat, i: nat, q: nat)
    requires i < |ls|
  {
    && r <= q
    && ls[i] in Done(stack, q + 1)
    && (forall m | m in Done(stack, q) && m !in Done(stack, r) :: m in ls[..i])
    && (forall j | i <= j < |ls| :: ls[j] !in Done(stack, q))
  }

  lemma {:induction false} LayerOf(members: seq<Member>, r: nat, n: nat, i: nat) returns (q: nat)
    requires i < |Layers(members, r, n)|
    ensures q < n && RoundOf(Elements(members), Layers(members, r, n), r, i, q)
    decreases n - r
  {
    var stack := Elements(members);
    var first, rest := Layer(members, r), Layers(members, r + 1, n);
    RoundPlaces(members, r);
    if i < |first| {
      q := r;
      assert (first + rest)[i] in Elements(first);
      LayersAfter(members, r, n);
      assert forall j | i <= j < |first + rest| :: (first + rest)[j] in Layers(members, r, n);
    } else {
      q := LayerOf(members, r + 1, n, i - |first|);
      LaterRound(stack, first, rest, r, i, q);
    }
  }

  lemma LaterRound(stack: set<Member>, first: seq<Member>, rest: seq<Member>, r: nat, i: nat, q: nat)
    requires |first| <= i < |first| + |rest|
    requires Elements(first) == Done(stack, r + 1) - Done(stack, r)
    requires RoundOf(stack, rest, r + 1, i - |first|, q)
    ensures RoundOf(stack, first + rest, r, i, q)
  {
    var ls := first + rest;
    PrefixOfConcat(first, rest, i);
    forall m | m in Done(stack, q) && m !in Done(stack, r) ensures m in ls[..i] {
      if m in Done(stack, r + 1) {
        assert m in Elements(first);
      }
    }
    forall j | i <= j < |ls| ensures ls[j] !in Done(stack, q) {
      assert ls[j] == rest[j - |first|];
    }
  }

  lemma PrefixOfConcat<T>(a: seq<T>, b: seq<T>, i: nat)
    requires |a| <= i <= |a| + |b|
    ensures forall x | x in a || x in b[..i - |a|] :: x in (a + b)[..i]
  {
    assert (a + b)[..i] == a + b[..i - |a|];
  }

  lemma {:induction false} LayersAfter(members: seq<Member>, r: nat, n: nat)
    ensures forall m | m in Layers(members, r, n) :: m in members && m !in Done(Elements(members), r)
    decreases n - r
  {
    if r < n {
      LayersAfter(members, r + 1, n);
      RoundPlaces(members, r);
      DoneGrows(Elements(members), r, r + 1);
      assert forall m | m in Layer(members, r) :: m in Elements(Layer(members, r));
    }
  }

  /** All inputs: an ordered member comes after some replica of each in-stack service it wants. */
  lemma SomeReplicaFirst(members: seq<Member>, i: nat, t: string) returns (j: nat)
    requires i < |PlanOf(members).ordered|
    requires t in Wants(PlanOf(members).ordered[i], Services(Elements(members)))
    ensures j < i && Order(members)[j].service == t
  {
    var stack, n := Elements(members), |members|;
    PlanIsLayers(members, |members|);
    var ls := Layers(members, 0, n);
    var q := LayerOf(members, 0, n, i);
    ReadyIsWantsPlaced(ls[i], Services(stack), Placed(stack, q));
    var m :| m in Done(stack, q) && m.service == t;
    assert m in ls[..i];
    j :| 0 <= j < i && ls[j] == m;
  }

  /** Where replicas agree, it comes after every replica of each. */
  lemma EveryReplicaFirst(members: seq<Member>, i: nat, j: nat)
    requires Uniform(Elements(members))
    requires i < |PlanOf(members).ordered| && j < |Order(members)|
    requires Order(members)[j].service in Wants(PlanOf(members).ordered[i], Services(Elements(members)))
    ensures j < i
  {
    var stack, n := Elements(members), |members|;
    PlanIsLayers(members, |members|);
    var ls := Layers(members, 0, n);
    var q := LayerOf(members, 0, n, i);
    ReadyIsWantsPlaced(ls[i], Services(stack), Placed(stack, q));
    var t := Order(members)[j].service;
    var m :| m in Done(stack, q) && m.service == t;
    OrderMembers(members, j);
    if j >= |ls| {
      LaterNotDone(members, q, j);
    }
    assert j >= i ==> Order(members)[j] !in Done(stack, q);
    DoneIffNoPath(stack, m, q);
    DoneIffNoPath(stack, Order(members)[j], q);
  }

  lemma {:induction false} LaterNotDone(members: seq<Member>, q: nat, j: nat)
    requires q <= |members| && |PlanOf(members).ordered| <= j < |Order(members)|
    ensures Order(members)[j] !in Done(Elements(members), q)
  {
    var stack, n := Elements(members), |members|;
    PlanIsLayers(members, n);
    DoneGrows(stack, q, n);
    KeepMembers(members, stack - Done(stack, n));
    assert Order(members)[j] in PlanOf(members).fallback;
  }

  lemma OrderMembers(members: seq<Member>, j: nat)
    requires j < |Order(members)|
    ensures Order(members)[j] in members
  {
    OrderIsPermutation(members);
    assert Order(members)[j] in multiset(Order(members));
  }

  // ----- What "longest" means -----

  lemma {:induction false} PathsShorten(stack: set<Member>, s: string, k: nat, j: nat)
    requires HasPath(stack, s, k) && j <= k
    ensures HasPath(stack, s, j)
  {
    var p :| WalkFrom(stack, s, p) && |p| == k + 1;
    var q := p[..j + 1];
    forall i | 0 <= i < |q| - 1 ensures Edge(stack, q[i], q[i + 1]) {
      assert Edge(stack, p[i], p[i + 1]);
    }
    assert WalkFrom(stack, s, q);
  }

  /** Every service either has a longest dependency path, shorter than the stack, or reaches a cycle. */
  lemma LongestOrCycle(members: seq<Member>, m: Member)
    requires m in members
    ensures var stack, s := Elements(members), m.service;
            || ReachesCycle(stack, s)
            || exists k :: 0 <= k < |members| && LongestPath(stack, s, k) && forall j :: j > k ==> !HasPath(stack, s, j)
  {
    var stack, s := Elements(members), m.service;
    ServicesBounded(members);
    TrivialPath(stack, s);
    var k: nat := 0;
    while HasPath(stack, s, k + 1) && k < |members|
      invariant HasPath(stack, s, k) && k <= |members|
      decreases |members| - k
    {
      k := k + 1;
    }
    if k == |members| {
      LongPathRepeats(stack, s, k);
    } else {
      forall j | j > k ensures !HasPath(stack, s, j) {
        if HasPath(stack, s, j) {
          PathsShorten(stack, s, j, k + 1);
        }
      }
      assert LongestPath(stack, s, k);
    }
  }
}
