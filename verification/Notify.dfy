/** Debounced notifications about container state changes. */
module Notify {
  import opened Prelude
  import opened Model

  datatype Status = Up | Unwell | Down

  function StatusOf(c: Container): Status {
    if c.state == Running then if c.health == Unhealthy then Unwell else Up else Down
  }

  datatype Notification = Notification(kind: string, body: string)

  function NotificationFor(c: Container, to: Status, host: string): Notification {
    var who := match c.stack
      case Some(stack) => "Container '" + c.name + "' (stack " + stack + ") on host '" + host + "'"
      case None => "Container '" + c.name + "' on host '" + host + "'";
    match to
    case Down => Notification("failure", who + " is down — " + c.status)
    case Unwell => Notification("warning", who + " is unhealthy — " + c.status)
    case Up => Notification("success", who + " recovered — " + c.status)
  }

  datatype Pending = Pending(status: Status, since: nat)
  datatype Tracked = Tracked(notified: Status, pending: Option<Pending>)

  // ----- One snapshot -----

  datatype Seen = Seen(tracked: Tracked, fires: bool)

  function Observe(before: Option<Tracked>, cur: Status, ts: nat, delay: nat): Seen {
    match before
    case None => Seen(Tracked(cur, None), false)
    case Some(t) =>
      if cur == t.notified then Seen(t.(pending := None), false)
      else
        var since := if t.pending.Some? && t.pending.value.status == cur then t.pending.value.since else ts;
        if SatSub(ts, since) >= delay then Seen(Tracked(cur, None), true)
        else Seen(t.(pending := Some(Pending(cur, since))), false)
  }

  function Get<V>(m: map<string, V>, id: string): Option<V> {
    if id in m then Some(m[id]) else None
  }

  datatype Evaluation = Evaluation(states: map<string, Tracked>, out: seq<Notification>)

  function Fold(states: map<string, Tracked>, ts: nat, cs: seq<Container>, delay: nat, host: string): Evaluation {
    if cs == [] then Evaluation(states, [])
    else
      var before := Fold(states, ts, cs[..|cs| - 1], delay, host);
      var c := cs[|cs| - 1];
      var seen := Observe(Get(before.states, c.id), StatusOf(c), ts, delay);
      Evaluation(before.states[c.id := seen.tracked],
                 before.out + if seen.fires then [NotificationFor(c, StatusOf(c), host)] else [])
  }

  function Ids(cs: seq<Container>): set<string> {
    set c | c in cs :: c.id
  }

  function Retain(states: map<string, Tracked>, ids: set<string>): map<string, Tracked> {
    map id | id in states && id in ids :: states[id]
  }

  function Evaluated(states: map<string, Tracked>, ts: nat, cs: seq<Container>, delay: nat, host: string): Evaluation {
    var folded := Fold(states, ts, cs, delay, host);
    folded.(states := Retain(folded.states, Ids(cs)))
  }

  class Tracker {
    const host: string
    const delayMs: nat
    var states: map<string, Tracked>

    constructor (host: string, delayMs: nat)
      ensures this.host == host && this.delayMs == delayMs && states == map[]
    {
      this.host := host;
      this.delayMs := delayMs;
      states := map[];
    }

    /** Fold one snapshot in and return the notifications that just became due. */
    method Evaluate(ts: nat, containers: seq<Container>) returns (out: seq<Notification>)
      modifies this
      ensures Evaluation(states, out) == Evaluated(old(states), ts, containers, delayMs, host)
    {
      out := [];
      var seen: set<string> := {};
      for i := 0 to |containers|
        invariant seen == Ids(containers[..i])
        invariant Evaluation(states, out) == Fold(old(states), ts, containers[..i], delayMs, host)
      {
        assert containers[..i + 1][..i] == containers[..i];
        var c := containers[i];
        seen := seen + {c.id};
        assert seen == Ids(containers[..i + 1]);
        var cur := StatusOf(c);
        if c.id !in states {
          states := states[c.id := Tracked(cur, None)];
        } else {
          var t := states[c.id];
          if cur == t.notified {
            states := states[c.id := t.(pending := None)];
            continue;
          }
          var since := ts;
          if t.pending.Some? && t.pending.value.status == cur {
            since := t.pending.value.since;
          } else {
            t := t.(pending := Some(Pending(cur, ts)));
          }
          if SatSub(ts, since) >= delayMs {
            out := out + [NotificationFor(c, cur, host)];
            t := Tracked(cur, None);
          }
          states := states[c.id := t];
        }
      }
      assert containers[..|containers|] == containers;
      states := Retain(states, seen);
    }
  }

  // ----- Whole traces -----

  datatype Snapshot = Snapshot(ts: nat, containers: seq<Container>)

  predicate DistinctIds(cs: seq<Container>) {
    forall i, j | 0 <= i < j < |cs| :: cs[i].id != cs[j].id
  }

  predicate Trace(trace: seq<Snapshot>) {
    forall k | 0 <= k < |trace| :: DistinctIds(trace[k].containers)
  }

  /** The tracker's states after the whole trace, from an empty tracker. */
  function StatesAfter(trace: seq<Snapshot>, delay: nat, host: string): map<string, Tracked> {
    if trace == [] then map[]
    else
      var last := trace[|trace| - 1];
      Evaluated(StatesAfter(trace[..|trace| - 1], delay, host), last.ts, last.containers, delay, host).states
  }

  /** What the tracker sends at snapshot `n`. */
  function SentAt(trace: seq<Snapshot>, n: nat, delay: nat, host: string): seq<Notification>
    requires n < |trace|
  {
    Evaluated(StatesAfter(trace[..n], delay, host), trace[n].ts, trace[n].containers, delay, host).out
  }

  // ----- The same, read off the trace -----

  function StatusIn(cs: seq<Container>, id: string): Option<Status> {
    if cs == [] then None
    else if cs[0].id == id then Some(StatusOf(cs[0]))
    else StatusIn(cs[1..], id)
  }

  /** The status of `id` in snapshot `n`, if it is there. */
  function Look(trace: seq<Snapshot>, id: string, n: nat): Option<Status> {
    if n < |trace| then StatusIn(trace[n].containers, id) else None
  }

  /** Where the unbroken run of `id`'s status at snapshot `n` began. */
  function RunStart(trace: seq<Snapshot>, id: string, n: nat): (start: nat)
    ensures start <= n
  {
    if n > 0 && Look(trace, id, n - 1) == Look(trace, id, n) then RunStart(trace, id, n - 1) else n
  }

  /** What was last notified about `id` before snapshot `n`, or its first-seen status; absence forgets it. */
  function Baseline(trace: seq<Snapshot>, id: string, n: nat, delay: nat): Option<Status>
    requires n <= |trace|
    decreases n, 0
  {
    if n == 0 || Look(trace, id, n - 1).None? then None
    else if Baseline(trace, id, n - 1, delay).None? || Fires(trace, id, n - 1, delay) then Look(trace, id, n - 1)
    else Baseline(trace, id, n - 1, delay)
  }

  /** The closed form of when a notification about `id` is due. */
  predicate Fires(trace: seq<Snapshot>, id: string, n: nat, delay: nat)
    requires n < |trace|
    decreases n, 1
  {
    && Look(trace, id, n).Some?
    && Baseline(trace, id, n, delay).Some?
    && Look(trace, id, n) != Baseline(trace, id, n, delay)
    && SatSub(trace[n].ts, trace[RunStart(trace, id, n)].ts) >= delay
  }

  /** What the tracker should remember about `id` before snapshot `n`. */
  function Remembered(trace: seq<Snapshot>, id: string, n: nat, delay: nat): Option<Tracked>
    requires n <= |trace|
  {
    var baseline := Baseline(trace, id, n, delay);
    if baseline.None? then None
    else if Look(trace, id, n - 1) == baseline then Some(Tracked(baseline.value, None))
    else
      Some(Tracked(baseline.value,
                   Some(Pending(Look(trace, id, n - 1).value, trace[RunStart(trace, id, n - 1)].ts))))
  }

  function Due(trace: seq<Snapshot>, n: nat, cs: seq<Container>, delay: nat, host: string): seq<Notification>
    requires n < |trace|
  {
    if cs == [] then []
    else
      var c := cs[|cs| - 1];
      Due(trace, n, cs[..|cs| - 1], delay, host)
      + if Fires(trace, c.id, n, delay) then [NotificationFor(c, StatusOf(c), host)] else []
  }

  lemma {:induction false} StatusInIs(cs: seq<Container>, i: nat)
    requires DistinctIds(cs) && i < |cs|
    ensures StatusIn(cs, cs[i].id) == Some(StatusOf(cs[i]))
  {
    if i > 0 {
      StatusInIs(cs[1..], i - 1);
    }
  }

  lemma {:induction false} StatusInNone(cs: seq<Container>, id: string)
    ensures StatusIn(cs, id).None? <==> id !in Ids(cs)
  {
    if cs != [] {
      StatusInNone(cs[1..], id);
      assert Ids(cs) == {cs[0].id} + Ids(cs[1..]);
    }
  }

  /** With distinct ids the loop treats each container by itself. */
  lemma {:induction false} FoldAt(
      states: map<string, Tracked>, ts: nat, cs: seq<Container>, delay: nat, host: string, id: string)
    requires DistinctIds(cs)
    ensures var after := Fold(states, ts, cs, delay, host).states;
            Get(after, id) == match StatusIn(cs, id)
              case None => Get(states, id)
              case Some(cur) => Some(Observe(Get(states, id), cur, ts, delay).tracked)
    decreases |cs|
  {
    if cs != [] {
      var n := |cs| - 1;
      FoldAt(states, ts, cs[..n], delay, host, id);
      StatusInNone(cs[..n], id);
      StatusInNone(cs, id);
      StatusInPrefix(cs, id);
      if id == cs[n].id {
        StatusInIs(cs, n);
        assert forall c | c in cs[..n] :: c.id != id;
      }
    }
  }

  lemma {:induction false} StatusInPrefix(cs: seq<Container>, id: string)
    requires cs != []
    ensures id != cs[|cs| - 1].id ==> StatusIn(cs, id) == StatusIn(cs[..|cs| - 1], id)
  {
    if |cs| > 1 {
      StatusInPrefix(cs[1..], id);
      assert cs[1..][..|cs| - 2] == cs[..|cs| - 1][1..];
    }
  }

  /** One step of the tracker keeps the closed form, and fires exactly when the closed form says. */
  lemma ObserveRemembers(trace: seq<Snapshot>, id: string, n: nat, delay: nat)
    requires n < |trace| && Look(trace, id, n).Some?
    ensures var seen := Observe(Remembered(trace, id, n, delay), Look(trace, id, n).value, trace[n].ts, delay);
            && Remembered(trace, id, n + 1, delay) == Some(seen.tracked)
            && seen.fires == Fires(trace, id, n, delay)
  {
    BaselineSeen(trace, id, n, delay);
    var cur := Look(trace, id, n);
    if Baseline(trace, id, n, delay).None? || Fires(trace, id, n, delay) {
      assert Baseline(trace, id, n + 1, delay) == cur;
    } else {
      assert Baseline(trace, id, n + 1, delay) == Baseline(trace, id, n, delay);
      assert RunStart(trace, id, n) == if Look(trace, id, n - 1) == cur then RunStart(trace, id, n - 1) else n;
    }
  }

  lemma {:induction false} BaselineSeen(trace: seq<Snapshot>, id: string, n: nat, delay: nat)
    requires n <= |trace|
    ensures Baseline(trace, id, n, delay).Some? <==> n > 0 && Look(trace, id, n - 1).Some?
  {
  }

  lemma {:induction false} RememberedPrefix(trace: seq<Snapshot>, id: string, n: nat, k: nat, delay: nat)
    requires k <= n <= |trace|
    ensures Baseline(trace[..n], id, k, delay) == Baseline(trace, id, k, delay)
    ensures k < n ==> RunStart(trace[..n], id, k) == RunStart(trace, id, k)
    decreases k
  {
    if k > 0 {
      RememberedPrefix(trace, id, n, k - 1, delay);
    }
  }

  /** Main result, states: before each snapshot the tracker remembers exactly the closed form. */
  lemma {:induction false} StatesAreRemembered(trace: seq<Snapshot>, delay: nat, host: string, id: string)
    requires Trace(trace)
    ensures Get(StatesAfter(trace, delay, host), id) == Remembered(trace, id, |trace|, delay)
    decreases |trace|
  {
    if trace != [] {
      var n := |trace| - 1;
      var before := StatesAfter(trace[..n], delay, host);
      StatesAreRemembered(trace[..n], delay, host, id);
      RememberedPrefix(trace, id, n, n, delay);
      if n > 0 {
        RememberedPrefix(trace, id, n, n - 1, delay);
      }
      assert Get(before, id) == Remembered(trace, id, n, delay);
      FoldAt(before, trace[n].ts, trace[n].containers, delay, host, id);
      StatusInNone(trace[n].containers, id);
      if Look(trace, id, n).Some? {
        ObserveRemembers(trace, id, n, delay);
      }
    }
  }

  lemma {:induction false} FoldSends(
      trace: seq<Snapshot>, n: nat, states: map<string, Tracked>, k: nat, delay: nat, host: string)
    requires n < |trace| && DistinctIds(trace[n].containers) && k <= |trace[n].containers|
    requires forall id :: Get(states, id) == Remembered(trace, id, n, delay)
    ensures Fold(states, trace[n].ts, trace[n].containers[..k], delay, host).out
         == Due(trace, n, trace[n].containers[..k], delay, host)
    decreases k
  {
    if k > 0 {
      var cs := trace[n].containers;
      var c := cs[k - 1];
      FoldSends(trace, n, states, k - 1, delay, host);
      assert cs[..k][..k - 1] == cs[..k - 1];
      FoldAt(states, trace[n].ts, cs[..k - 1], delay, host, c.id);
      StatusInNone(cs[..k - 1], c.id);
      assert forall d | d in cs[..k - 1] :: d.id != c.id;
      StatusInIs(cs, k - 1);
      ObserveRemembers(trace, c.id, n, delay);
    }
  }

  /**
   * Main result: at every snapshot of every trace, the tracker sends exactly the notifications of the
   * containers that are due by the closed form, in listing order.
   */
  lemma {:induction false} SendsWhatIsDue(trace: seq<Snapshot>, n: nat, delay: nat, host: string)
    requires Trace(trace) && n < |trace|
    ensures SentAt(trace, n, delay, host) == Due(trace, n, trace[n].containers, delay, host)
  {
    var states := StatesAfter(trace[..n], delay, host);
    forall id ensures Get(states, id) == Remembered(trace, id, n, delay) {
      StatesAreRemembered(trace[..n], delay, host, id);
      RememberedPrefix(trace, id, n, n, delay);
      if n > 0 {
        RememberedPrefix(trace, id, n, n - 1, delay);
      }
    }
    var cs := trace[n].containers;
    FoldSends(trace, n, states, |cs|, delay, host);
    assert cs[..|cs|] == cs;
  }

  // ----- What is said -----

  predicate StartsWith(text: string, part: string) {
    |part| <= |text| && text[..|part|] == part
  }

  predicate EndsWith(text: string, part: string) {
    |part| <= |text| && text[|text| - |part|..] == part
  }

  ghost predicate Mentions(text: string, part: string) {
    exists i, j :: 0 <= i <= j <= |text| && text[i..j] == part
  }

  /** The kind a container's state calls for: a failure when not running, a warning when running unhealthily. */
  predicate KindFits(kind: string, c: Container) {
    && (kind == "failure" <==> c.state != Running)
    && (kind == "warning" <==> c.state == Running && c.health == Unhealthy)
    && (kind == "success" <==> c.state == Running && c.health != Unhealthy)
  }

  /** The notification names the container, its host and its stack, and reports its status. */
  ghost predicate Describes(body: string, c: Container, host: string) {
    && StartsWith(body, "Container '" + c.name + "'")
    && Mentions(body, " on host '" + host + "'")
    && (c.stack.Some? ==> Mentions(body, " (stack " + c.stack.value + ")"))
    && EndsWith(body, c.status)
  }

  lemma Mentioned(before: string, part: string, after: string)
    ensures Mentions(before + part + after, part)
  {
    var text := before + part + after;
    assert text[|before|..|before| + |part|] == part;
  }

  lemma PartsWithStack(
      a: string, n: string, q: string, b: string, s: string, d: string, o: string, h: string, e: string,
      v: string, t: string)
    ensures var body := a + n + (q + b) + s + (d + o) + h + e + v + t;
            && StartsWith(body, a + n + q) && Mentions(body, b + s + d) && Mentions(body, o + h + e)
            && EndsWith(body, t)
  {
    var body := a + n + (q + b) + s + (d + o) + h + e + v + t;
    assert body == (a + n + q) + (b + s + d + o + h + e + v + t);
    assert body == (a + n + q) + (b + s + d) + (o + h + e + v + t);
    assert body == (a + n + q + b + s + d) + (o + h + e) + (v + t);
    Mentioned(a + n + q, b + s + d, o + h + e + v + t);
    Mentioned(a + n + q + b + s + d, o + h + e, v + t);
  }

  lemma PartsWithout(a: string, n: string, q: string, o: string, h: string, e: string, v: string, t: string)
    ensures var body := a + n + (q + o) + h + e + v + t;
            StartsWith(body, a + n + q) && Mentions(body, o + h + e) && EndsWith(body, t)
  {
    var body := a + n + (q + o) + h + e + v + t;
    assert body == (a + n + q) + (o + h + e + v + t);
    assert body == (a + n + q) + (o + h + e) + (v + t);
    Mentioned(a + n + q, o + h + e, v + t);
  }

  function Verdict(to: Status): string {
    match to
    case Down => " is down — "
    case Unwell => " is unhealthy — "
    case Up => " recovered — "
  }

  lemma NotificationIs(c: Container, host: string)
    ensures KindFits(NotificationFor(c, StatusOf(c), host).kind, c)
    ensures Describes(NotificationFor(c, StatusOf(c), host).body, c, host)
  {
    var verdict := Verdict(StatusOf(c));
    match c.stack {
      case Some(stack) =>
        PartsWithStack("Container '", c.name, "'", " (stack ", stack, ")", " on host '", host, "'", verdict, c.status);
        assert "'" + " (stack " == "' (stack " && ")" + " on host '" == ") on host '";
      case None =>
        PartsWithout("Container '", c.name, "'", " on host '", host, "'", verdict, c.status);
        assert "'" + " on host '" == "' on host '";
    }
  }

  lemma {:induction false} DueFrom(
      trace: seq<Snapshot>, n: nat, cs: seq<Container>, delay: nat, host: string, x: Notification)
      returns (c: Container)
    requires n < |trace| && x in Due(trace, n, cs, delay, host)
    ensures c in cs && Fires(trace, c.id, n, delay) && x == NotificationFor(c, StatusOf(c), host)
  {
    var k := |cs| - 1;
    if x in Due(trace, n, cs[..k], delay, host) {
      c := DueFrom(trace, n, cs[..k], delay, host, x);
    } else {
      c := cs[k];
    }
  }

  /** Every notification sent is about a container of the snapshot that is due, of the kind its state calls for. */
  lemma {:induction false} SentDescribes(trace: seq<Snapshot>, n: nat, delay: nat, host: string, x: Notification)
      returns (c: Container)
    requires Trace(trace) && n < |trace| && x in SentAt(trace, n, delay, host)
    ensures c in trace[n].containers && Fires(trace, c.id, n, delay)
    ensures KindFits(x.kind, c) && Describes(x.body, c, host)
  {
    SendsWhatIsDue(trace, n, delay, host);
    c := DueFrom(trace, n, trace[n].containers, delay, host, x);
    NotificationIs(c, host);
  }

  // ----- How often -----

  predicate Nondecreasing(trace: seq<Snapshot>) {
    forall i, j | 0 <= i <= j < |trace| :: trace[i].ts <= trace[j].ts
  }

  /** `id` is first seen at `f` and stays until before `n`. */
  predicate PresentFrom(trace: seq<Snapshot>, id: string, f: nat, n: nat) {
    && f < n <= |trace|
    && (f == 0 || Look(trace, id, f - 1).None?)
    && forall k | f <= k < n :: Look(trace, id, k).Some?
  }

  function FireCount(trace: seq<Snapshot>, id: string, f: nat, n: nat, delay: nat): nat
    requires n <= |trace|
    decreases n
  {
    if n <= f then 0
    else FireCount(trace, id, f, n - 1, delay) + if Fires(trace, id, n - 1, delay) then 1 else 0
  }

  /** The last notification about `id` before `n`, or its first sighting `f`. */
  function LastFire(trace: seq<Snapshot>, id: string, f: nat, n: nat, delay: nat): (k: nat)
    requires f < n <= |trace|
    ensures f <= k < n
    decreases n
  {
    if n == f + 1 || Fires(trace, id, n - 1, delay) then n - 1 else LastFire(trace, id, f, n - 1, delay)
  }

  /** While a container stays, the baseline is its status at the last notification or first sighting. */
  lemma {:induction false} BaselineIsLastFire(trace: seq<Snapshot>, id: string, f: nat, n: nat, delay: nat)
    requires PresentFrom(trace, id, f, n)
    ensures Baseline(trace, id, n, delay) == Look(trace, id, LastFire(trace, id, f, n, delay))
    ensures !Fires(trace, id, f, delay)
    decreases n
  {
    BaselineSeen(trace, id, f, delay);
    if n > f + 1 {
      BaselineIsLastFire(trace, id, f, n - 1, delay);
    }
  }

  lemma {:induction false} RunIsConstant(trace: seq<Snapshot>, id: string, n: nat, k: nat)
    requires RunStart(trace, id, n) <= k <= n
    ensures Look(trace, id, k) == Look(trace, id, n)
    decreases n
  {
    if k < n {
      RunIsConstant(trace, id, n - 1, k);
    }
  }

  /** A notification reports a status other than the last reported one, at least the delay after it. */
  lemma {:induction false} FiresApart(trace: seq<Snapshot>, id: string, f: nat, n: nat, delay: nat)
    requires PresentFrom(trace, id, f, n + 1) && f < n && Nondecreasing(trace) && Fires(trace, id, n, delay)
    ensures var last := LastFire(trace, id, f, n, delay);
            && Look(trace, id, n) != Look(trace, id, last)
            && trace[n].ts - trace[last].ts >= delay
  {
    var last, start := LastFire(trace, id, f, n, delay), RunStart(trace, id, n);
    BaselineIsLastFire(trace, id, f, n, delay);
    if start <= last {
      RunIsConstant(trace, id, n, last);
    }
    assert last < start <= n && trace[last].ts <= trace[start].ts <= trace[n].ts;
  }

  /** From snapshot `j` to `n` the container has kept its status. */
  ghost predicate KeptSince(trace: seq<Snapshot>, id: string, j: nat, n: nat) {
    forall k | j <= k <= n :: Look(trace, id, k) == Look(trace, id, n)
  }

  lemma {:induction false} RunIsLongest(trace: seq<Snapshot>, id: string, n: nat, j: nat)
    requires j <= n && KeptSince(trace, id, j, n)
    ensures RunStart(trace, id, n) <= j
    decreases n
  {
    if j < n {
      assert Look(trace, id, n - 1) == Look(trace, id, n);
      RunIsLongest(trace, id, n - 1, j);
    }
  }

  /**
   * Main result on when: while a container stays, a notification is due exactly when its status differs from the
   * one at the last notification, or first sighting, and has been kept for at least the delay.
   */
  lemma {:induction false} FiresIff(trace: seq<Snapshot>, id: string, f: nat, n: nat, delay: nat)
    requires PresentFrom(trace, id, f, n + 1) && f < n && Nondecreasing(trace)
    ensures Fires(trace, id, n, delay)
       <==> && Look(trace, id, n) != Look(trace, id, LastFire(trace, id, f, n, delay))
            && exists j :: 0 <= j <= n && KeptSince(trace, id, j, n) && trace[n].ts - trace[j].ts >= delay
  {
    BaselineIsLastFire(trace, id, f, n, delay);
    BaselineSeen(trace, id, n, delay);
    if Fires(trace, id, n, delay) {
      var start := RunStart(trace, id, n);
      forall k | start <= k <= n ensures Look(trace, id, k) == Look(trace, id, n) {
        RunIsConstant(trace, id, n, k);
      }
      assert KeptSince(trace, id, start, n);
    }
    if j :| 0 <= j <= n && KeptSince(trace, id, j, n) && trace[n].ts - trace[j].ts >= delay {
      RunIsLongest(trace, id, n, j);
      assert trace[RunStart(trace, id, n)].ts <= trace[j].ts;
    }
  }

  lemma OneMore(count: nat, delay: nat)
    ensures (count + 1) * delay == count * delay + delay
  {
  }

  lemma {:induction false} FireSpan(trace: seq<Snapshot>, id: string, f: nat, n: nat, delay: nat)
    requires PresentFrom(trace, id, f, n) && Nondecreasing(trace)
    ensures FireCount(trace, id, f, n, delay) * delay
         <= trace[LastFire(trace, id, f, n, delay)].ts - trace[f].ts
    decreases n
  {
    BaselineIsLastFire(trace, id, f, n, delay);
    if n > f + 1 {
      FireSpan(trace, id, f, n - 1, delay);
      if Fires(trace, id, n - 1, delay) {
        FiresApart(trace, id, f, n - 1, delay);
        OneMore(FireCount(trace, id, f, n - 1, delay), delay);
      }
    } else {
      assert FireCount(trace, id, f, f, delay) == 0;
    }
  }

  /** Main result: over a span of T since its first sighting a container is notified about at most T / delay times. */
  lemma {:induction false} FireRate(trace: seq<Snapshot>, id: string, f: nat, n: nat, delay: nat)
    requires PresentFrom(trace, id, f, n) && Nondecreasing(trace) && delay > 0
    ensures FireCount(trace, id, f, n, delay) <= (trace[n - 1].ts - trace[f].ts) / delay
  {
    FireSpan(trace, id, f, n, delay);
    FitsDiv(FireCount(trace, id, f, n, delay), trace[n - 1].ts - trace[f].ts, delay);
  }
}
