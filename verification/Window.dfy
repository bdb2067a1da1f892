/** Resolving a history request into a window, and how many points it may return. */
module Window {
  import opened Prelude
  import opened TrendTable
  import opened History

  const TARGET_POINTS: nat := 1440
  const HOUR_MS: nat := 3_600_000

  datatype HistoryQuery = HistoryQuery(range: Option<string>, since: Option<nat>, until: Option<nat>)

  datatype HistoryWindow = HistoryWindow(since: nat, until: nat, group: nat, raw: bool)

  function RangeMs(range: string): Option<nat> {
    if range == "1h" then Some(HOUR_MS)
    else if range == "6h" then Some(6 * HOUR_MS)
    else if range == "24h" then Some(24 * HOUR_MS)
    else if range == "7d" then Some(7 * 24 * HOUR_MS)
    else if range == "30d" then Some(30 * 24 * HOUR_MS)
    else None
  }

  function DivCeil(a: nat, b: nat): nat
    requires b > 0
  {
    if a % b == 0 then a / b else a / b + 1
  }

  /** Whole trend buckets of a minute. */
  function GroupForWindow(window: nat): nat {
    AtLeastOne(DivCeil(window / TARGET_POINTS, 60_000)) * 60_000
  }

  function RawGroupForWindow(window: nat): nat {
    AtLeastOne(window / TARGET_POINTS)
  }

  function ResolveHistory(q: HistoryQuery, now: nat, seedWindow: nat): Option<HistoryWindow> {
    var bounds: Option<(nat, nat)> :=
      if q.range.Some? && q.since.None? && q.until.None? then
        match RangeMs(q.range.value)
        case None => None
        case Some(ms) => Some((SatSub(now, ms), now))
      else if q.range.None? && q.since.Some? && q.until.Some? && q.since.value < q.until.value then
        Some((q.since.value, q.until.value))
      else None;
    match bounds
    case None => None
    case Some((since, until)) =>
      Some(HistoryWindow(since, until, GroupForWindow(until - since), since >= SatSub(now, seedWindow)))
  }

  ghost function RawAnswer(samples: seq<Sample>, host: string, id: string, since: nat, until: nat): seq<Point>
    requires since <= until
  {
    HistoryRaw(samples, host, id, since, until, RawGroupForWindow(until - since))
  }

  /** The points answered for a container; `name` is what the id resolved to, if anything. */
  ghost function Answer(
      w: HistoryWindow, samples: seq<Sample>, table: Table, host: string, id: string, name: Option<string>): seq<Point>
    requires w.since <= w.until
  {
    if w.raw then RawAnswer(samples, host, id, w.since, w.until)
    else match name
      case None => []
      case Some(n) => HistoryContainer(table, host, n, w.since, w.until, w.group)
  }

  // ----- Counting groups -----

  /** How many groups of width `g` a closed interval can touch. */
  function GroupsTouched(since: nat, until: nat, g: nat): int
    requires g > 0
  {
    until / g - since / g + 1
  }

  lemma {:induction false} QuotientsGrow(ps: seq<Point>, g: nat, since: nat, i: nat)
    requires g > 0 && i < |Downsample(ps, g)| && forall p | p in ps :: since <= p.ts
    ensures Downsample(ps, g)[i].ts / g >= since / g + i
  {
    var out := Downsample(ps, g);
    GroupsAscend(ps, g);
    if i == 0 {
      var p := InputOf(ps, g, 0);
      DivMonotone(since, p.ts, g);
      StartBelow(p.ts, g);
    } else {
      QuotientsGrow(ps, g, since, i - 1);
      if out[i].ts / g <= out[i - 1].ts / g {
        MulMonotone(out[i].ts / g, out[i - 1].ts / g, g);
      }
    }
  }

  /** A downsampled window has no more points than groups its interval touches. */
  lemma PointsBounded(ps: seq<Point>, g: nat, since: nat, until: nat)
    requires g > 0 && since <= until && forall p | p in ps :: InWindow(p.ts, since, until)
    ensures |Downsample(ps, g)| <= GroupsTouched(since, until, g)
  {
    DivMonotone(since, until, g);
    var n := |Downsample(ps, g)|;
    if n > 0 {
      QuotientsGrow(ps, g, since, n - 1);
      var p := InputOf(ps, g, n - 1);
      DivMonotone(p.ts, until, g);
      StartBelow(p.ts, g);
    }
  }

  lemma QuotientSum(a: nat, b: nat, g: nat)
    requires g > 0
    ensures (a + b) / g <= a / g + b / g + 1
  {
    DivBounds(a, g);
    DivBounds(b, g);
    DivBounds(a + b, g);
    var q, r := (a + b) / g, a / g + b / g + 1;
    assert (a / g + 1) * g + (b / g + 1) * g == (r + 1) * g;
    if q > r {
      MulMonotone(r + 1, q, g);
    }
  }

  lemma TouchedBounded(since: nat, until: nat, g: nat, k: nat)
    requires g > 0 && since <= until && until - since < (k + 1) * g
    ensures GroupsTouched(since, until, g) <= k + 2
  {
    var w := until - since;
    QuotientSum(since, w, g);
    DivBounds(w, g);
    if w / g > k {
      MulMonotone(k + 1, w / g, g);
    }
  }

  lemma DivCeilCovers(a: nat, b: nat)
    requires b > 0
    ensures AtLeastOne(DivCeil(a, b)) * b >= a
  {
    DivBounds(a, b);
    if a % b == 0 {
      assert a == a / b * b;
    }
    MulMonotone(DivCeil(a, b), AtLeastOne(DivCeil(a, b)), b);
  }

  /** The trend grouping touches at most 1442 groups, for every window and alignment. */
  lemma TrendGroupsBounded(since: nat, until: nat)
    requires since <= until
    ensures GroupForWindow(until - since) > 0
    ensures GroupsTouched(since, until, GroupForWindow(until - since)) <= 1442
  {
    var w := until - since;
    var q, g := w / TARGET_POINTS, GroupForWindow(w);
    DivCeilCovers(q, 60_000);
    MulMonotone(1, AtLeastOne(DivCeil(q, 60_000)), 60_000);
    assert g >= q && g >= 60_000;
    assert w < 1440 * q + 1440 <= 1441 * g;
    TouchedBounded(since, until, g, 1440);
  }

  /** The raw grouping touches at most 2880 groups, and at most 1442 for windows of at least 1440 * 1440 ms. */
  lemma RawGroupsBounded(since: nat, until: nat)
    requires since <= until
    ensures GroupsTouched(since, until, RawGroupForWindow(until - since)) <= 2880
    ensures until - since >= 1440 * 1440 ==>
              GroupsTouched(since, until, RawGroupForWindow(until - since)) <= 1442
  {
    var w := until - since;
    var q, g := w / TARGET_POINTS, RawGroupForWindow(w);
    assert 1440 * q <= w < 1440 * q + 1440;
    if q >= 1440 {
      assert w < 1441 * g;
      TouchedBounded(since, until, g, 1440);
    } else if q >= 2 {
      assert w < 2160 * g;
      TouchedBounded(since, until, g, 2159);
    } else {
      assert g == 1;
    }
  }

  lemma ContainerPointsInWindow(table: Table, host: string, name: string, since: nat, until: nat)
    ensures forall p | p in ContainerPoints(table, host, name, since, until) :: InWindow(p.ts, since, until)
  {
    var ps := ContainerPoints(table, host, name, since, until);
    SortedIs(ContainerStarts(table, host, name, since, until));
    forall i | 0 <= i < |ps| ensures InWindow(ps[i].ts, since, until) {
      assert ps[i].ts in ContainerStarts(table, host, name, since, until);
    }
  }

  lemma StackPointsInWindow(table: Table, host: string, stack: string, since: nat, until: nat)
    ensures forall p | p in StackPoints(table, host, stack, since, until) :: InWindow(p.ts, since, until)
  {
    var ps := StackPoints(table, host, stack, since, until);
    SortedIs(StackStarts(table, host, stack, since, until));
    forall i | 0 <= i < |ps| ensures InWindow(ps[i].ts, since, until) {
      assert ps[i].ts in StackStarts(table, host, stack, since, until);
    }
  }

  lemma {:induction false} RawPointsInWindow(samples: seq<Sample>, host: string, id: string, since: nat, until: nat)
    ensures forall p | p in RawPoints(samples, host, id, since, until) :: InWindow(p.ts, since, until)
  {
    if samples != [] {
      RawPointsInWindow(samples[..|samples| - 1], host, id, since, until);
    }
  }

  /** The named ranges and their lengths in milliseconds. */
  ghost predicate NamedRange(range: string, ms: nat) {
    || (range == "1h" && ms == 3_600_000)
    || (range == "6h" && ms == 21_600_000)
    || (range == "24h" && ms == 86_400_000)
    || (range == "7d" && ms == 604_800_000)
    || (range == "30d" && ms == 2_592_000_000)
  }

  /** A request is a named range alone, or two bounds alone that are in order. */
  ghost predicate Plausible(q: HistoryQuery) {
    || (q.since.None? && q.until.None? && q.range.Some? && exists ms :: NamedRange(q.range.value, ms))
    || (q.range.None? && q.since.Some? && q.until.Some? && q.since.value < q.until.value)
  }

  /** Exactly the plausible requests are accepted. */
  lemma ResolvesIff(q: HistoryQuery, now: nat, seedWindow: nat)
    ensures ResolveHistory(q, now, seedWindow).Some? <==> Plausible(q)
  {
    if q.range.Some? && RangeMs(q.range.value).Some? {
      assert NamedRange(q.range.value, RangeMs(q.range.value).value);
    }
  }

  /**
   * A resolved window is the one asked for: given bounds as they are, a named range back from now, as far as time
   * goes. It is raw within the seed window.
   */
  lemma ResolvedWindow(q: HistoryQuery, now: nat, seedWindow: nat)
    requires ResolveHistory(q, now, seedWindow).Some?
    ensures var w := ResolveHistory(q, now, seedWindow).value;
            && w.since <= w.until && w.group == GroupForWindow(w.until - w.since)
            && (w.raw <==> w.since + seedWindow >= now)
            && (q.range.None? ==> Some(w.since) == q.since && Some(w.until) == q.until)
            && (q.range.Some? ==> w.until == now)
    ensures var w := ResolveHistory(q, now, seedWindow).value;
            q.range.Some? ==> forall ms: nat | NamedRange(q.range.value, ms) ::
              if ms <= now then w.since + ms == now else w.since == 0
  {
  }

  /** The trend grouping is the least number of whole minutes, and at least one, that is a 1440th of the window. */
  lemma TrendGroupIs(window: nat)
    ensures var g := GroupForWindow(window);
            && g % 60_000 == 0 && g >= 60_000 && window / 1440 <= g
            && (g > 60_000 ==> g - 60_000 < window / 1440)
  {
    var q := window / 1440;
    var minutes := AtLeastOne(DivCeil(q, 60_000));
    DivCeilCovers(q, 60_000);
    DivBounds(q, 60_000);
    if q % 60_000 == 0 {
      assert q == q / 60_000 * 60_000;
    }
  }

  /** The raw grouping is a 1440th of the window, rounded down, and at least a millisecond. */
  lemma RawGroupIs(window: nat)
    ensures var g := RawGroupForWindow(window);
            && g >= 1 && window < (g + 1) * 1440 && (window >= 1440 ==> g * 1440 <= window)
            && (window < 1440 ==> g == 1)
  {
  }

  lemma RawAnswerBounded(samples: seq<Sample>, host: string, id: string, since: nat, until: nat)
    requires since <= until
    ensures |RawAnswer(samples, host, id, since, until)| <= 2880
  {
    RawGroupsBounded(since, until);
    RawPointsInWindow(samples, host, id, since, until);
    PointsBounded(RawPoints(samples, host, id, since, until), RawGroupForWindow(until - since), since, until);
  }

  lemma TrendAnswersBounded(table: Table, host: string, what: string, since: nat, until: nat)
    requires since <= until
    ensures |HistoryContainer(table, host, what, since, until, GroupForWindow(until - since))| <= 1442
    ensures |HistoryStack(table, host, what, since, until, GroupForWindow(until - since))| <= 1442
  {
    TrendGroupsBounded(since, until);
    ContainerPointsInWindow(table, host, what, since, until);
    PointsBounded(ContainerPoints(table, host, what, since, until), GroupForWindow(until - since), since, until);
    StackPointsInWindow(table, host, what, since, until);
    PointsBounded(StackPoints(table, host, what, since, until), GroupForWindow(until - since), since, until);
  }

  lemma WindowAnswerBounded(
      w: HistoryWindow, samples: seq<Sample>, table: Table, host: string, id: string, name: Option<string>)
    requires w.since <= w.until && w.group == GroupForWindow(w.until - w.since)
    ensures |Answer(w, samples, table, host, id, name)| <= if w.raw then 2880 else 1442
  {
    if w.raw {
      RawAnswerBounded(samples, host, id, w.since, w.until);
    } else if name.Some? {
      TrendAnswersBounded(table, host, name.value, w.since, w.until);
    }
  }

  /** Main result: whatever is asked and stored, an answer has at most 2880 points, from trends at most 1442. */
  lemma AnswerBounded(
      q: HistoryQuery, now: nat, seedWindow: nat, samples: seq<Sample>, table: Table,
      host: string, id: string, name: Option<string>)
    requires ResolveHistory(q, now, seedWindow).Some?
    ensures var w := ResolveHistory(q, now, seedWindow).value;
            w.since <= w.until
            && |Answer(w, samples, table, host, id, name)| <= if w.raw then 2880 else 1442
  {
    ResolvedWindow(q, now, seedWindow);
    WindowAnswerBounded(ResolveHistory(q, now, seedWindow).value, samples, table, host, id, name);
  }
}
