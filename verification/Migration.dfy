/** Rewriting a long-format trend table into the wide one, an hour of buckets at a time. */
module Migration {
  import opened Prelude
  import opened Model
  import opened TrendTable

  const I64_MAX: nat := 0x7FFF_FFFF_FFFF_FFFF
  const MIGRATION_CHUNK_MS: nat := 3_600_000

  // ----- The pivot query: one GROUP BY over the long rows -----

  function GroupOf(rows: seq<Trend>, key: RowKey): seq<Trend> {
    if rows == [] then []
    else GroupOf(rows[..|rows| - 1], key) + if KeyOf(rows[|rows| - 1]) == key then [rows[|rows| - 1]] else []
  }

  /** Binary text order. */
  predicate TextBelow(a: string, b: string) {
    if b == "" then false
    else if a == "" then true
    else a[0] < b[0] || (a[0] == b[0] && TextBelow(a[1..], b[1..]))
  }

  function MaxText(a: Option<string>, b: Option<string>): Option<string> {
    if a.None? then b
    else if b.None? then a
    else if TextBelow(a.value, b.value) then b else a
  }

  function MaxNat(a: nat, b: nat): nat {
    if a >= b then a else b
  }

  function MinOfMins(es: seq<Envelope>): Option<real> {
    if es == [] then None
    else
      var before, e := MinOfMins(es[..|es| - 1]), es[|es| - 1];
      Some(if before.None? then e.min else Least(before.value, e.min))
  }

  function MaxOfMaxs(es: seq<Envelope>): Option<real> {
    if es == [] then None
    else
      var before, e := MaxOfMaxs(es[..|es| - 1]), es[|es| - 1];
      Some(if before.None? then e.max else Greatest(before.value, e.max))
  }

  /** MIN, SUM / SUM and MAX over one metric's rows; each is NULL without rows. */
  function LegacyCols(es: seq<Envelope>): Cols {
    Cols(MinOfMins(es), if es == [] then None else SqlDiv(TotalWeight(es), TotalSamples(es)), MaxOfMaxs(es))
  }

  /** The columns of a group that are the same for every metric. */
  datatype Head = Head(bucketSecs: nat, id: Option<string>, stack: Option<string>, samples: nat)

  function HeadOf(group: seq<Trend>): Head {
    if group == [] then Head(0, None, None, 0)
    else
      var before, t := HeadOf(group[..|group| - 1]), group[|group| - 1];
      Head(MaxNat(before.bucketSecs, t.bucketSecs), MaxText(before.id, Some(t.id)),
           MaxText(before.stack, t.stack), MaxNat(before.samples, t.samples))
  }

  function Aggregate(group: seq<Trend>, key: RowKey): Wide {
    var head := HeadOf(group);
    Wide(head.bucketSecs, if head.id.Some? then head.id.value else "", head.stack, head.samples,
         PerMetric(m => LegacyCols(EnvelopesOf(group, key, m))))
  }

  /** The whole table as a single query over all long rows. */
  function LegacyTable(rows: seq<Trend>): Table {
    map key | key in (set t | t in rows :: KeyOf(t)) :: Aggregate(GroupOf(rows, key), key)
  }

  // ----- The chunked migration -----

  function InRange(rows: seq<Trend>, lo: nat, hi: nat): seq<Trend> {
    if rows == [] then []
    else
      var t := rows[|rows| - 1];
      InRange(rows[..|rows| - 1], lo, hi) + if lo <= t.bucketStart < hi then [t] else []
  }

  /** A plain INSERT fails when a key is already there. */
  function InsertPlain(table: Table, rows: Table): Option<Table> {
    if table.Keys * rows.Keys == {} then Some(table + rows) else None
  }

  function NextChunk(from: nat): nat {
    if from + MIGRATION_CHUNK_MS > I64_MAX then I64_MAX else from + MIGRATION_CHUNK_MS
  }

  datatype Layout = Long(rows: seq<Trend>) | WideLayout(table: Table)

  class Database {
    var layout: Layout

    constructor (layout: Layout)
      ensures this.layout == layout
    {
      this.layout := layout;
    }

    /** Migrate in place; `ok` would be false if any chunk's INSERT met an existing key. */
    method Migrate() returns (ok: bool)
      requires layout.Long? ==> forall t | t in layout.rows :: t.bucketStart < I64_MAX
      modifies this
      ensures ok
      ensures layout == match old(layout)
                case Long(rows) => WideLayout(LegacyTable(rows))
                case WideLayout(table) => WideLayout(table)
    {
      if layout.WideLayout? {
        return true;
      }
      var rows := layout.rows;
      var table: Table := map[];
      if rows != [] {
        var first, last := Span(rows);
        var from := first;
        NothingBefore(rows, first);
        while from <= last
          invariant first <= from <= I64_MAX
          invariant table == LegacyTable(InRange(rows, first, from))
          decreases I64_MAX - from
        {
          var to := NextChunk(from);
          var chunk := LegacyTable(InRange(rows, from, to));
          ChunkJoins(rows, first, from, to);
          var inserted := InsertPlain(table, chunk);
          if inserted.None? {
            return false;
          }
          table := inserted.value;
          from := to;
        }
        AllInRange(rows, first, from);
      }
      layout := WideLayout(table);
      return true;
    }
  }

  method Span(rows: seq<Trend>) returns (first: nat, last: nat)
    requires rows != []
    ensures (exists t :: t in rows && t.bucketStart == first) && (exists t :: t in rows && t.bucketStart == last)
    ensures forall t | t in rows :: first <= t.bucketStart <= last
  {
    first, last := rows[0].bucketStart, rows[0].bucketStart;
    for i := 1 to |rows|
      invariant (exists t :: t in rows && t.bucketStart == first) && (exists t :: t in rows && t.bucketStart == last)
      invariant forall k | 0 <= k < i :: first <= rows[k].bucketStart <= last
    {
      if rows[i].bucketStart < first {
        first := rows[i].bucketStart;
      }
      if rows[i].bucketStart > last {
        last := rows[i].bucketStart;
      }
    }
  }

  lemma {:induction false} InRangeIs(rows: seq<Trend>, lo: nat, hi: nat)
    ensures forall t :: t in InRange(rows, lo, hi) <==> t in rows && lo <= t.bucketStart < hi
  {
    if rows != [] {
      InRangeIs(rows[..|rows| - 1], lo, hi);
      assert forall t :: t in rows <==> t in rows[..|rows| - 1] || t == rows[|rows| - 1];
    }
  }

  /** A group lies in one range whole: its rows share their bucket. */
  lemma {:induction false} GroupInRange(rows: seq<Trend>, lo: nat, hi: nat, key: RowKey)
    requires lo <= key.bucketStart < hi
    ensures GroupOf(InRange(rows, lo, hi), key) == GroupOf(rows, key)
  {
    if rows != [] {
      var n := |rows| - 1;
      GroupInRange(rows[..n], lo, hi, key);
      var part, t := InRange(rows[..n], lo, hi), rows[n];
      if lo <= t.bucketStart < hi {
        assert (part + [t])[..|part|] == part;
      } else {
        assert KeyOf(t) != key;
        assert part + [] == part && GroupOf(rows[..n], key) + [] == GroupOf(rows[..n], key);
      }
    }
  }

  ghost predicate HasKey(rows: seq<Trend>, key: RowKey) {
    exists t :: t in rows && KeyOf(t) == key
  }

  lemma {:induction false} ChunkKeys(rows: seq<Trend>, lo: nat, hi: nat, key: RowKey)
    ensures key in LegacyTable(InRange(rows, lo, hi)) <==> lo <= key.bucketStart < hi && HasKey(rows, key)
    ensures key in LegacyTable(InRange(rows, lo, hi)) ==>
              LegacyTable(InRange(rows, lo, hi))[key] == Aggregate(GroupOf(rows, key), key)
  {
    InRangeIs(rows, lo, hi);
    if lo <= key.bucketStart < hi {
      GroupInRange(rows, lo, hi, key);
    }
  }

  lemma {:induction false} ChunkJoinsAt(rows: seq<Trend>, lo: nat, mid: nat, hi: nat, key: RowKey)
    requires lo <= mid <= hi
    ensures var a, b, c := LegacyTable(InRange(rows, lo, mid)), LegacyTable(InRange(rows, mid, hi)),
                           LegacyTable(InRange(rows, lo, hi));
            && !(key in a && key in b) && (key in c <==> key in a || key in b)
            && (key in a ==> c[key] == a[key]) && (key in b ==> c[key] == b[key])
  {
    ChunkKeys(rows, lo, mid, key);
    ChunkKeys(rows, mid, hi, key);
    ChunkKeys(rows, lo, hi, key);
  }

  lemma Joined(a: Table, b: Table, c: Table)
    requires forall key :: key in c <==> key in a || key in b
    requires forall key :: key in a ==> key !in b && key in c && c[key] == a[key]
    requires forall key :: key in b ==> key in c && c[key] == b[key]
    ensures InsertPlain(a, b) == Some(c)
  {
    assert a.Keys * b.Keys == {};
    assert a + b == c;
  }

  /** Two adjoining ranges share no key, and together give the table of the joined range. */
  lemma {:induction false} ChunkJoins(rows: seq<Trend>, lo: nat, mid: nat, hi: nat)
    requires lo <= mid <= hi
    ensures InsertPlain(LegacyTable(InRange(rows, lo, mid)), LegacyTable(InRange(rows, mid, hi)))
         == Some(LegacyTable(InRange(rows, lo, hi)))
  {
    var x, y, z := InRange(rows, lo, mid), InRange(rows, mid, hi), InRange(rows, lo, hi);
    forall key
      ensures key in LegacyTable(z) <==> key in LegacyTable(x) || key in LegacyTable(y)
    {
      ChunkJoinsAt(rows, lo, mid, hi, key);
    }
    forall key | key in LegacyTable(x)
      ensures key !in LegacyTable(y) && key in LegacyTable(z) && LegacyTable(z)[key] == LegacyTable(x)[key]
    {
      ChunkJoinsAt(rows, lo, mid, hi, key);
    }
    forall key | key in LegacyTable(y)
      ensures key in LegacyTable(z) && LegacyTable(z)[key] == LegacyTable(y)[key]
    {
      ChunkJoinsAt(rows, lo, mid, hi, key);
    }
    Joined(LegacyTable(x), LegacyTable(y), LegacyTable(z));
  }

  lemma {:induction false} NothingBefore(rows: seq<Trend>, lo: nat)
    ensures LegacyTable(InRange(rows, lo, lo)) == map[]
  {
    InRangeIs(rows, lo, lo);
  }

  lemma {:induction false} AllInRange(rows: seq<Trend>, lo: nat, hi: nat)
    requires forall t | t in rows :: lo <= t.bucketStart < hi
    ensures InRange(rows, lo, hi) == rows
  {
    if rows != [] {
      assert rows[|rows| - 1] in rows;
      AllInRange(rows[..|rows| - 1], lo, hi);
    }
  }

  // ----- When the loop ends -----

  /** Where the `n`-th chunk starts. */
  function ChunkStart(first: nat, n: nat): nat {
    if n == 0 then first else NextChunk(ChunkStart(first, n - 1))
  }

  lemma {:induction false} ChunkStartIs(first: nat, n: nat)
    requires first <= I64_MAX
    ensures ChunkStart(first, n)
         == if first + n * MIGRATION_CHUNK_MS > I64_MAX then I64_MAX else first + n * MIGRATION_CHUNK_MS
  {
    if n > 0 {
      ChunkStartIs(first, n - 1);
    }
  }

  /** The chunk loop gets past the last bucket exactly when that is below the largest 64-bit value. */
  lemma LoopEndsIff(first: nat, last: nat)
    requires first <= last <= I64_MAX
    ensures (exists n :: ChunkStart(first, n) > last) <==> last < I64_MAX
  {
    if last < I64_MAX {
      ChunkStartIs(first, last + 1);
      assert ChunkStart(first, last + 1) > last;
    } else {
      forall n ensures ChunkStart(first, n) <= last {
        ChunkStartIs(first, n);
      }
    }
  }

  predicate InChunk(first: nat, n: nat, bucket: nat) {
    ChunkStart(first, n) <= bucket < ChunkStart(first, n + 1)
  }

  /** Every bucket from the first on, below the largest value, lies in exactly one chunk. */
  lemma OneChunkEach(first: nat, bucket: nat)
    requires first <= bucket < I64_MAX
    ensures exists n: nat :: InChunk(first, n, bucket) && forall k: nat :: InChunk(first, k, bucket) ==> k == n
  {
    var n := (bucket - first) / MIGRATION_CHUNK_MS;
    ChunkStartIs(first, n);
    ChunkStartIs(first, n + 1);
    assert InChunk(first, n, bucket);
    forall k: nat ensures InChunk(first, k, bucket) ==> k == n {
      ChunkStartIs(first, k);
      ChunkStartIs(first, k + 1);
    }
  }

  // ----- The migration against the live pivot -----

  lemma {:induction false} GroupKeepsEnvelopes(rows: seq<Trend>, key: RowKey, m: Metric)
    ensures EnvelopesOf(GroupOf(rows, key), key, m) == EnvelopesOf(rows, key, m)
  {
    if rows != [] {
      var n := |rows| - 1;
      GroupKeepsEnvelopes(rows[..n], key, m);
      var part := GroupOf(rows[..n], key);
      if KeyOf(rows[n]) == key {
        assert (part + [rows[n]])[..|part|] == part;
      } else {
        assert part + [] == part && EnvelopesOf(rows[..n], key, m) + [] == EnvelopesOf(rows[..n], key, m);
      }
    }
  }

  lemma {:induction false} LegacyExtremes(es: seq<Envelope>)
    requires es != []
    ensures MinOfMins(es) == Some(MergeAll(es).min) && MaxOfMaxs(es) == Some(MergeAll(es).max)
  {
    if |es| > 1 {
      LegacyExtremes(es[..|es| - 1]);
    } else {
      assert es[..0] == [];
    }
  }

  /**
   * Main result: for every metric, the row the migration writes has the columns a live insert of the same rows
   * would have written, exactly when the metric has no rows there or at least one sample.
   */
  lemma {:induction false} MigrationMatchesPivot(rows: seq<Trend>, key: RowKey, m: Metric)
    requires key in Pivot(rows)
    ensures key in LegacyTable(rows)
    ensures LegacyTable(rows)[key].cols.At(m) == Inserted(Pivot(rows)[key]).cols.At(m)
       <==> EnvelopesOf(rows, key, m) == [] || TotalSamples(EnvelopesOf(rows, key, m)) > 0
  {
    var es := EnvelopesOf(rows, key, m);
    PivotKeys(rows, key);
    PivotIs(rows, key, m);
    GroupKeepsEnvelopes(rows, key, m);
    assert LegacyTable(rows)[key].cols.At(m) == LegacyCols(EnvelopesOf(GroupOf(rows, key), key, m));
    assert Inserted(Pivot(rows)[key]).cols.At(m) == EnvelopeCols(Pivot(rows)[key].metrics, m);
    if es != [] {
      LegacyExtremes(es);
      MergeAllMedian(es);
    }
  }

  /** A key gets a row from the migration, and none from a live insert. */
  predicate OnlyMigrated(rows: seq<Trend>, key: RowKey) {
    key in LegacyTable(rows) && key !in Pivot(rows)
  }

  ghost predicate OnlyUnknown(rows: seq<Trend>, key: RowKey) {
    HasKey(rows, key) && forall t | t in rows && KeyOf(t) == key :: t.metric.Other?
  }

  /** The one kind of row the two disagree on: a key that only rows of unknown metrics bear. */
  lemma {:induction false} MigrationKeys(rows: seq<Trend>, key: RowKey)
    ensures OnlyMigrated(rows, key) <==> OnlyUnknown(rows, key)
  {
    PivotKeys(rows, key);
  }

  /** Such a row has no values. */
  lemma {:induction false} UnknownHasNoValues(rows: seq<Trend>, key: RowKey, m: Metric)
    requires OnlyMigrated(rows, key)
    ensures LegacyTable(rows)[key].cols.At(m) == NO_COLS
  {
    PivotIs(rows, key, m);
    GroupKeepsEnvelopes(rows, key, m);
  }

  // ----- The columns shared by the metrics -----

  /** Where the first is a proper prefix, or has the smaller character at the first difference. */
  predicate SmallerAt(a: string, b: string, k: nat) {
    k <= |a| && k < |b| && a[..k] == b[..k] && (k == |a| || a[k] < b[k])
  }

  lemma {:induction false} TextBelowAt(a: string, b: string) returns (k: nat)
    requires TextBelow(a, b)
    ensures SmallerAt(a, b, k)
    decreases |a|
  {
    if a == "" || a[0] < b[0] {
      k := 0;
    } else {
      var rest := TextBelowAt(a[1..], b[1..]);
      k := rest + 1;
      assert a[..k] == [a[0]] + a[1..][..rest] && b[..k] == [b[0]] + b[1..][..rest];
    }
  }

  /** One text is below another as soon as it is smaller at the first difference, so `TextBelow` is that order. */
  lemma {:induction false} SmallerIsBelow(a: string, b: string, k: nat)
    requires SmallerAt(a, b, k)
    ensures TextBelow(a, b)
    decreases k
  {
    if k > 0 {
      assert a[..k][0] == a[0] && b[..k][0] == b[0];
      assert a[1..][..k - 1] == a[..k][1..] && b[1..][..k - 1] == b[..k][1..];
      SmallerIsBelow(a[1..], b[1..], k - 1);
    }
  }

  lemma {:induction false} TextBelowTransitive(a: string, b: string, c: string)
    requires TextBelow(a, b) && TextBelow(b, c)
    ensures TextBelow(a, c)
    decreases |a|
  {
    if a != "" && a[0] == b[0] && b[0] == c[0] {
      TextBelowTransitive(a[1..], b[1..], c[1..]);
    }
  }

  /** `MAX` over text: attained, and nothing sorts after it. */
  predicate IsLast(best: Option<string>, texts: set<string>) {
    match best
    case None => texts == {}
    case Some(x) => x in texts && forall y | y in texts :: !TextBelow(x, y)
  }

  lemma {:induction false} TextIrreflexive(a: string)
    ensures !TextBelow(a, a)
  {
    if a != "" {
      TextIrreflexive(a[1..]);
    }
  }

  lemma LastOfMore(best: Option<string>, texts: set<string>, x: Option<string>)
    requires IsLast(best, texts)
    ensures IsLast(MaxText(best, x), texts + if x.Some? then {x.value} else {})
  {
    if x.Some? {
      TextIrreflexive(x.value);
      if best.Some? && TextBelow(best.value, x.value) {
        forall y | y in texts ensures !TextBelow(x.value, y) {
          if TextBelow(x.value, y) {
            TextBelowTransitive(best.value, x.value, y);
          }
        }
      }
    }
  }

  ghost predicate IsMaximum(n: nat, ns: set<nat>) {
    n in ns && forall x | x in ns :: x <= n
  }

  ghost function Ids(group: seq<Trend>): set<string> {
    set t | t in group :: t.id
  }

  ghost function Stacks(group: seq<Trend>): set<string> {
    set t | t in group && t.stack.Some? :: t.stack.value
  }

  ghost function Counts(group: seq<Trend>): set<nat> {
    set t | t in group :: t.samples
  }

  ghost function Widths(group: seq<Trend>): set<nat> {
    set t | t in group :: t.bucketSecs
  }

  lemma Snoc(group: seq<Trend>, t: Trend)
    ensures Ids(group + [t]) == Ids(group) + {t.id}
    ensures Stacks(group + [t]) == Stacks(group) + if t.stack.Some? then {t.stack.value} else {}
    ensures Counts(group + [t]) == Counts(group) + {t.samples}
    ensures Widths(group + [t]) == Widths(group) + {t.bucketSecs}
  {
    assert forall u :: u in group + [t] <==> u in group || u == t;
  }

  lemma MaximumOfMore(n: nat, ns: set<nat>, x: nat)
    requires if ns == {} then n == 0 else IsMaximum(n, ns)
    ensures IsMaximum(MaxNat(n, x), ns + {x})
  {
  }

  /** Before any row the greatest count is zero. */
  ghost predicate CountsSoFar(group: seq<Trend>) {
    var head := HeadOf(group);
    if group == [] then head.samples == 0 && head.bucketSecs == 0
    else IsMaximum(head.samples, Counts(group)) && IsMaximum(head.bucketSecs, Widths(group))
  }

  lemma {:induction false} CountsAre(group: seq<Trend>)
    ensures CountsSoFar(group)
  {
    if group != [] {
      var rest, t := group[..|group| - 1], group[|group| - 1];
      CountsAre(rest);
      assert group == rest + [t];
      Snoc(rest, t);
      CountsEmptyIff(rest);
      MaximumOfMore(HeadOf(rest).samples, Counts(rest), t.samples);
      MaximumOfMore(HeadOf(rest).bucketSecs, Widths(rest), t.bucketSecs);
    }
  }

  lemma CountsEmptyIff(group: seq<Trend>)
    ensures Counts(group) == {} <==> group == []
    ensures Widths(group) == {} <==> group == []
  {
    if group != [] {
      assert group[0].samples in Counts(group) && group[0].bucketSecs in Widths(group);
    }
  }

  lemma {:induction false} TextsAre(group: seq<Trend>)
    ensures IsLast(HeadOf(group).id, Ids(group)) && IsLast(HeadOf(group).stack, Stacks(group))
  {
    if group != [] {
      var rest, t := group[..|group| - 1], group[|group| - 1];
      TextsAre(rest);
      assert group == rest + [t];
      Snoc(rest, t);
      LastOfMore(HeadOf(rest).id, Ids(rest), Some(t.id));
      LastOfMore(HeadOf(rest).stack, Stacks(rest), t.stack);
    }
  }

  /** The shared columns of a group: id and stack are those that sort last, and the counts are the greatest. */
  lemma {:induction false} HeadIs(group: seq<Trend>)
    ensures IsLast(HeadOf(group).id, Ids(group)) && IsLast(HeadOf(group).stack, Stacks(group))
    ensures group != [] ==>
              IsMaximum(HeadOf(group).samples, Counts(group)) && IsMaximum(HeadOf(group).bucketSecs, Widths(group))
  {
    TextsAre(group);
    CountsAre(group);
  }

  /** The rows of a key, whatever their metric. */
  lemma {:induction false} GroupIs(rows: seq<Trend>, key: RowKey)
    ensures forall t :: t in GroupOf(rows, key) <==> t in rows && KeyOf(t) == key
  {
    if rows != [] {
      GroupIs(rows[..|rows| - 1], key);
      assert forall t :: t in rows <==> t in rows[..|rows| - 1] || t == rows[|rows| - 1];
    }
  }

  /** What a migrated row says of its container, stack and samples is taken from the rows of its key. */
  lemma {:induction false} MigratedHead(rows: seq<Trend>, key: RowKey)
    requires key in LegacyTable(rows)
    ensures var row, group := LegacyTable(rows)[key], GroupOf(rows, key);
            && IsLast(Some(row.id), Ids(group)) && IsLast(row.stack, Stacks(group))
            && IsMaximum(row.samples, Counts(group)) && IsMaximum(row.bucketSecs, Widths(group))
  {
    var group := GroupOf(rows, key);
    GroupIs(rows, key);
    var t :| t in rows && KeyOf(t) == key;
    assert t in group && t.id in Ids(group);
    HeadIs(group);
    assert LegacyTable(rows)[key] == Aggregate(group, key);
  }
}
