/** The incremental parser of a federated node's event stream. */
module Sse {
  import opened Prelude

  datatype Event = Event(name: string, data: string)

  // ----- Text -----

  function StripCr(s: string): string {
    if s == "" then ""
    else if s[0] == '\r' then StripCr(s[1..])
    else [s[0]] + StripCr(s[1..])
  }

  /** The White_Space property of Unicode, which `trim_start` goes by. */
  predicate IsWhitespace(c: char) {
    || '\U{0009}' <= c <= '\U{000D}'
    || c in {' ', '\U{0085}', '\U{00A0}', '\U{1680}', '\U{2028}', '\U{2029}', '\U{202F}', '\U{205F}', '\U{3000}'}
    || '\U{2000}' <= c <= '\U{200A}'
  }

  function TrimStart(s: string): (r: string)
    ensures r == "" || !IsWhitespace(r[0])
    ensures r <= s || |r| < |s|
  {
    if s != "" && IsWhitespace(s[0]) then TrimStart(s[1..]) else s
  }

  /** Exactly the leading whitespace goes. */
  lemma {:induction false} TrimStartIs(s: string) returns (k: nat)
    ensures k <= |s| && TrimStart(s) == s[k..]
    ensures (forall c | c in s[..k] :: IsWhitespace(c)) && (k < |s| ==> !IsWhitespace(s[k]))
  {
    if s != "" && IsWhitespace(s[0]) {
      var rest := TrimStartIs(s[1..]);
      k := rest + 1;
      assert s[..k] == [s[0]] + s[1..][..rest];
    } else {
      k := 0;
    }
  }

  function StripSpace(s: string): string {
    if s != "" && s[0] == ' ' then s[1..] else s
  }

  /** The position of the first line feed, or the length. */
  function LineEnd(s: string): (n: nat)
    ensures n <= |s| && '\n' !in s[..n]
    ensures n < |s| ==> s[n] == '\n'
  {
    if s == "" || s[0] == '\n' then 0
    else
      var n := 1 + LineEnd(s[1..]);
      assert s[..n] == [s[0]] + s[1..][..n - 1];
      n
  }

  /** The terminated lines of `s`. */
  function Lines(s: string): seq<string>
    decreases |s|
  {
    var n := LineEnd(s);
    if n == |s| then [] else [s[..n]] + Lines(s[n + 1..])
  }

  predicate DoubleAt(s: string, q: int) {
    0 <= q && q + 2 <= |s| && s[q] == '\n' && s[q + 1] == '\n'
  }

  /** The first double line feed. */
  function FindBlank(s: string): (p: Option<nat>)
    ensures p.Some? ==> DoubleAt(s, p.value) && forall q | q < p.value :: !DoubleAt(s, q)
    ensures p.None? ==> forall q :: !DoubleAt(s, q)
  {
    if |s| < 2 then None
    else if DoubleAt(s, 0) then Some(0)
    else
      assert forall q :: DoubleAt(s, q) ==> q > 0 && DoubleAt(s[1..], q - 1);
      match FindBlank(s[1..])
      case None => None
      case Some(p) => Some(p + 1)
  }

  function Join(parts: seq<string>): string {
    if parts == [] then ""
    else if |parts| == 1 then parts[0]
    else parts[0] + "\n" + Join(parts[1..])
  }

  // ----- The parser -----

  datatype Fields = Fields(event: string, data: seq<string>)

  const NO_FIELDS := Fields("message", [])

  function ReadLine(f: Fields, line: string): Fields {
    if "event:" <= line then f.(event := TrimStart(line[6..]))
    else if "data:" <= line then f.(data := f.data + [StripSpace(line[5..])])
    else f
  }

  function ReadLines(f: Fields, lines: seq<string>): Fields {
    if lines == [] then f
    else ReadLine(ReadLines(f, lines[..|lines| - 1]), lines[|lines| - 1])
  }

  function Emit(f: Fields): seq<Event> {
    if f.data == [] then [] else [Event(f.event, Join(f.data))]
  }

  function ParseBlock(block: string): seq<Event> {
    Emit(ReadLines(NO_FIELDS, Lines(block)))
  }

  datatype Parsed = Parsed(events: seq<Event>, rest: string) {
    /** The events of this step and of a later one, which leaves `later.rest`. */
    function Then(later: Parsed): Parsed {
      Parsed(events + later.events, later.rest)
    }

    lemma ThenAssociates(b: Parsed, c: Parsed)
      ensures Then(b.Then(c)) == Then(b).Then(c)
    {
    }
  }

  /** Cut blocks off the front of the buffer at double line feeds. */
  function Cut(buf: string): Parsed
    decreases |buf|
  {
    match FindBlank(buf)
    case None => Parsed([], buf)
    case Some(p) => Parsed(ParseBlock(buf[..p + 2]), buf[p + 2..]).Then(Cut(buf[p + 2..]))
  }

  function Feed(buf: string, chunk: string): Parsed {
    Cut(buf + StripCr(chunk))
  }

  /** What the buffer may hold between calls. */
  predicate Settled(buf: string) {
    '\r' !in buf && FindBlank(buf).None?
  }

  /** The fields of one block; a block without data is no event. */
  method ReadBlock(block: string) returns (out: seq<Event>)
    ensures out == ParseBlock(block)
  {
    var event, data := "message", [];
    var lines := Lines(block);
    for i := 0 to |lines|
      invariant Fields(event, data) == ReadLines(NO_FIELDS, lines[..i])
    {
      assert lines[..i + 1][..i] == lines[..i];
      var line := lines[i];
      if "event:" <= line {
        event := TrimStart(line[6..]);
      } else if "data:" <= line {
        data := data + [StripSpace(line[5..])];
      }
    }
    assert lines[..|lines|] == lines;
    out := if data != [] then [Event(event, Join(data))] else [];
  }

  class SseParser {
    var buf: string

    ghost predicate Valid()
      reads this
    {
      Settled(buf)
    }

    constructor ()
      ensures Valid() && buf == ""
    {
      buf := "";
    }

    method Push(chunk: string) returns (out: seq<Event>)
      requires Valid()
      modifies this
      ensures Valid()
      ensures Parsed(out, buf) == Feed(old(buf), chunk)
    {
      StripCrRemoves(chunk);
      buf := buf + StripCr(chunk);
      out := [];
      ghost var whole := Cut(buf);
      var pos := FindBlank(buf);
      while pos.Some?
        invariant '\r' !in buf && pos == FindBlank(buf)
        invariant Parsed(out + Cut(buf).events, Cut(buf).rest) == whole
        decreases |buf|
      {
        var block := buf[..pos.value + 2];
        buf := buf[pos.value + 2..];
        var events := ReadBlock(block);
        ConcatAssociates(out, events, Cut(buf).events);
        out := out + events;
        pos := FindBlank(buf);
      }
    }
  }

  lemma {:induction false} StripCrRemoves(s: string)
    ensures '\r' !in StripCr(s)
  {
    if s != "" {
      StripCrRemoves(s[1..]);
    }
  }

  // ----- Chunk invariance -----

  lemma {:induction false} StripCrConcat(a: string, b: string)
    ensures StripCr(a + b) == StripCr(a) + StripCr(b)
  {
    if a == "" {
      assert a + b == b;
    } else {
      assert (a + b)[1..] == a[1..] + b;
      StripCrConcat(a[1..], b);
    }
  }

  lemma {:induction false} FindBlankIs(s: string, p: nat)
    requires DoubleAt(s, p) && forall q | q < p :: !DoubleAt(s, q)
    ensures FindBlank(s) == Some(p)
  {
    var f := FindBlank(s);
    assert f.Some? && !(p < f.value);
  }

  lemma {:induction false} CutStep(block: string, rest: string)
    requires |block| >= 2 && FindBlank(block) == Some(|block| - 2)
    ensures Cut(block + rest) == Parsed(ParseBlock(block), rest).Then(Cut(rest))
  {
    assert forall q | q <= |block| - 2 :: DoubleAt(block + rest, q) == DoubleAt(block, q);
    FindBlankIs(block + rest, |block| - 2);
    assert (block + rest)[..|block|] == block && (block + rest)[|block|..] == rest;
  }

  lemma BlockOf(s: string) returns (block: string, rest: string)
    requires FindBlank(s).Some?
    ensures s == block + rest && |block| >= 2 && FindBlank(block) == Some(|block| - 2)
  {
    var p := FindBlank(s).value;
    block, rest := s[..p + 2], s[p + 2..];
    assert forall q | q <= p :: DoubleAt(block, q) == DoubleAt(s, q);
    FindBlankIs(block, p);
  }

  lemma {:induction false} CutBlockConcat(block: string, rest: string, b: string)
    requires |block| >= 2 && FindBlank(block) == Some(|block| - 2)
    requires Cut(rest + b) == Cut(rest).Then(Cut(Cut(rest).rest + b))
    ensures Cut((block + rest) + b) == Cut(block + rest).Then(Cut(Cut(block + rest).rest + b))
  {
    var first, middle := Parsed(ParseBlock(block), rest), Cut(rest);
    var last := Cut(middle.rest + b);
    assert Cut(block + rest) == first.Then(middle) by { CutStep(block, rest); }
    assert Cut((block + rest) + b) == first.Then(middle.Then(last)) by {
      ConcatAssociates(block, rest, b);
      CutStep(block, rest + b);
    }
    first.ThenAssociates(middle, last);
  }

  lemma {:induction false} CutQuietConcat(a: string, b: string)
    requires FindBlank(a).None?
    ensures Cut(a + b) == Cut(a).Then(Cut(Cut(a).rest + b))
  {
    assert Cut(a) == Parsed([], a);
    assert [] + Cut(a + b).events == Cut(a + b).events;
  }

  /** Parsing a text in two steps is parsing it in one. */
  lemma {:induction false} CutConcat(a: string, b: string)
    ensures Cut(a + b) == Cut(a).Then(Cut(Cut(a).rest + b))
    decreases |a|
  {
    if FindBlank(a).None? {
      CutQuietConcat(a, b);
    } else {
      var block, rest := BlockOf(a);
      CutConcat(rest, b);
      CutBlockConcat(block, rest, b);
    }
  }

  /** What a fresh call leaves behind never holds a carriage return or a blank line. */
  lemma {:induction false} CutSettles(buf: string)
    requires '\r' !in buf
    ensures Settled(Cut(buf).rest)
    decreases |buf|
  {
    if FindBlank(buf).Some? {
      CutSettles(buf[FindBlank(buf).value + 2..]);
    }
  }

  function Concat(chunks: seq<string>): string {
    if chunks == [] then "" else chunks[0] + Concat(chunks[1..])
  }

  /** Pushing chunk after chunk, with the outputs concatenated. */
  function FeedAll(buf: string, chunks: seq<string>): Parsed
    decreases |chunks|
  {
    if chunks == [] then Parsed([], buf)
    else
      var first := Feed(buf, chunks[0]);
      first.Then(FeedAll(first.rest, chunks[1..]))
  }

  lemma FeedConcat(buf: string, a: string, b: string)
    ensures Feed(buf, a + b) == Feed(buf, a).Then(Feed(Feed(buf, a).rest, b))
  {
    StripCrConcat(a, b);
    ConcatAssociates(buf, StripCr(a), StripCr(b));
    CutConcat(buf + StripCr(a), StripCr(b));
  }

  lemma FeedSettles(buf: string, chunk: string)
    requires Settled(buf)
    ensures Settled(Feed(buf, chunk).rest)
  {
    StripCrRemoves(chunk);
    CutSettles(buf + StripCr(chunk));
  }

  /** Main result: however a stream is cut into chunks, the events and the final buffer are the same. */
  lemma {:induction false} ChunkInvariance(buf: string, chunks: seq<string>)
    requires Settled(buf)
    ensures FeedAll(buf, chunks) == Feed(buf, Concat(chunks))
    ensures Settled(FeedAll(buf, chunks).rest)
    decreases |chunks|
  {
    if chunks == [] {
      assert buf + "" == buf;
    } else {
      FeedSettles(buf, chunks[0]);
      FeedConcat(buf, chunks[0], Concat(chunks[1..]));
      ChunkInvariance(Feed(buf, chunks[0]).rest, chunks[1..]);
    }
  }
}
