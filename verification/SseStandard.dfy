/** The event stream parser against a line-at-a-time reading and against the WHATWG HTML Standard. */
module SseStandard {
  import opened Prelude
  import opened Sse

  // ----- A line-at-a-time reading of the same stream -----

  datatype Read = Read(fields: Fields, events: seq<Event>) {
    function Then(later: Read): Read {
      Read(later.fields, events + later.events)
    }
  }

  /** A blank line dispatches and resets; any other line is a field, a comment, or ignored. */
  function Line(f: Fields, line: string): Read {
    if line == "" then Read(NO_FIELDS, Emit(f)) else Read(ReadLine(f, line), [])
  }

  function Run(f: Fields, lines: seq<string>): Read
    decreases |lines|
  {
    if lines == [] then Read(f, [])
    else Line(f, lines[0]).Then(Run(Line(f, lines[0]).fields, lines[1..]))
  }

  lemma {:induction false} RunConcat(f: Fields, a: seq<string>, b: seq<string>)
    ensures Run(f, a + b) == Run(f, a).Then(Run(Run(f, a).fields, b))
    decreases |a|
  {
    if a == [] {
      assert a + b == b;
    } else {
      var step := Line(f, a[0]);
      assert (a + b)[0] == a[0] && (a + b)[1..] == a[1..] + b;
      RunConcat(step.fields, a[1..], b);
      var rest := Run(step.fields, a[1..]);
      ConcatAssociates(step.events, rest.events, Run(rest.fields, b).events);
    }
  }

  lemma {:induction false} LineEndIs(s: string, n: nat)
    requires n <= |s| && '\n' !in s[..n] && (n < |s| ==> s[n] == '\n')
    ensures LineEnd(s) == n
  {
    var e := LineEnd(s);
  }

  lemma {:induction false} LinesCons(line: string, rest: string)
    requires '\n' !in line
    ensures Lines(line + "\n" + rest) == [line] + Lines(rest)
  {
    var s := line + "\n" + rest;
    assert s[..|line|] == line && s[|line| + 1..] == rest;
    LineEndIs(s, |line|);
  }

  /** A text split behind its first line feed. */
  lemma FirstLine(s: string) returns (line: string, rest: string)
    requires '\n' in s
    ensures '\n' !in line && s == line + "\n" + rest && Lines(s) == [line] + Lines(rest)
  {
    var n := LineEnd(s);
    line, rest := s[..n], s[n + 1..];
    assert s == line + "\n" + rest;
  }

  lemma {:induction false} LinesConcat(a: string, b: string)
    requires a == "" || a[|a| - 1] == '\n'
    ensures Lines(a + b) == Lines(a) + Lines(b)
    decreases |a|
  {
    if a == "" {
      assert a + b == b;
    } else {
      var line, rest := FirstLine(a);
      assert rest != "" ==> rest[|rest| - 1] == a[|a| - 1];
      assert a + b == line + "\n" + (rest + b) by {
        ConcatAssociates(line + "\n", rest, b);
      }
      assert Lines(a + b) == [line] + Lines(rest + b) by {
        LinesCons(line, rest + b);
      }
      LinesConcat(rest, b);
      ConcatAssociates([line], Lines(rest), Lines(b));
    }
  }

  lemma {:induction false} BlankTail(s: string, k: nat)
    requires FindBlank(s).None? && k <= |s|
    ensures FindBlank(s[k..]).None?
  {
    assert forall q :: DoubleAt(s[k..], q) ==> DoubleAt(s, q + k);
  }

  /** Without a double line feed only the first line can be blank. */
  lemma {:induction false} NoBlankInside(s: string, i: nat)
    requires FindBlank(s).None? && i < |Lines(s)| && Lines(s)[i] == ""
    ensures i == 0 && s[0] == '\n'
    decreases |s|
  {
    var n := LineEnd(s);
    var rest := s[n + 1..];
    assert Lines(s) == [s[..n]] + Lines(rest);
    assert rest[..0] == "" && (rest != "" && rest[0] == '\n' ==> DoubleAt(s, n));
    if i > 0 {
      BlankTail(s, n + 1);
      NoBlankInside(rest, i - 1);
    }
  }

  lemma {:induction false} RunWithoutBlanks(f: Fields, lines: seq<string>)
    requires "" !in lines
    ensures Run(f, lines) == Read(ReadLines(f, lines), [])
    decreases |lines|
  {
    if lines != [] {
      var n := |lines| - 1;
      assert lines == lines[..n] + [lines[n]];
      RunWithoutBlanks(f, lines[..n]);
      RunConcat(f, lines[..n], [lines[n]]);
      assert [lines[n]][1..] == [];
    }
  }

  /** From a fresh start, text without a double line feed emits nothing; a blank first line changes nothing. */
  lemma {:induction false} QuietText(s: string)
    requires FindBlank(s).None?
    ensures Run(NO_FIELDS, Lines(s)) == Read(ReadLines(NO_FIELDS, Lines(s)), [])
  {
    var lines := Lines(s);
    forall i | 0 <= i < |lines| && lines[i] == "" ensures i == 0 {
      NoBlankInside(s, i);
    }
    if lines != [] && lines[0] == "" {
      RunWithoutBlanks(NO_FIELDS, lines[1..]);
      assert lines == [""] + lines[1..];
      ReadLinesConcat(NO_FIELDS, [""], lines[1..]);
    } else {
      RunWithoutBlanks(NO_FIELDS, lines);
    }
  }

  lemma {:induction false} ReadLinesConcat(f: Fields, a: seq<string>, b: seq<string>)
    ensures ReadLines(f, a + b) == ReadLines(ReadLines(f, a), b)
    decreases |b|
  {
    if b == [] {
      assert a + b == a;
    } else {
      var n := |b| - 1;
      assert (a + b)[..|a + b| - 1] == a + b[..n];
      ReadLinesConcat(f, a, b[..n]);
    }
  }

  /** A block's lines are those of its body, which holds no blank line inside, and the blank line that ends it. */
  lemma BlockBody(block: string) returns (body: string)
    requires |block| >= 2 && FindBlank(block) == Some(|block| - 2)
    ensures FindBlank(body).None? && Lines(block) == Lines(body) + [""]
  {
    assert DoubleAt(block, |block| - 2);
    body := block[..|block| - 1];
    assert forall q :: DoubleAt(body, q) ==> DoubleAt(block, q);
    assert block == body + "\n";
    assert Lines("\n") == [""] by {
      assert "" + "\n" + "" == "\n";
      LinesCons("", "");
    }
    LinesConcat(body, "\n");
  }

  /** One block, read line by line, emits what parsing the block emits and leaves no fields behind. */
  lemma {:induction false} BlockLineByLine(block: string)
    requires |block| >= 2 && FindBlank(block) == Some(|block| - 2)
    ensures Run(NO_FIELDS, Lines(block)) == Read(NO_FIELDS, ParseBlock(block))
  {
    var body := BlockBody(block);
    var lines := Lines(body);
    QuietText(body);
    BlankLineDispatches(NO_FIELDS, lines);
  }

  lemma {:induction false} BlankLineDispatches(f: Fields, lines: seq<string>)
    requires Run(f, lines) == Read(ReadLines(f, lines), [])
    ensures Run(f, lines + [""]) == Read(NO_FIELDS, Emit(ReadLines(f, lines + [""])))
  {
    var g := ReadLines(f, lines);
    assert (lines + [""])[..|lines|] == lines;
    assert [""][1..] == [];
    RunConcat(f, lines, [""]);
  }

  /** Main result: cutting at double line feeds is reading line by line and dispatching at blank lines. */
  lemma {:induction false} CutIsLineByLine(s: string)
    ensures Run(NO_FIELDS, Lines(s)).events == Cut(s).events
    ensures Run(NO_FIELDS, Lines(s)).fields == Run(NO_FIELDS, Lines(Cut(s).rest)).fields
    decreases |s|
  {
    if FindBlank(s).Some? {
      var block, rest := BlockOf(s);
      CutStep(block, rest);
      CutIsLineByLine(rest);
      assert DoubleAt(block, |block| - 2);
      LinesConcat(block, rest);
      BlockLineByLine(block);
      RunConcat(NO_FIELDS, Lines(block), Lines(rest));
    } else {
      QuietText(s);
    }
  }

  // ----- The interpreter of sections 9.2.5 and 9.2.6 of the WHATWG HTML Standard -----

  /** Terminated lines, where a line ends at CR LF, LF or CR. */
  function StandardLines(s: string): seq<string>
    decreases |s|
  {
    var n := StandardLineEnd(s);
    if n == |s| then []
    else if "\r\n" <= s[n..] then [s[..n]] + StandardLines(s[n + 2..])
    else [s[..n]] + StandardLines(s[n + 1..])
  }

  function StandardLineEnd(s: string): (n: nat)
    ensures n <= |s| && forall i | 0 <= i < n :: s[i] != '\n' && s[i] != '\r'
    ensures n < |s| ==> s[n] == '\n' || s[n] == '\r'
  {
    if s == "" || s[0] == '\n' || s[0] == '\r' then 0 else 1 + StandardLineEnd(s[1..])
  }

  /** The data buffer and the event type buffer. */
  datatype Buffers = Buffers(event: string, data: string)

  function Colon(line: string): (n: nat)
    ensures n <= |line| && ':' !in line[..n]
    ensures n < |line| ==> line[n] == ':'
  {
    if line == "" || line[0] == ':' then 0
    else
      var n := 1 + Colon(line[1..]);
      assert line[..n] == [line[0]] + line[1..][..n - 1];
      n
  }

  function Field(b: Buffers, name: string, value: string): Buffers {
    if name == "event" then b.(event := value)
    else if name == "data" then b.(data := b.data + value + "\n")
    else b
  }

  function StandardField(b: Buffers, line: string): Buffers {
    var n := Colon(line);
    if n == 0 && line != "" then b
    else if n < |line| then Field(b, line[..n], StripSpace(line[n + 1..]))
    else Field(b, line, "")
  }

  function Dispatch(b: Buffers): seq<Event> {
    if b.data == "" then []
    else
      var data := if b.data[|b.data| - 1] == '\n' then b.data[..|b.data| - 1] else b.data;
      [Event(if b.event == "" then "message" else b.event, data)]
  }

  /** The events of a stream read by the standard, from given buffers. */
  function Standard(b: Buffers, lines: seq<string>): seq<Event>
    decreases |lines|
  {
    if lines == [] then []
    else if lines[0] == "" then Dispatch(b) + Standard(Buffers("", ""), lines[1..])
    else Standard(StandardField(b, lines[0]), lines[1..])
  }

  /** The lines on which the parser follows the standard. */
  predicate Intended(line: string) {
    && line != "event" && line != "data"
    && ("event:" <= line ==>
          var value := StripSpace(line[6..]);
          TrimStart(line[6..]) == if value == "" then "message" else value)
  }

  function Terminated(parts: seq<string>): string {
    if parts == [] then ""
    else Terminated(parts[..|parts| - 1]) + parts[|parts| - 1] + "\n"
  }

  /** The parser's fields and the standard's buffers stand for the same event. */
  predicate Same(f: Fields, b: Buffers) {
    && f.event == (if b.event == "" then "message" else b.event)
    && b.data == Terminated(f.data)
  }

  lemma {:induction false} ColonIs(line: string, n: nat)
    requires n < |line| && line[n] == ':' && ':' !in line[..n]
    ensures Colon(line) == n
  {
    var c := Colon(line);
  }

  lemma ColonPrefix(line: string, n: nat, name: string)
    requires n < |line| && line[n] == ':'
    ensures line[..n] == name ==> name + ":" <= line
  {
    assert line[..n + 1] == line[..n] + ":";
  }

  /** What the standard makes of a line, by the parser's two prefixes. */
  lemma StandardFieldCases(b: Buffers, line: string)
    requires line != ""
    ensures "event:" <= line ==> StandardField(b, line) == b.(event := StripSpace(line[6..]))
    ensures "data:" <= line ==> StandardField(b, line) == b.(data := b.data + StripSpace(line[5..]) + "\n")
    ensures line == "event" ==> StandardField(b, line) == b.(event := "")
    ensures line == "data" ==> StandardField(b, line) == b.(data := b.data + "\n")
    ensures !("event:" <= line) && !("data:" <= line) && line != "event" && line != "data"
            ==> StandardField(b, line) == b
  {
    var n := Colon(line);
    if "event:" <= line {
      assert line[..5] == "event";
      ColonIs(line, 5);
    } else if "data:" <= line {
      assert line[..4] == "data";
      ColonIs(line, 4);
    } else if n < |line| {
      ColonPrefix(line, n, "event");
      ColonPrefix(line, n, "data");
    } else {
      assert line[..n] == line;
    }
  }

  /** A line is one the parser reads as the standard does, in every state, exactly when it is intended. */
  lemma AgreesIffIntended(line: string)
    requires line != ""
    ensures Intended(line)
       <==> forall f, b :: Same(f, b) ==> Same(ReadLine(f, line), StandardField(b, line))
  {
    if Intended(line) {
      forall f, b | Same(f, b) ensures Same(ReadLine(f, line), StandardField(b, line)) {
        IntendedAgrees(f, b, line);
      }
    } else {
      var f, b := Fields("x", []), Buffers("x", "");
      StandardFieldCases(b, line);
      assert Same(f, b) && !Same(ReadLine(f, line), StandardField(b, line));
    }
  }

  lemma IntendedAgrees(f: Fields, b: Buffers, line: string)
    requires line != "" && Intended(line) && Same(f, b)
    ensures Same(ReadLine(f, line), StandardField(b, line))
  {
    StandardFieldCases(b, line);
    if "data:" <= line && !("event:" <= line) {
      var value := StripSpace(line[5..]);
      assert (f.data + [value])[..|f.data|] == f.data;
    }
  }

  lemma {:induction false} TerminatedIsJoin(parts: seq<string>)
    requires parts != []
    ensures Terminated(parts) == Join(parts) + "\n"
  {
    if |parts| > 1 {
      TerminatedIsJoin(parts[1..]);
      TerminatedCons(parts[0], parts[1..]);
      assert parts == [parts[0]] + parts[1..];
    } else {
      assert parts[..0] == [];
    }
  }

  lemma {:induction false} TerminatedCons(first: string, parts: seq<string>)
    ensures Terminated([first] + parts) == first + "\n" + Terminated(parts)
  {
    if parts != [] {
      var n := |parts| - 1;
      assert ([first] + parts)[..n + 1] == [first] + parts[..n];
      TerminatedCons(first, parts[..n]);
    } else {
      assert ([first] + parts)[..0] == [];
    }
  }

  lemma DispatchAgrees(f: Fields, b: Buffers)
    requires Same(f, b)
    ensures Dispatch(b) == Emit(f)
  {
    if f.data != [] {
      TerminatedIsJoin(f.data);
      var n := |b.data| - 1;
      assert b.data[n] == '\n' && b.data[..n] == Join(f.data);
    }
  }

  lemma {:induction false} RunIsStandard(f: Fields, b: Buffers, lines: seq<string>)
    requires Same(f, b) && forall l | l in lines :: Intended(l)
    ensures Run(f, lines).events == Standard(b, lines)
    decreases |lines|
  {
    if lines != [] {
      if lines[0] == "" {
        DispatchAgrees(f, b);
        RunIsStandard(NO_FIELDS, Buffers("", ""), lines[1..]);
      } else {
        IntendedAgrees(f, b, lines[0]);
        RunIsStandard(ReadLine(f, lines[0]), StandardField(b, lines[0]), lines[1..]);
      }
    }
  }

  /** Every CR is half of a CR LF. */
  predicate NoLoneCr(s: string) {
    forall i | 0 <= i < |s| :: s[i] == '\r' ==> i + 1 < |s| && s[i + 1] == '\n'
  }

  lemma {:induction false} StripCrKeeps(s: string)
    requires '\r' !in s
    ensures StripCr(s) == s
  {
    if s != "" {
      StripCrKeeps(s[1..]);
    }
  }

  lemma NoLoneCrTail(s: string, k: nat)
    requires NoLoneCr(s) && k <= |s|
    ensures NoLoneCr(s[k..])
  {
    forall i | 0 <= i < |s[k..]| && s[k..][i] == '\r' ensures i + 1 < |s[k..]| && s[k..][i + 1] == '\n' {
      assert s[k + i] == '\r';
    }
  }

  /** `s` is a line free of line ends, its line end, and a rest; stripping keeps the line. */
  lemma {:induction false} StripFirstLine(line: string, end: string, rest: string)
    requires '\r' !in line && '\n' !in line && (end == "\n" || end == "\r\n")
    ensures Lines(StripCr(line + end + rest)) == [line] + Lines(StripCr(rest))
  {
    StripCrConcat(line + end, rest);
    StripCrConcat(line, end);
    StripCrKeeps(line);
    assert StripCr(end) == "\n" by {
      assert end[1..] == "" || end[1..] == "\n";
      StripCrKeeps("\n");
    }
    LinesCons(line, StripCr(rest));
  }

  /** The standard's first line, its line end, and the rest. */
  lemma StandardFirstLine(s: string) returns (line: string, end: string, rest: string)
    requires NoLoneCr(s) && StandardLineEnd(s) < |s|
    ensures '\r' !in line && '\n' !in line && (end == "\n" || end == "\r\n") && s == line + end + rest
    ensures StandardLines(s) == [line] + StandardLines(rest)
  {
    var n := StandardLineEnd(s);
    line := s[..n];
    if s[n] == '\r' {
      end, rest := "\r\n", s[n + 2..];
      assert s[n..] == end + rest;
    } else {
      end, rest := "\n", s[n + 1..];
      assert s[n..][0] != '\r' && s[n..] == end + rest;
    }
    assert s == s[..n] + s[n..];
    ConcatAssociates(line, end, rest);
  }

  /** Dropping every CR finds the standard's lines, as long as each CR belongs to a CR LF. */
  lemma {:induction false} LinesAreStandard(s: string)
    requires NoLoneCr(s)
    ensures Lines(StripCr(s)) == StandardLines(s)
    decreases |s|
  {
    if StandardLineEnd(s) == |s| {
      StripCrKeeps(s);
      assert s[..|s|] == s;
      LineEndIs(s, |s|);
    } else {
      var line, end, rest := StandardFirstLine(s);
      assert s[|line| + |end|..] == rest;
      NoLoneCrTail(s, |line| + |end|);
      LinesAreStandard(rest);
      StripFirstLine(line, end, rest);
    }
  }

  /**
   * Main result: a stream whose lines are all intended and whose CRs all belong to line ends yields, in
   * whatever chunks it arrives, exactly the events the standard's interpreter dispatches.
   */
  lemma {:induction false} FollowsStandard(chunks: seq<string>)
    requires NoLoneCr(Concat(chunks))
    requires forall l | l in StandardLines(Concat(chunks)) :: Intended(l)
    ensures FeedAll("", chunks).events == Standard(Buffers("", ""), StandardLines(Concat(chunks)))
  {
    var s := Concat(chunks);
    ChunkInvariance("", chunks);
    assert "" + StripCr(s) == StripCr(s);
    CutIsLineByLine(StripCr(s));
    LinesAreStandard(s);
    RunIsStandard(NO_FIELDS, Buffers("", ""), StandardLines(s));
  }
}
