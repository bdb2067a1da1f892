/** Printing events for the stream and parsing them back. */
module SsePrint {
  import opened Prelude
  import opened Sse
  import opened SseStandard

  /** A block of the stream: comment lines, and a message or nothing. */
  datatype Block =
    | Message(comments: seq<string>, event: Event)
    | Comments(first: string, more: seq<string>)

  function Split(data: string): seq<string>
    ensures Split(data) != []
    decreases |data|
  {
    var n := LineEnd(data);
    if n == |data| then [data] else [data[..n]] + Split(data[n + 1..])
  }

  function CommentLines(comments: seq<string>): seq<string> {
    seq(|comments|, i requires 0 <= i < |comments| => ":" + comments[i])
  }

  function DataLines(parts: seq<string>): seq<string> {
    seq(|parts|, i requires 0 <= i < |parts| => "data: " + parts[i])
  }

  function BlockLines(b: Block): seq<string> {
    match b
    case Message(comments, event) =>
      CommentLines(comments) + ["event: " + event.name] + DataLines(Split(event.data))
    case Comments(first, more) => CommentLines([first] + more)
  }

  function Print(blocks: seq<Block>): string {
    if blocks == [] then "" else Terminated(BlockLines(blocks[0])) + "\n" + Print(blocks[1..])
  }

  function Events(blocks: seq<Block>): seq<Event> {
    if blocks == [] then []
    else (if blocks[0].Message? then [blocks[0].event] else []) + Events(blocks[1..])
  }

  predicate OneLine(s: string) {
    '\n' !in s && '\r' !in s
  }

  /** What a printed message must keep to: a one-line name without leading whitespace, and data without CR. */
  predicate Printable(e: Event) {
    && OneLine(e.name) && (e.name == "" || !IsWhitespace(e.name[0]))
    && '\r' !in e.data
  }

  predicate PrintableBlock(b: Block) {
    match b
    case Message(comments, event) => Printable(event) && forall c | c in comments :: OneLine(c)
    case Comments(first, more) => OneLine(first) && forall c | c in more :: OneLine(c)
  }

  // ----- Parsing a printed block -----

  lemma {:induction false} SplitParts(data: string)
    ensures Join(Split(data)) == data
    ensures forall p | p in Split(data) :: '\n' !in p
    ensures '\r' !in data ==> forall p | p in Split(data) :: '\r' !in p
    decreases |data|
  {
    var n := LineEnd(data);
    if n == |data| {
      assert data[..n] == data;
    } else {
      SplitParts(data[n + 1..]);
      assert data == data[..n] + "\n" + data[n + 1..];
    }
  }

  /** Lines without line feeds come back from the text that ends each of them with one. */
  lemma {:induction false} LinesOfTerminated(lines: seq<string>)
    requires forall l | l in lines :: '\n' !in l
    ensures Lines(Terminated(lines)) == lines
    ensures lines != [] ==> Terminated(lines) != "" && Terminated(lines)[|Terminated(lines)| - 1] == '\n'
  {
    if lines != [] {
      LinesOfTerminated(lines[1..]);
      assert lines == [lines[0]] + lines[1..];
      TerminatedCons(lines[0], lines[1..]);
      LinesCons(lines[0], Terminated(lines[1..]));
    }
  }

  /** No double line feed inside the text of non-empty lines, and none at its start. */
  lemma {:induction false} NoDoubleInside(lines: seq<string>)
    requires forall l | l in lines :: '\n' !in l && l != ""
    ensures forall q :: !DoubleAt(Terminated(lines), q)
    ensures Terminated(lines) != "" ==> Terminated(lines)[0] != '\n'
  {
    if lines != [] {
      var line, rest := lines[0], Terminated(lines[1..]);
      assert line in lines && forall l | l in lines[1..] :: l in lines;
      NoDoubleInside(lines[1..]);
      assert lines == [line] + lines[1..];
      TerminatedCons(line, lines[1..]);
      var s := line + "\n" + rest;
      forall q ensures !DoubleAt(s, q) {
        if 0 <= q < |line| {
          assert s[q] == line[q];
        } else if q > |line| {
          assert DoubleAt(s, q) ==> DoubleAt(rest, q - |line| - 1);
        }
      }
    }
  }

  lemma {:induction false} CutPrinted(lines: seq<string>, rest: string)
    requires lines != [] && forall l | l in lines :: '\n' !in l && l != ""
    ensures Cut(Terminated(lines) + "\n" + rest)
         == Parsed(Emit(ReadLines(NO_FIELDS, lines)), rest).Then(Cut(rest))
  {
    var block := Terminated(lines) + "\n";
    assert |block| >= 2 && FindBlank(block) == Some(|block| - 2) by { PrintedBlank(lines); }
    CutStep(block, rest);
    assert ParseBlock(block) == Emit(ReadLines(NO_FIELDS, lines)) by { PrintedLines(lines); }
  }

  lemma {:induction false} PrintedBlank(lines: seq<string>)
    requires lines != [] && forall l | l in lines :: '\n' !in l && l != ""
    ensures var block := Terminated(lines) + "\n"; |block| >= 2 && FindBlank(block) == Some(|block| - 2)
  {
    var text := Terminated(lines);
    var block := text + "\n";
    NoDoubleInside(lines);
    LinesOfTerminated(lines);
    assert forall q | q < |block| - 2 :: DoubleAt(block, q) ==> DoubleAt(text, q);
    FindBlankIs(block, |block| - 2);
  }

  lemma {:induction false} PrintedLines(lines: seq<string>)
    requires lines != [] && forall l | l in lines :: '\n' !in l && l != ""
    ensures ReadLines(NO_FIELDS, Lines(Terminated(lines) + "\n")) == ReadLines(NO_FIELDS, lines)
  {
    LinesOfTerminated(lines);
    LinesConcat(Terminated(lines), "\n");
    assert Lines("\n") == [""] by {
      assert "" + "\n" + "" == "\n";
      LinesCons("", "");
    }
    assert (lines + [""])[..|lines|] == lines;
  }

  lemma {:induction false} CommentsIgnored(f: Fields, comments: seq<string>)
    ensures ReadLines(f, CommentLines(comments)) == f
  {
    if comments != [] {
      var n := |comments| - 1;
      assert CommentLines(comments)[..n] == CommentLines(comments[..n]);
      CommentsIgnored(f, comments[..n]);
      assert (":" + comments[n])[0] == ':';
    }
  }

  lemma {:induction false} DataRead(f: Fields, parts: seq<string>)
    ensures ReadLines(f, DataLines(parts)) == f.(data := f.data + parts)
  {
    if parts != [] {
      var n := |parts| - 1;
      assert DataLines(parts)[..n] == DataLines(parts[..n]);
      DataRead(f, parts[..n]);
      DataLineRead(f.(data := f.data + parts[..n]), parts[n]);
      assert parts == parts[..n] + [parts[n]];
    }
  }

  lemma DataLineRead(f: Fields, part: string)
    ensures ReadLine(f, "data: " + part) == f.(data := f.data + [part])
  {
    var line := "data: " + part;
    assert line[0] == 'd' && line[..5] == "data:";
    assert line[5..] == " " + part && (" " + part)[1..] == part;
  }

  lemma EventLineRead(f: Fields, name: string)
    requires name == "" || !IsWhitespace(name[0])
    ensures ReadLine(f, "event: " + name) == f.(event := name)
  {
    var line := "event: " + name;
    assert line[..6] == "event:" && IsWhitespace(' ') && TrimStart(name) == name;
    assert line[6..] == " " + name && (" " + name)[1..] == name;
  }

  /** Reading a printed block gives its event back. */
  lemma BlockRead(b: Block)
    requires PrintableBlock(b)
    ensures Emit(ReadLines(NO_FIELDS, BlockLines(b))) == if b.Message? then [b.event] else []
  {
    match b {
      case Message(comments, event) =>
        var named := NO_FIELDS.(event := event.name);
        var head := CommentLines(comments) + ["event: " + event.name];
        CommentsIgnored(NO_FIELDS, comments);
        EventLineRead(NO_FIELDS, event.name);
        assert head[..|comments|] == CommentLines(comments);
        ReadLinesConcat(NO_FIELDS, head, DataLines(Split(event.data)));
        DataRead(named, Split(event.data));
        SplitParts(event.data);
        assert [] + Split(event.data) == Split(event.data);
      case Comments(first, more) =>
        CommentsIgnored(NO_FIELDS, [first] + more);
    }
  }

  lemma CommentsAreLines(comments: seq<string>)
    requires forall c | c in comments :: OneLine(c)
    ensures forall l | l in CommentLines(comments) :: OneLine(l) && l != ""
  {
    forall i | 0 <= i < |comments| ensures OneLine(CommentLines(comments)[i]) {
      assert OneLine(comments[i]) && CommentLines(comments)[i] == ":" + comments[i];
    }
  }

  lemma BlockLinesAreLines(b: Block)
    requires PrintableBlock(b)
    ensures BlockLines(b) != [] && forall l | l in BlockLines(b) :: OneLine(l) && l != ""
  {
    match b {
      case Message(comments, event) =>
        SplitParts(event.data);
        CommentsAreLines(comments);
      case Comments(first, more) =>
        CommentsAreLines([first] + more);
    }
  }

  lemma {:induction false} TerminatedCrFree(lines: seq<string>)
    requires forall l | l in lines :: '\r' !in l
    ensures '\r' !in Terminated(lines)
  {
    if lines != [] {
      assert lines[|lines| - 1] in lines;
      TerminatedCrFree(lines[..|lines| - 1]);
    }
  }

  lemma {:induction false} CutOfPrint(blocks: seq<Block>)
    requires forall b | b in blocks :: PrintableBlock(b)
    ensures Cut(Print(blocks)) == Parsed(Events(blocks), "")
    ensures '\r' !in Print(blocks)
  {
    if blocks != [] {
      var lines, rest := BlockLines(blocks[0]), Print(blocks[1..]);
      BlockLinesAreLines(blocks[0]);
      CutOfPrint(blocks[1..]);
      CutPrinted(lines, rest);
      BlockRead(blocks[0]);
      TerminatedCrFree(lines);
    }
  }

  lemma {:induction false} FeedEmpty(s: string)
    requires '\r' !in s
    ensures Feed("", s) == Cut(s)
  {
    StripCrKeeps(s);
    assert "" + s == s;
  }

  /** Main result: printed events, with comments anywhere between them, parse back with nothing left over. */
  lemma {:induction false} RoundTrip(blocks: seq<Block>)
    requires forall b | b in blocks :: PrintableBlock(b)
    ensures Feed("", Print(blocks)) == Parsed(Events(blocks), "")
  {
    CutOfPrint(blocks);
    FeedEmpty(Print(blocks));
  }

  // ----- Only printable events are ever emitted -----

  predicate ReadFields(f: Fields) {
    && OneLine(f.event) && (f.event == "" || !IsWhitespace(f.event[0]))
    && forall d | d in f.data :: '\r' !in d
  }

  lemma {:induction false} TrimmedPart(s: string, c: char)
    requires c !in s
    ensures c !in TrimStart(s)
  {
    if s != "" && IsWhitespace(s[0]) {
      TrimmedPart(s[1..], c);
    }
  }

  lemma {:induction false} ReadLinesPrintable(lines: seq<string>)
    requires forall l | l in lines :: OneLine(l)
    ensures ReadFields(ReadLines(NO_FIELDS, lines))
  {
    if lines != [] {
      var n := |lines| - 1;
      ReadLinesPrintable(lines[..n]);
      var line := lines[n];
      assert line in lines;
      if "event:" <= line {
        TrimmedPart(line[6..], '\r');
        TrimmedPart(line[6..], '\n');
      }
    }
  }

  lemma {:induction false} LinesOneLine(s: string)
    requires '\r' !in s
    ensures forall l | l in Lines(s) :: OneLine(l)
    decreases |s|
  {
    var n := LineEnd(s);
    if n < |s| {
      LinesOneLine(s[n + 1..]);
    }
  }

  lemma {:induction false} JoinCrFree(parts: seq<string>)
    requires forall p | p in parts :: '\r' !in p
    ensures '\r' !in Join(parts)
  {
    if |parts| > 1 {
      JoinCrFree(parts[1..]);
    }
  }

  lemma {:induction false} EmittedPrintable(buf: string)
    requires '\r' !in buf
    ensures forall e | e in Cut(buf).events :: Printable(e)
    decreases |buf|
  {
    if FindBlank(buf).Some? {
      var block, rest := BlockOf(buf);
      CutStep(block, rest);
      EmittedPrintable(rest);
      LinesOneLine(block);
      ReadLinesPrintable(Lines(block));
      JoinCrFree(ReadLines(NO_FIELDS, Lines(block)).data);
    }
  }

  /** A printed message comes back as itself exactly when it is printable. */
  lemma RoundTripsIffPrintable(e: Event)
    ensures Feed("", Print([Message([], e)])) == Parsed([e], "") <==> Printable(e)
  {
    var blocks := [Message([], e)];
    if Printable(e) {
      assert blocks[1..] == [];
      RoundTrip(blocks);
    }
    var text := StripCr(Print(blocks));
    StripCrRemoves(Print(blocks));
    EmittedPrintable("" + text);
    assert e in [e];
  }
}
