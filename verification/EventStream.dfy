/**
 * Server-sent events off a text that arrives in chunks: one `data:` payload per event, a subset of the WHATWG
 * HTML Standard, sections 9.2.5 and 9.2.6. The payload's JSON is left as text.
 */
module EventStream {
  import opened Texts

  const DONE := "[DONE]"
  const DATA := "data:"

  /** The first blank line at position i or later; none when there is none yet. */
  function BlankLine(text: string, i: nat): (r: int)
    requires i <= |text|
    ensures r == -1 || i <= r <= |text| - 2
    decreases |text| - i
  {
    if i + 1 >= |text| then -1 else if text[i] == text[i + 1] == '\n' then i else BlankLine(text, i + 1)
  }

  predicate IsBlankLine(text: string, k: nat) { k + 1 < |text| && text[k] == text[k + 1] == '\n' }

  /** It finds the first one: a blank line with none before it, or none in the whole text. */
  lemma {:induction false} BlankLineIsFirst(text: string, i: nat)
    requires i <= |text|
    ensures BlankLine(text, i) == -1 ==> forall k: nat | i <= k :: !IsBlankLine(text, k)
    ensures BlankLine(text, i) != -1 ==>
              IsBlankLine(text, BlankLine(text, i)) && forall k: nat | i <= k < BlankLine(text, i) :: !IsBlankLine(text, k)
    decreases |text| - i
  {
    if i + 1 < |text| && !(text[i] == text[i + 1] == '\n') {
      BlankLineIsFirst(text, i + 1);
    }
  }

  /** The `data:` lines of a block, without the field name and the white space after it. */
  function DataLines(lines: seq<string>): seq<string> {
    if lines == [] then [] else
      (if DATA <= lines[0] then [TrimStart(lines[0][|DATA|..])] else []) + DataLines(lines[1..])
  }

  function DataOf(block: string): string {
    Join(DataLines(Split(block, '\n')), "\n")
  }

  /** The event of a block: none when it carries no data, or the mark that ends the stream. */
  function EventOf(block: string): seq<string> {
    if DataOf(block) != "" && DataOf(block) != DONE then [DataOf(block)] else []
  }

  /** The finished blocks of a text: what stands before each blank line. */
  function Blocks(text: string): seq<string> {
    var end := BlankLine(text, 0);
    if end == -1 then [] else [text[..end]] + Blocks(text[end + 2..])
  }

  function EachOf<T, R>(s: seq<T>, f: T -> seq<R>): seq<R> {
    if s == [] then [] else f(s[0]) + EachOf(s[1..], f)
  }

  /** The events of a whole text: split at blank lines, each block read on its own, the unfinished tail dropped. */
  function Events(text: string): seq<string> { EachOf(Blocks(text), EventOf) }

  /** What is left of a text once its finished blocks were read. */
  function Tail(text: string): string {
    var end := BlankLine(text, 0);
    if end == -1 then text else Tail(text[end + 2..])
  }

  function Concat(chunks: seq<string>): string {
    if chunks == [] then "" else Concat(chunks[..|chunks| - 1]) + chunks[|chunks| - 1]
  }

  // ─── Cutting the text anywhere changes nothing ───────────

  lemma {:induction false} BlankLineExtends(text: string, more: string, i: nat)
    requires i <= |text|
    ensures BlankLine(text, i) != -1 ==> BlankLine(text + more, i) == BlankLine(text, i)
    decreases |text| - i
  {
    if i + 1 < |text| && !(text[i] == text[i + 1] == '\n') {
      BlankLineExtends(text, more, i + 1);
    }
  }

  /** What follows a text does not change its first block, and comes after what was left of it. */
  lemma FirstBlockStays(text: string, more: string)
    requires BlankLine(text, 0) != -1
    ensures var end := BlankLine(text, 0);
            && BlankLine(text + more, 0) == end
            && (text + more)[..end] == text[..end]
            && (text + more)[end + 2..] == text[end + 2..] + more
  {
    BlankLineExtends(text, more, 0);
  }

  lemma FirstBlock(text: string)
    requires BlankLine(text, 0) != -1
    ensures var end := BlankLine(text, 0);
            Blocks(text) == [text[..end]] + Blocks(text[end + 2..])
  {
  }

  lemma TailAfterFirst(text: string)
    requires BlankLine(text, 0) != -1
    ensures Tail(text) == Tail(text[BlankLine(text, 0) + 2..])
  {
  }

  lemma Regroup<T>(a: seq<T>, b: seq<T>, c: seq<T>)
    ensures a + (b + c) == (a + b) + c
  {
  }

  lemma {:induction false} BlocksContinue(text: string, more: string)
    ensures Blocks(text + more) == Blocks(text) + Blocks(Tail(text) + more)
    decreases |text|
  {
    var end := BlankLine(text, 0);
    if end == -1 {
      assert Blocks(text) == [] && Tail(text) == text;
    } else {
      var rest := text[end + 2..];
      FirstBlock(text);
      TailAfterFirst(text);
      FirstBlockStays(text, more);
      FirstBlock(text + more);
      BlocksContinue(rest, more);
      Regroup([text[..end]], Blocks(rest), Blocks(Tail(rest) + more));
    }
  }

  lemma EachOfFirst<T, R>(x: T, rest: seq<T>, f: T -> seq<R>)
    ensures EachOf([x] + rest, f) == f(x) + EachOf(rest, f)
  {
    assert ([x] + rest)[1..] == rest;
  }

  lemma {:induction false} EachOfBoth<T, R>(a: seq<T>, b: seq<T>, f: T -> seq<R>)
    ensures EachOf(a + b, f) == EachOf(a, f) + EachOf(b, f)
  {
    if a == [] {
      assert a + b == b;
    } else {
      assert (a + b)[0] == a[0] && (a + b)[1..] == a[1..] + b;
      EachOfBoth(a[1..], b, f);
    }
  }

  /** Reading a text and then what follows it is reading both at once: only the unfinished tail is carried over. */
  lemma EventsContinue(text: string, more: string)
    ensures Events(text + more) == Events(text) + Events(Tail(text) + more)
  {
    BlocksContinue(text, more);
    EachOfBoth(Blocks(text), Blocks(Tail(text) + more), EventOf);
  }

  lemma EachOfBlocks<R>(text: string, f: string -> seq<R>)
    requires BlankLine(text, 0) != -1
    ensures var end := BlankLine(text, 0);
            EachOf(Blocks(text), f) == f(text[..end]) + EachOf(Blocks(text[end + 2..]), f)
  {
    var end := BlankLine(text, 0);
    FirstBlock(text);
    EachOfFirst(text[..end], Blocks(text[end + 2..]), f);
  }

  lemma EventsStep(text: string)
    requires BlankLine(text, 0) != -1
    ensures var end := BlankLine(text, 0);
            Events(text) == EventOf(text[..end]) + Events(text[end + 2..])
  {
    EachOfBlocks(text, EventOf);
  }

  lemma {:induction false} TailContinues(text: string, more: string)
    ensures Tail(text + more) == Tail(Tail(text) + more)
    decreases |text|
  {
    var end := BlankLine(text, 0);
    if end != -1 {
      FirstBlockStays(text, more);
      TailAfterFirst(text);
      TailAfterFirst(text + more);
      TailContinues(text[end + 2..], more);
    }
  }

  lemma ChunkRead(chunks: seq<string>, n: nat)
    requires n < |chunks|
    ensures var buffer := Tail(Concat(chunks[..n])) + chunks[n];
            && Events(Concat(chunks[..n + 1])) == Events(Concat(chunks[..n])) + Events(buffer)
            && Tail(Concat(chunks[..n + 1])) == Tail(buffer)
  {
    assert chunks[..n + 1][..n] == chunks[..n];
    EventsContinue(Concat(chunks[..n]), chunks[n]);
    TailContinues(Concat(chunks[..n]), chunks[n]);
  }

  lemma NothingLeft(buffer: string)
    requires BlankLine(buffer, 0) == -1
    ensures Events(buffer) == [] && Tail(buffer) == buffer
  {
  }

  lemma ReadBlock(buffer: string, read: seq<string>)
    requires BlankLine(buffer, 0) != -1
    ensures var end := BlankLine(buffer, 0);
            && read + Events(buffer) == (read + EventOf(buffer[..end])) + Events(buffer[end + 2..])
            && Tail(buffer) == Tail(buffer[end + 2..])
  {
    var end := BlankLine(buffer, 0);
    EventsStep(buffer);
    TailAfterFirst(buffer);
    Regroup(read, EventOf(buffer[..end]), Events(buffer[end + 2..]));
  }

  /** Reads the finished blocks off the buffer, and returns what is left of it. */
  method ReadBlocks(text: string) returns (events: seq<string>, buffer: string)
    ensures events == Events(text) && buffer == Tail(text)
    ensures BlankLine(buffer, 0) == -1
  {
    events, buffer := [], text;
    var end := BlankLine(buffer, 0);
    while end >= 0
      invariant end == BlankLine(buffer, 0)
      invariant Events(text) == events + Events(buffer) && Tail(text) == Tail(buffer)
      decreases |buffer|
    {
      ReadBlock(buffer, events);
      var chunk := buffer[..end];
      buffer := buffer[end + 2..];
      var data := DataOf(chunk);
      ghost var read := events + EventOf(chunk);
      if data != "" && data != DONE {
        events := events + [data];
        assert events == read;
      } else {
        assert events == read;
      }
      end := BlankLine(buffer, 0);
    }
    NothingLeft(buffer);
    assert events + [] == events;
  }

  /**
   * The reader of the stream. However the text is cut into chunks it yields the events of the whole text, and after
   * each chunk it has yielded those of the text so far.
   */
  method ReadEvents(chunks: seq<string>) returns (events: seq<string>)
    ensures events == Events(Concat(chunks))
  {
    events := [];
    var buffer := "";
    assert chunks[..0] == [];
    for n := 0 to |chunks|
      invariant events == Events(Concat(chunks[..n])) && buffer == Tail(Concat(chunks[..n]))
    {
      ChunkRead(chunks, n);
      var read, rest := ReadBlocks(buffer + chunks[n]);
      events, buffer := events + read, rest;
    }
    assert chunks[..|chunks|] == chunks;
  }

  /** What was yielded early is never taken back: it is the beginning of what the longer text yields. */
  lemma EarlierEventsStay(text: string, more: string)
    ensures Events(text) <= Events(text + more)
  {
    EventsContinue(text, more);
  }

  // ─── Printing and reading back ───────────────────────────

  /** One line of a block: a payload after "data:", whatever it is, or nothing of the event. */
  lemma LineOfData(line: string, payload: string)
    ensures DataLines(["data:" + payload]) == [TrimStart(payload)]
    ensures !("data:" <= line) ==> DataLines([line]) == []
  {
    assert ("data:" + payload)[5..] == payload;
  }

  function DataOfEach(payloads: seq<string>): seq<string> {
    if payloads == [] then [] else ["data:" + payloads[0]] + DataOfEach(payloads[1..])
  }

  function TrimEach(payloads: seq<string>): seq<string> {
    if payloads == [] then [] else [TrimStart(payloads[0])] + TrimEach(payloads[1..])
  }

  lemma {:induction false} DataLinesOfEach(payloads: seq<string>)
    ensures DataLines(DataOfEach(payloads)) == TrimEach(payloads)
  {
    if payloads != [] {
      var line, rest := "data:" + payloads[0], DataOfEach(payloads[1..]);
      DataLinesOfEach(payloads[1..]);
      assert line[5..] == payloads[0];
      assert ([line] + rest)[1..] == rest;
    }
  }

  lemma {:induction false} DataHasNoBreak(payloads: seq<string>)
    requires Without(payloads, '\n')
    ensures Without(DataOfEach(payloads), '\n') && (payloads != [] ==> DataOfEach(payloads) != [])
  {
    if payloads != [] {
      var rest := DataOfEach(payloads[1..]);
      DataHasNoBreak(payloads[1..]);
      assert '\n' !in payloads[0];
      forall i | 0 <= i < |DataOfEach(payloads)|
        ensures '\n' !in DataOfEach(payloads)[i]
      {
        assert i > 0 ==> DataOfEach(payloads)[i] == rest[i - 1];
      }
    }
  }

  /** An event sent over several data lines reads as their payloads, one under the other. */
  lemma LinesReadTogether(payloads: seq<string>)
    requires payloads != [] && Without(payloads, '\n')
    ensures DataOf(Join(DataOfEach(payloads), "\n")) == Join(TrimEach(payloads), "\n")
  {
    DataHasNoBreak(payloads);
    SplitJoins(DataOfEach(payloads), '\n');
    DataLinesOfEach(payloads);
  }

  /** One event as the controller writes it. */
  function Emit(name: string, payload: string): string {
    "event: " + name + "\ndata: " + payload + "\n\n"
  }

  datatype Sent = Sent(name: string, payload: string)

  function Print(sent: seq<Sent>): string {
    if sent == [] then "" else Emit(sent[0].name, sent[0].payload) + Print(sent[1..])
  }

  function Payloads(sent: seq<Sent>): seq<string> {
    if sent == [] then [] else [sent[0].payload] + Payloads(sent[1..])
  }

  /** The names are the program's own; a payload is one line, as JSON text is. */
  predicate OneLine(s: Sent) { '\n' !in s.name && '\n' !in s.payload }

  /** A payload that reads back as itself: not empty, not the end mark, not led by white space. JSON objects all are. */
  predicate Plain(payload: string) { payload != "" && payload != "[DONE]" && !IsBlank(payload[0]) }

  function Block(s: Sent): string {
    ("event: " + s.name) + "\n" + ("data: " + s.payload)
  }

  /** The blank line an emitted event ends with is its first one. */
  lemma EmitEndsAtItsBlankLine(s: Sent, rest: string)
    requires OneLine(s)
    ensures var text := Emit(s.name, s.payload) + rest;
            BlankLine(text, 0) == |Block(s)| && text[..|Block(s)|] == Block(s) && text[|Block(s)| + 2..] == rest
  {
    var text, block := Emit(s.name, s.payload) + rest, Block(s);
    assert Emit(s.name, s.payload) == block + "\n\n";
    assert text == block + ("\n\n" + rest);
    BlankLineIsFirst(text, 0);
    assert IsBlankLine(text, |block|);
    var at := |"event: " + s.name|;
    forall k | 0 <= k < |block|
      ensures !IsBlankLine(text, k)
    {
      assert block[k] == text[k] && block[at] == '\n' && block[at + 1] == 'd';
      if k < at {
        assert block[k] == ("event: " + s.name)[k];
        assert k >= 7 ==> block[k] == s.name[k - 7];
      } else if k > at {
        assert block[k] == ("data: " + s.payload)[k - at - 1];
        assert k - at - 1 >= 6 ==> block[k] == s.payload[k - at - 7];
      }
    }
  }

  /** What a printed event reads back as: its payload, less leading white space; nothing when that leaves nothing. */
  lemma EmittedBlock(s: Sent)
    requires OneLine(s)
    ensures DataOf(Block(s)) == TrimStart(s.payload)
  {
    var event, data := "event: " + s.name, "data: " + s.payload;
    assert Block(s) == event + ['\n'] + data;
    SplitAtFirst(event, data, '\n');
    SplitNone(data, '\n');
    assert Split(Block(s), '\n') == [event, data];
    assert !(DATA <= event) by { assert event[0] == 'e' && DATA[0] == 'd'; }
    assert data[..5] == DATA && data[5..] == " " + s.payload;
    assert (" " + s.payload)[1..] == s.payload;
    assert DataLines([data]) == [TrimStart(s.payload)] + DataLines([data][1..]);
    assert DataLines([event, data]) == DataLines([event, data][1..]);
    assert [event, data][1..] == [data];
  }

  predicate AllPlain(sent: seq<Sent>) {
    forall s | s in sent :: Plain(s.payload)
  }

  /**
   * A stream of one-line payloads, printed event by event, reads back as exactly those payloads when each is plain,
   * and never otherwise.
   */
  lemma {:induction false} PrintedStreamReadsBack(sent: seq<Sent>)
    requires forall s | s in sent :: OneLine(s)
    ensures |Events(Print(sent))| <= |sent|
    ensures Events(Print(sent)) == Payloads(sent) <==> AllPlain(sent)
    ensures |Payloads(sent)| == |sent|
  {
    if sent != [] {
      var s, rest := sent[0], sent[1..];
      PrintedStreamReadsBack(rest);
      EmitEndsAtItsBlankLine(s, Print(rest));
      EmittedBlock(s);
      TrimStartKeeps(s.payload);
      EventsStep(Print(sent));
      assert Events(Print(sent)) == EventOf(Block(s)) + Events(Print(rest));
      assert AllPlain(sent) <==> Plain(s.payload) && AllPlain(rest);
      if EventOf(Block(s)) == [] {
        assert !Plain(s.payload);
      } else {
        assert Events(Print(sent)) == [TrimStart(s.payload)] + Events(Print(rest));
        assert Events(Print(sent))[1..] == Events(Print(rest)) && Payloads(sent)[1..] == Payloads(rest);
        assert Events(Print(sent))[0] == TrimStart(s.payload) && Payloads(sent)[0] == s.payload;
      }
    }
  }
}
