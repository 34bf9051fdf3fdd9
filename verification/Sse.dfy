/**
 Server-sent events of the API stream: lines cut out of arbitrary network
 chunks, and the events dispatched from them (sections 9.2.5 and 9.2.6 of the
 WHATWG HTML Living Standard).
 */
module Sse {
  import opened Wrappers
  import opened Messages
  import opened Accumulators

  // ---------- lines out of chunks ----------

  /** The position of the first line feed, or the length. */
  function LineEnd(s: string): (n: nat)
    ensures n <= |s| && '\n' !in s[..n] && (n < |s| ==> s[n] == '\n')
  {
    if s == "" || s[0] == '\n' then 0
    else
      var m := LineEnd(s[1..]);
      assert s[..m + 1] == [s[0]] + s[1..][..m];
      m + 1
  }

  function DropCarriageReturn(line: string): string {
    if line != "" && line[|line| - 1] == '\r' then line[..|line| - 1] else line
  }

  /** What stands behind the line feed at n. */
  function Behind(s: string, n: nat): (rest: string)
    requires n < |s|
    ensures |rest| == |s| - n - 1
  {
    s[n + 1..]
  }

  /** The complete lines of a text, each without its line feed and one carriage return. */
  function Lines(s: string): seq<string>
    decreases |s|
  {
    var n := LineEnd(s);
    if n == |s| then [] else [DropCarriageReturn(s[..n])] + Lines(Behind(s, n))
  }

  /** What follows the last line feed. */
  function Tail(s: string): string
    decreases |s|
  {
    var n := LineEnd(s);
    if n == |s| then s else Tail(Behind(s, n))
  }

  lemma LineEndIs(s: string, n: nat)
    requires n <= |s| && '\n' !in s[..n] && (n < |s| ==> s[n] == '\n')
    ensures LineEnd(s) == n
  {
    var m := LineEnd(s);
    assert forall i :: 0 <= i < n ==> s[i] == s[..n][i];
    assert forall i :: 0 <= i < m ==> s[i] == s[..m][i];
  }

  lemma FirstOfLines(s: string, n: nat)
    requires n == LineEnd(s) && n < |s|
    ensures Lines(s) == [DropCarriageReturn(s[..n])] + Lines(Behind(s, n))
    ensures Tail(s) == Tail(Behind(s, n))
  {}

  lemma NoLine(s: string)
    requires LineEnd(s) == |s|
    ensures Lines(s) == [] && Tail(s) == s
  {}

  lemma LineEndOfConcat(a: string, b: string, n: nat)
    requires n == LineEnd(a) && n < |a|
    ensures LineEnd(a + b) == n && (a + b)[..n] == a[..n] && Behind(a + b, n) == Behind(a, n) + b
  {
    assert (a + b)[..n] == a[..n];
    LineEndIs(a + b, n);
  }

  /** Cutting lines is independent of where the text is cut: the tail is carried over. */
  lemma {:induction false} LinesOfConcat(a: string, b: string)
    ensures Lines(a + b) == Lines(a) + Lines(Tail(a) + b)
    ensures Tail(a + b) == Tail(Tail(a) + b)
    decreases |a|
  {
    var n := LineEnd(a);
    if n < |a| {
      var rest := Behind(a, n);
      LineEndOfConcat(a, b, n);
      LinesOfConcat(rest, b);
      FirstOfLines(a, n);
      FirstOfLines(a + b, n);
      Regroup([DropCarriageReturn(a[..n])], Lines(rest), Lines(Tail(rest) + b));
    } else {
      NoLine(a);
    }
  }

  lemma {:induction false} TailHasNoLine(s: string)
    ensures '\n' !in Tail(s) && Lines(Tail(s)) == [] && Tail(Tail(s)) == Tail(s)
    decreases |s|
  {
    var n := LineEnd(s);
    if n < |s| {
      TailHasNoLine(Behind(s, n));
    } else {
      assert s[..n] == s;
    }
  }

  // ---------- fields ----------

  datatype SseLine = SseLine(event: string, data: string, id: string)

  /** The part of the line behind the colon, as the parser reads it: one character skipped unseen, then one space. */
  function FieldValue(rest: string): string {
    var v := if |rest| > 1 then rest[1..] else "";
    if v != "" && v[0] == ' ' then v[1..] else v
  }

  function ParseLine(line: string): Option<SseLine> {
    if line == "" then None
    else if line[0] == ':' then None
    else if "event:" <= line then Some(SseLine(FieldValue(line[6..]), "", ""))
    else if "data:" <= line then Some(SseLine("", FieldValue(line[5..]), ""))
    else if "id:" <= line then Some(SseLine("", "", FieldValue(line[3..])))
    else None
  }

  /** The standard's rule: one leading space, if there is one, is not part of the value. */
  function StandardValue(rest: string): string {
    if rest != "" && rest[0] == ' ' then rest[1..] else rest
  }

  /**
   The parser reads a field as the standard does exactly when the colon is followed by
   nothing, or by one space and no second one.
   */
  lemma FieldValueIff(rest: string)
    ensures FieldValue(rest) == StandardValue(rest) <==>
            rest == "" || (rest[0] == ' ' && !(|rest| > 1 && rest[1] == ' '))
  {
    if rest != "" && rest[0] != ' ' {
      assert |FieldValue(rest)| < |rest|;
    }
  }

  // ---------- dispatching ----------

  /** The event type waiting for its data, and what was dispatched so far. */
  datatype Dispatch = Dispatch(eventType: string, out: seq<(string, string)>)

  function OnLine(d: Dispatch, line: string): Dispatch {
    match ParseLine(line)
    case None => d
    case Some(parsed) =>
      var t := if parsed.event != "" then parsed.event else d.eventType;
      if parsed.data == "" then d.(eventType := t)
      else Dispatch("", d.out + [(t, parsed.data)])
  }

  function OnLines(d: Dispatch, lines: seq<string>): Dispatch
    decreases |lines|
  {
    if lines == [] then d else OnLines(OnLine(d, lines[0]), lines[1..])
  }

  lemma OnLinesCons(d: Dispatch, line: string, lines: seq<string>)
    ensures OnLines(d, [line] + lines) == OnLines(OnLine(d, line), lines)
  {
    assert ([line] + lines)[1..] == lines;
  }

  lemma {:induction false} OnLinesConcat(d: Dispatch, a: seq<string>, b: seq<string>)
    ensures OnLines(d, a + b) == OnLines(OnLines(d, a), b)
    decreases |a|
  {
    if a == [] {
      assert a + b == b;
    } else {
      assert (a + b)[1..] == a[1..] + b;
      OnLinesConcat(OnLine(d, a[0]), a[1..], b);
    }
  }

  datatype Reader = Reader(buffer: string, dispatch: Dispatch)

  const NEW_READER := Reader("", Dispatch("", []))

  /** What one chunk does to buffer and dispatch. */
  function OnChunk(r: Reader, chunk: string): Reader {
    Reader(Tail(r.buffer + chunk), OnLines(r.dispatch, Lines(r.buffer + chunk)))
  }

  /** The events behind the dispatched (type, data) pairs. */
  function Events(parse: (string, string) -> StreamEvent, out: seq<(string, string)>): seq<StreamEvent> {
    seq(|out|, i requires 0 <= i < |out| => parse(out[i].0, out[i].1))
  }

  /** The response after the dispatched pairs were parsed and absorbed. */
  ghost function Answer(parse: (string, string) -> StreamEvent, out: seq<(string, string)>): ResponseState {
    AbsorbAll(NEW_RESPONSE, Events(parse, out))
  }

  lemma AnswerSnoc(parse: (string, string) -> StreamEvent, out: seq<(string, string)>, t: string, data: string)
    ensures Answer(parse, out + [(t, data)]) == Absorb(Answer(parse, out), parse(t, data))
  {
    assert Events(parse, out + [(t, data)]) == Events(parse, out) + [parse(t, data)];
    AbsorbAllSnoc(NEW_RESPONSE, Events(parse, out), parse(t, data));
  }

  class StreamingContext {
    const parse: (string, string) -> StreamEvent  // the JSON parser
    var message: Message
    var stopReason: string
    var usage: Usage
    var currentBlock: Option<nat>
    var toolInput: string
    var lineBuffer: string
    var currentEventType: string
    var callbacks: seq<(string, string)>  // what the callback was given, as (type, data)

    ghost function Response(): ResponseState
      reads this
    {
      ResponseState(message.id, message.model, message.usage, Blocks(message.content, currentBlock, toolInput),
                    stopReason, usage)
    }

    ghost predicate BlockExists()
      reads this
    {
      currentBlock.Some? ==> currentBlock.value < |message.content|
    }

    ghost predicate Valid()
      reads this
    {
      BlockExists() && Response() == Answer(parse, callbacks)
    }

    ghost function State(): Reader
      reads this
    {
      Reader(lineBuffer, Dispatch(currentEventType, callbacks))
    }

    constructor (parse: (string, string) -> StreamEvent)
      ensures Valid() && this.parse == parse && State() == NEW_READER
    {
      this.parse := parse;
      message, stopReason, usage := EMPTY_MESSAGE, "", NO_USAGE;
      currentBlock, toolInput := None, "";
      lineBuffer, currentEventType, callbacks := "", "", [];
    }

    /** The switch over the event type, on the response in place. */
    method AbsorbEvent(e: StreamEvent)
      requires BlockExists()
      modifies this`message, this`stopReason, this`usage, this`currentBlock, this`toolInput
      ensures BlockExists() && Response() == Absorb(old(Response()), e)
    {
      match e.kind
      case MessageStart =>
        if e.message.Some? {
          message := message.(id := e.message.value.id, model := e.message.value.model, usage := e.message.value.usage);
        }
      case MessageDelta =>
        if e.usageDelta.Some? {
          usage := usage.(output := usage.output + e.usageDelta.value.output);
        }
        if e.stopReason.Some? && e.stopReason.value != "" {
          stopReason := e.stopReason.value;
        }
      case BlockStart =>
        if e.contentBlock.Some? {
          message := message.(content := message.content + [e.contentBlock.value]);
          currentBlock := Some(|message.content| - 1);
          if e.contentBlock.value.kind == ToolUse {
            toolInput := "";
          }
        }
      case BlockDelta =>
        if currentBlock.Some? && e.deltaText.Some? {
          AppendToBlock(e.deltaText.value);
        }
      case BlockStop =>
        if currentBlock.Some? && message.content[currentBlock.value].kind == ToolUse {
          var i := currentBlock.value;
          var block := message.content[i];
          block := block.(toolCall := block.toolCall.(inputJson := toolInput));
          message := message.(content := message.content[i := block]);
          toolInput := "";
        }
        currentBlock := None;
      case ErrorEvent =>
        if e.errorMessage.Some? {
          stopReason := "error";
          message := message.(content := message.content + [TextBlock(e.errorMessage.value)]);
        }
      case _ =>
    }

    /** A delta goes to the open block's text or thinking, or to the tool input. */
    method AppendToBlock(text: string)
      requires BlockExists() && currentBlock.Some?
      modifies this`message, this`toolInput
      ensures BlockExists() && Response() == old(Response()).(blocks := Delta(old(Response()).blocks, text))
    {
      var i := currentBlock.value;
      var block := message.content[i];
      if block.kind == Text {
        message := message.(content := message.content[i := block.(text := block.text + text)]);
      } else if block.kind == Thinking {
        message := message.(content := message.content[i := block.(thinking := block.thinking + text)]);
      } else if block.kind == ToolUse {
        toolInput := toolInput + text;
      }
    }

    method ProcessLine(line: string)
      requires Valid()
      modifies this
      ensures Valid() && State() == old(State()).(dispatch := OnLine(old(State()).dispatch, line))
    {
      var parsed := ParseLine(line);
      if parsed.None? { return; }
      if parsed.value.event != "" {
        currentEventType := parsed.value.event;
      }
      if parsed.value.data == "" { return; }
      var event := parse(currentEventType, parsed.value.data);
      AnswerSnoc(parse, callbacks, currentEventType, parsed.value.data);
      callbacks := callbacks + [(currentEventType, parsed.value.data)];
      AbsorbEvent(event);
      currentEventType := "";
    }

    /** The next complete line of the buffer, if there is one. */
    method NextBufferLine(pos: nat) returns (line: Option<string>, next: nat)
      requires pos <= |lineBuffer|
      ensures line.None? ==> Lines(lineBuffer[pos..]) == [] && Tail(lineBuffer[pos..]) == lineBuffer[pos..]
      ensures line.Some? ==> pos < next <= |lineBuffer| &&
                             Lines(lineBuffer[pos..]) == [line.value] + Lines(lineBuffer[next..]) &&
                             Tail(lineBuffer[pos..]) == Tail(lineBuffer[next..])
    {
      var nl := LineEnd(lineBuffer[pos..]);
      next := pos + nl + 1;
      if nl == |lineBuffer| - pos {
        NoLine(lineBuffer[pos..]);
        return None, next;
      }
      NextLine(lineBuffer, pos, nl, next);
      var l := lineBuffer[pos..pos + nl];
      if l != "" && l[|l| - 1] == '\r' {
        l := l[..|l| - 1];
      }
      line := Some(l);
    }

    /** The loop over the complete lines of the buffer; pos is where the partial line starts. */
    method ProcessBuffer() returns (pos: nat)
      requires Valid()
      modifies this
      ensures Valid() && State() == old(State()).(dispatch := OnLines(old(State()).dispatch, Lines(old(lineBuffer))))
      ensures pos <= |lineBuffer| && lineBuffer[pos..] == Tail(lineBuffer)
    {
      pos := 0;
      assert lineBuffer[0..] == lineBuffer;
      while pos < |lineBuffer|
        invariant Valid() && lineBuffer == old(lineBuffer) && pos <= |lineBuffer|
        invariant OnLines(State().dispatch, Lines(lineBuffer[pos..])) ==
                  OnLines(old(State()).dispatch, Lines(lineBuffer))
        invariant Tail(lineBuffer[pos..]) == Tail(lineBuffer)
      {
        var line, next := NextBufferLine(pos);
        if line.None? { break; }
        OnLinesCons(State().dispatch, line.value, Lines(lineBuffer[next..]));
        ProcessLine(line.value);
        pos := next;
      }
      NoLine(lineBuffer[pos..]);
    }

    /** One chunk of the body: every line it completes is processed, the rest is kept. */
    method WriteCallback(chunk: string, aborted: bool) returns (taken: nat)
      requires Valid()
      modifies this
      ensures Valid()
      ensures taken == if aborted then 0 else |chunk|
      ensures State() == if aborted then old(State()) else OnChunk(old(State()), chunk)
    {
      if aborted { return 0; }
      lineBuffer := lineBuffer + chunk;
      var pos := ProcessBuffer();
      if pos > 0 {
        lineBuffer := lineBuffer[pos..];
      } else {
        assert lineBuffer[0..] == lineBuffer;
      }
      return |chunk|;
    }
  }

  lemma NextLine(s: string, pos: nat, n: nat, next: nat)
    requires pos <= |s| && n == LineEnd(s[pos..]) && n < |s| - pos && next == pos + n + 1
    ensures Lines(s[pos..]) == [DropCarriageReturn(s[pos..pos + n])] + Lines(s[next..])
    ensures Tail(s[pos..]) == Tail(s[next..])
  {
    var rest := s[pos..];
    FirstOfLines(rest, n);
    assert rest[..n] == s[pos..pos + n];
    assert Behind(rest, n) == s[next..];
  }

  // ---------- any chunking ----------

  function OnChunks(r: Reader, chunks: seq<string>): Reader
    decreases |chunks|
  {
    if chunks == [] then r else OnChunks(OnChunk(r, chunks[0]), chunks[1..])
  }

  lemma {:induction false} ChunksFrom(r: Reader, s: string, chunks: seq<string>)
    requires r == OnChunk(NEW_READER, s)
    ensures OnChunks(r, chunks) == OnChunk(NEW_READER, s + Concat(chunks))
    decreases |chunks|
  {
    if chunks == [] {
      assert s + "" == s;
    } else {
      var c := chunks[0];
      assert "" + s == s && "" + (s + c) == s + c;
      LinesOfConcat(s, c);
      OnLinesConcat(NEW_READER.dispatch, Lines(s), Lines(Tail(s) + c));
      ChunksFrom(OnChunk(r, c), s + c, chunks[1..]);
      Regroup(s, c, Concat(chunks[1..]));
    }
  }

  /**
   Buffer and dispatched events depend on the concatenation of the chunks alone, and no
   complete line waits in the buffer.
   */
  lemma ChunkingDoesNotMatter(chunks: seq<string>)
    ensures OnChunks(NEW_READER, chunks) ==
            Reader(Tail(Concat(chunks)), OnLines(Dispatch("", []), Lines(Concat(chunks))))
    ensures '\n' !in OnChunks(NEW_READER, chunks).buffer
  {
    assert "" + "" == "";
    assert OnChunk(NEW_READER, "") == NEW_READER;
    ChunksFrom(NEW_READER, "", chunks);
    assert "" + Concat(chunks) == Concat(chunks);
    TailHasNoLine(Concat(chunks));
  }

  // ---------- rendered events ----------

  /** An event as a server writes it, with either line ending. */
  function Render(e: (string, string), eol: string): string {
    ("event: " + e.0 + eol) + (("data: " + e.1 + eol) + eol)
  }

  function RenderAll(es: seq<(string, string)>, eol: string): string {
    if es == [] then "" else Render(es[0], eol) + RenderAll(es[1..], eol)
  }

  /** One line that keeps its first and its last character. */
  predicate Field(v: string, eol: string) {
    '\n' !in v && (v != "" ==> v[0] != ' ' && (eol == "\n" ==> v[|v| - 1] != '\r'))
  }

  predicate Renderable(e: (string, string), eol: string) {
    Field(e.0, eol) && Field(e.1, eol) && e.1 != ""
  }

  predicate LineEnding(eol: string) {
    eol == "\n" || eol == "\r\n"
  }

  lemma FirstLine(line: string, rest: string)
    requires '\n' !in line
    ensures Lines(line + "\n" + rest) == [DropCarriageReturn(line)] + Lines(rest)
  {
    var s := line + "\n" + rest;
    assert s[..|line|] == line;
    LineEndIs(s, |line|);
    assert Behind(s, |line|) == rest;
    FirstOfLines(s, |line|);
  }

  /** Text without a line feed, closed by a line ending, is one line. */
  lemma OneLine(line: string, eol: string, rest: string)
    requires LineEnding(eol) && '\n' !in line
    ensures Lines((line + eol) + rest) ==
            [if eol == "\n" then DropCarriageReturn(line) else line] + Lines(rest)
  {
    if eol == "\n" {
      FirstLine(line, rest);
    } else {
      assert line + eol == (line + "\r") + "\n";
      FirstLine(line + "\r", rest);
      assert (line + "\r")[..|line|] == line;
    }
  }

  /**
   A value as it comes out at the other end: without the carriage return a bare line feed
   takes along, without a leading space.
   */
  function Received(v: string, eol: string): string {
    StandardValue(if eol == "\n" then DropCarriageReturn(v) else v)
  }

  lemma ReceivedUnchangedIff(v: string, eol: string)
    requires LineEnding(eol) && '\n' !in v
    ensures Received(v, eol) == v <==> Field(v, eol)
  {
    if !Field(v, eol) {
      assert |Received(v, eol)| < |v|;
    }
  }

  /** The value of any field: whatever stands behind the colon is skipped, then one space is. */
  function ValueBehindOne(rest: string): string {
    if rest == "" then "" else StandardValue(rest[1..])
  }

  /** What one line does: an event line keeps a type, a data line dispatches it, and no other line does anything. */
  lemma LineEffect(d: Dispatch, line: string, rest: string)
    ensures line == "event:" + rest ==>
              OnLine(d, line) ==
              d.(eventType := if ValueBehindOne(rest) != "" then ValueBehindOne(rest) else d.eventType)
    ensures line == "data:" + rest ==>
              OnLine(d, line) == if ValueBehindOne(rest) == "" then d
                                 else Dispatch("", d.out + [(d.eventType, ValueBehindOne(rest))])
    ensures !("event:" <= line) && !("data:" <= line) ==> OnLine(d, line) == d
  {
    if line == "event:" + rest {
      assert line[6..] == rest && line[0] == 'e';
    } else if line == "data:" + rest {
      assert line[5..] == rest && line[0] == 'd';
    }
  }

  lemma EventLine(d: Dispatch, v: string)
    ensures OnLine(d, "event: " + v) ==
            d.(eventType := if StandardValue(v) != "" then StandardValue(v) else d.eventType)
  {
    assert "event: " + v == "event:" + (" " + v) && (" " + v)[1..] == v;
    LineEffect(d, "event: " + v, " " + v);
  }

  lemma DataLine(d: Dispatch, v: string)
    ensures OnLine(d, "data: " + v) ==
            if StandardValue(v) == "" then d else Dispatch("", d.out + [(d.eventType, StandardValue(v))])
  {
    assert "data: " + v == "data:" + (" " + v) && (" " + v)[1..] == v;
    LineEffect(d, "data: " + v, " " + v);
  }

  lemma DropBehind(prefix: string, v: string)
    requires prefix != "" && prefix[|prefix| - 1] != '\r'
    ensures DropCarriageReturn(prefix + v) == prefix + DropCarriageReturn(v)
  {
    if v == "" { assert prefix + v == prefix; }
  }

  /** The lines of a rendered event. */
  lemma RenderedLines(e: (string, string), eol: string, rest: string)
    requires LineEnding(eol) && '\n' !in e.0 && '\n' !in e.1
    ensures var cut := (v: string) => if eol == "\n" then DropCarriageReturn(v) else v;
            Lines(Render(e, eol) + rest) == ["event: " + cut(e.0)] + (["data: " + cut(e.1)] + ([""] + Lines(rest)))
  {
    var a, b := "event: " + e.0, "data: " + e.1;
    Regroup(a + eol, b + eol + eol, rest);
    Regroup(b + eol, eol, rest);
    DropBehind("event: ", e.0);
    DropBehind("data: ", e.1);
    OneLine(a, eol, (b + eol) + (eol + rest));
    OneLine(b, eol, eol + rest);
    assert "" + eol == eol;
    OneLine("", eol, rest);
  }

  /** What reading one rendered event dispatches, for any one-line type and data. */
  lemma RenderedOne(out: seq<(string, string)>, e: (string, string), eol: string, rest: string)
    requires LineEnding(eol) && '\n' !in e.0 && '\n' !in e.1
    ensures var x, y := Received(e.0, eol), Received(e.1, eol);
            OnLines(Dispatch("", out), Lines(Render(e, eol) + rest)) ==
            OnLines(if y == "" then Dispatch(x, out) else Dispatch("", out + [(x, y)]), Lines(rest))
  {
    var x, y := Received(e.0, eol), Received(e.1, eol);
    var v := if eol == "\n" then DropCarriageReturn(e.0) else e.0;
    var w := if eol == "\n" then DropCarriageReturn(e.1) else e.1;
    RenderedLines(e, eol, rest);
    var d, d1 := Dispatch("", out), Dispatch(x, out);
    var d2 := if y == "" then d1 else Dispatch("", out + [(x, y)]);
    EventLine(d, v);
    DataLine(d1, w);
    OnLinesCons(d, "event: " + v, ["data: " + w] + ([""] + Lines(rest)));
    OnLinesCons(d1, "data: " + w, [""] + Lines(rest));
    OnLinesCons(d2, "", Lines(rest));
  }

  /** Rendered events are dispatched once each, in order, with their types. */
  lemma {:induction false} RenderedDispatch(es: seq<(string, string)>, eol: string, out: seq<(string, string)>)
    requires LineEnding(eol) && forall i :: 0 <= i < |es| ==> Renderable(es[i], eol)
    ensures OnLines(Dispatch("", out), Lines(RenderAll(es, eol))) == Dispatch("", out + es)
    decreases |es|
  {
    if es == [] {
      assert out + es == out;
    } else {
      ReceivedUnchangedIff(es[0].0, eol);
      ReceivedUnchangedIff(es[0].1, eol);
      RenderedOne(out, es[0], eol, RenderAll(es[1..], eol));
      RenderedDispatch(es[1..], eol, out + [es[0]]);
      FirstAndRest(out, es);
    }
  }

  // ---------- no other event arrives ----------

  ghost predicate OneLiners(lines: seq<string>) {
    forall k :: 0 <= k < |lines| ==> '\n' !in lines[k]
  }

  lemma {:induction false} LinesAreOneLiners(s: string)
    ensures OneLiners(Lines(s))
    decreases |s|
  {
    var n := LineEnd(s);
    if n < |s| {
      LinesAreOneLiners(Behind(s, n));
    }
  }

  ghost predicate Clean(d: Dispatch) {
    '\n' !in d.eventType && forall k :: 0 <= k < |d.out| ==> '\n' !in d.out[k].0 && '\n' !in d.out[k].1
  }

  lemma {:induction false} DispatchedAreOneLiners(d: Dispatch, lines: seq<string>)
    requires Clean(d) && OneLiners(lines)
    ensures Clean(OnLines(d, lines))
    decreases |lines|
  {
    if lines != [] {
      assert '\n' !in lines[0];
      DispatchedAreOneLiners(OnLine(d, lines[0]), lines[1..]);
    }
  }

  /** A single event arrives as it was written exactly when its type and data are plain one-line fields. */
  lemma ArrivesIff(e: (string, string), eol: string)
    requires LineEnding(eol)
    ensures OnLines(Dispatch("", []), Lines(Render(e, eol))) == Dispatch("", [e]) <==> Renderable(e, eol)
  {
    var end := OnLines(Dispatch("", []), Lines(Render(e, eol)));
    LinesAreOneLiners(Render(e, eol));
    DispatchedAreOneLiners(Dispatch("", []), Lines(Render(e, eol)));
    if end == Dispatch("", [e]) || Renderable(e, eol) {
      assert end == Dispatch("", [e]) ==> '\n' !in end.out[0].0 && '\n' !in end.out[0].1;
      ReceivedUnchangedIff(e.0, eol);
      ReceivedUnchangedIff(e.1, eol);
      assert Render(e, eol) + "" == Render(e, eol);
      RenderedOne([], e, eol, "");
      assert [] + [(Received(e.0, eol), Received(e.1, eol))] == [(Received(e.0, eol), Received(e.1, eol))];
    }
  }

  /** End to end: rendered, cut anywhere, read, every event arrives. */
  lemma EventsArrive(es: seq<(string, string)>, eol: string, chunks: seq<string>)
    requires LineEnding(eol) && forall i :: 0 <= i < |es| ==> Renderable(es[i], eol)
    requires Concat(chunks) == RenderAll(es, eol)
    ensures OnChunks(NEW_READER, chunks).dispatch == Dispatch("", es)
  {
    ChunkingDoesNotMatter(chunks);
    RenderedDispatch(es, eol, []);
    assert [] + es == es;
  }

  /**
   From a message to the response: streamed, rendered, cut anywhere, read, parsed and
   absorbed, it is the same message.
   */
  lemma StreamedMessageArrives(parse: (string, string) -> StreamEvent, m: Message, pieces: seq<seq<string>>,
                               reason: string, output: int, es: seq<(string, string)>, eol: string, chunks: seq<string>)
    requires |pieces| == |m.content|
    requires forall i :: 0 <= i < |m.content| ==> Streamable(m.content[i]) && Concat(pieces[i]) == Body(m.content[i])
    requires LineEnding(eol) && forall i :: 0 <= i < |es| ==> Renderable(es[i], eol)
    requires Events(parse, es) == EmitMessage(m, pieces, reason, output)
    requires Concat(chunks) == RenderAll(es, eol)
    ensures Rebuilt(Answer(parse, OnChunks(NEW_READER, chunks).dispatch.out), m, reason, output)
  {
    EventsArrive(es, eol, chunks);
    MessageRebuilt(m, pieces, reason, output);
    assert OnChunks(NEW_READER, chunks).dispatch.out == es;
  }
}
