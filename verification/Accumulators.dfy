/**
 The two state machines that build a message from stream events: the stream
 parser of the engine and the response of the API client. An open block is
 the index of a block instead of a pointer to it.
 */
module Accumulators {
  import opened Wrappers
  import opened Messages

  // ---------- what both do with content blocks ----------

  /** The blocks so far, the open one, and the tool input collected for it. */
  datatype Blocks = Blocks(content: seq<ContentBlock>, open: Option<nat>, toolInput: string)

  const NO_BLOCKS := Blocks([], None, "")

  function Start(b: Blocks, block: ContentBlock): Blocks {
    Blocks(b.content + [block], Some(|b.content|), if block.kind == ToolUse then "" else b.toolInput)
  }

  // The open block is the last one started, so the bound checks below never fail on a run.
  function Delta(b: Blocks, d: string): Blocks {
    if b.open.None? || b.open.value >= |b.content| then b
    else
      var i := b.open.value;
      var block := b.content[i];
      match block.kind
      case Text => b.(content := b.content[i := block.(text := block.text + d)])
      case Thinking => b.(content := b.content[i := block.(thinking := block.thinking + d)])
      case ToolUse => b.(toolInput := b.toolInput + d)
      case _ => b
  }

  function Stop(b: Blocks): Blocks {
    if b.open.None? || b.open.value >= |b.content| then b.(open := None)
    else
      var i := b.open.value;
      var block := b.content[i];
      if block.kind == ToolUse then
        Blocks(b.content[i := block.(toolCall := block.toolCall.(inputJson := b.toolInput))], None, "")
      else b.(open := None)
  }

  /** The effect of an event on the blocks; errors are not part of it. */
  function OnBlocks(b: Blocks, e: StreamEvent): Blocks {
    match e.kind
    case BlockStart => if e.contentBlock.Some? then Start(b, e.contentBlock.value) else b
    case BlockDelta => if e.deltaText.Some? then Delta(b, e.deltaText.value) else b
    case BlockStop => Stop(b)
    case _ => b
  }

  // ---------- the stream parser ----------

  datatype ParserState = ParserState(
    id: string, model: string, messageUsage: Usage, blocks: Blocks, stopReason: string, usage: Usage, complete: bool)

  const NEW_PARSER := ParserState("", "", NO_USAGE, NO_BLOCKS, "", NO_USAGE, false)

  function NewReason(reason: string, e: StreamEvent): string {
    if e.stopReason.Some? && e.stopReason.value != "" then e.stopReason.value else reason
  }

  function NewOutput(usage: Usage, e: StreamEvent): Usage {
    if e.usageDelta.Some? then usage.(output := usage.output + e.usageDelta.value.output) else usage
  }

  function Feed(p: ParserState, e: StreamEvent): ParserState {
    match e.kind
    case MessageStart =>
      if e.message.None? then p
      else p.(id := e.message.value.id, model := e.message.value.model, messageUsage := e.message.value.usage)
    case MessageDelta => p.(usage := NewOutput(p.usage, e), stopReason := NewReason(p.stopReason, e))
    case MessageStop => p.(complete := true, messageUsage := p.usage)
    case ErrorEvent => if e.errorMessage.Some? then p.(complete := true, stopReason := "error") else p
    case _ => p.(blocks := OnBlocks(p.blocks, e))
  }

  class StreamParser {
    var message: Message
    var stopReason: string
    var usage: Usage
    var complete: bool
    var currentBlock: Option<nat>
    var toolInput: string
    var currentBlockIndex: int

    ghost predicate Valid()
      reads this
    {
      (currentBlock.Some? ==> currentBlock.value < |message.content|) &&
      currentBlockIndex == if currentBlock.Some? then currentBlock.value else -1
    }

    ghost function State(): ParserState
      reads this
    {
      ParserState(message.id, message.model, message.usage, Blocks(message.content, currentBlock, toolInput),
                  stopReason, usage, complete)
    }

    constructor ()
      ensures Valid() && State() == NEW_PARSER
    {
      message, stopReason, usage, complete := EMPTY_MESSAGE, "", NO_USAGE, false;
      currentBlock, toolInput, currentBlockIndex := None, "", -1;
    }

    method Reset()
      modifies this
      ensures Valid() && State() == NEW_PARSER
    {
      message, stopReason, usage, complete := EMPTY_MESSAGE, "", NO_USAGE, false;
      currentBlock, toolInput, currentBlockIndex := None, "", -1;
    }

    method FeedEvent(e: StreamEvent)
      requires Valid()
      modifies this
      ensures Valid() && State() == Feed(old(State()), e) && message.role == old(message.role)
    {
      match e.kind
      case MessageStart =>
        if e.message.Some? {
          message := message.(id := e.message.value.id, model := e.message.value.model, usage := e.message.value.usage);
        }
      case MessageDelta =>
        if e.usageDelta.Some? {
          usage := usage.(output := usage.output + e.usageDelta.value.output);
        }
        if e.stopReason.Some? && e.stopReason.value != "" {
          stopReason := e.stopReason.value;
        }
      case MessageStop =>
        complete := true;
        message := message.(usage := usage);
      case BlockStart =>
        if e.contentBlock.Some? {
          message := message.(content := message.content + [e.contentBlock.value]);
          currentBlockIndex := |message.content| - 1;
          currentBlock := Some(|message.content| - 1);
          if e.contentBlock.value.kind == ToolUse {
            toolInput := "";
          }
        }
      case BlockDelta =>
        if currentBlock.Some? && e.deltaText.Some? {
          AppendToBlock(e.deltaText.value);
        }
      case BlockStop =>
        CloseBlock();
      case ErrorEvent =>
        if e.errorMessage.Some? {
          complete := true;
          stopReason := "error";
        }
      case _ =>
    }

    /** An open tool use gets the collected input; no block is open afterwards. */
    method CloseBlock()
      requires Valid()
      modifies this`message, this`toolInput, this`currentBlock, this`currentBlockIndex
      ensures Valid() && State() == old(State()).(blocks := Stop(old(State()).blocks))
      ensures message.role == old(message.role)
    {
      if currentBlock.Some? && message.content[currentBlock.value].kind == ToolUse {
        var i := currentBlock.value;
        var block := message.content[i];
        block := block.(toolCall := block.toolCall.(inputJson := toolInput));
        message := message.(content := message.content[i := block]);
        toolInput := "";
      }
      currentBlock := None;
      currentBlockIndex := -1;
    }

    /** A delta goes to the open block's text or thinking, or to the tool input. */
    method AppendToBlock(text: string)
      requires Valid() && currentBlock.Some?
      modifies this`message, this`toolInput
      ensures Valid() && State() == old(State()).(blocks := Delta(old(State()).blocks, text))
      ensures message.role == old(message.role)
    {
      var i := currentBlock.value;
      var block := message.content[i];
      if block.kind == Text {
        block := block.(text := block.text + text);
        message := message.(content := message.content[i := block]);
      } else if block.kind == Thinking {
        block := block.(thinking := block.thinking + text);
        message := message.(content := message.content[i := block]);
      } else if block.kind == ToolUse {
        toolInput := toolInput + text;
      }
    }

    /** True exactly when GetToolCalls would return something. */
    method HasToolCalls() returns (b: bool)
      ensures b <==> ToolCalls(message.content) != []
      ensures b <==> exists i :: 0 <= i < |message.content| && message.content[i].kind == ToolUse
    {
      assert message.content[0..] == message.content;
      for i := 0 to |message.content|
        invariant ToolCalls(message.content[i..]) == ToolCalls(message.content)
        invariant forall j :: 0 <= j < i ==> message.content[j].kind != ToolUse
      {
        assert message.content[i..][1..] == message.content[i + 1..];
        if message.content[i].kind == ToolUse { return true; }
      }
      return false;
    }

    method GetToolCalls() returns (calls: seq<ToolCall>)
      ensures calls == ToolCalls(message.content)
    {
      calls := CollectToolCalls(message);
    }
  }

  // ---------- the API client's response ----------

  datatype ResponseState = ResponseState(
    id: string, model: string, messageUsage: Usage, blocks: Blocks, stopReason: string, usage: Usage)

  const NEW_RESPONSE := ResponseState("", "", NO_USAGE, NO_BLOCKS, "", NO_USAGE)

  function Absorb(r: ResponseState, e: StreamEvent): ResponseState {
    match e.kind
    case MessageStart =>
      if e.message.None? then r
      else r.(id := e.message.value.id, model := e.message.value.model, messageUsage := e.message.value.usage)
    case MessageDelta => r.(usage := NewOutput(r.usage, e), stopReason := NewReason(r.stopReason, e))
    case MessageStop => r
    case ErrorEvent =>
      if e.errorMessage.None? then r
      else
        r.(stopReason := "error",
           blocks := r.blocks.(content := r.blocks.content + [TextBlock(e.errorMessage.value)]))
    case _ => r.(blocks := OnBlocks(r.blocks, e))
  }

  // ---------- runs ----------

  function FeedAll(p: ParserState, es: seq<StreamEvent>): ParserState
    decreases |es|
  {
    if es == [] then p else FeedAll(Feed(p, es[0]), es[1..])
  }

  function AbsorbAll(r: ResponseState, es: seq<StreamEvent>): ResponseState
    decreases |es|
  {
    if es == [] then r else AbsorbAll(Absorb(r, es[0]), es[1..])
  }

  lemma {:induction false} AbsorbAllSnoc(r: ResponseState, es: seq<StreamEvent>, e: StreamEvent)
    ensures AbsorbAll(r, es + [e]) == Absorb(AbsorbAll(r, es), e)
    decreases |es|
  {
    if es == [] {
      assert AbsorbAll(Absorb(r, e), [e][1..]) == Absorb(r, e);
    } else {
      assert (es + [e])[1..] == es[1..] + [e];
      AbsorbAllSnoc(Absorb(r, es[0]), es[1..], e);
    }
  }

  /** The states agree: message, stop reason and output tokens, and what is still open. */
  ghost predicate Simulates(p: ParserState, r: ResponseState) {
    p.id == r.id && p.model == r.model && p.blocks == r.blocks &&
    p.stopReason == r.stopReason && p.usage.output == r.usage.output
  }

  predicate Reported(e: StreamEvent) {
    e.kind == ErrorEvent && e.errorMessage.Some?
  }

  /** What a caller sees of the two results. */
  ghost predicate SameResult(p: ParserState, r: ResponseState) {
    p.id == r.id && p.model == r.model && p.blocks.content == r.blocks.content &&
    p.stopReason == r.stopReason && p.usage.output == r.usage.output
  }

  lemma {:induction false} SimulationHolds(p: ParserState, r: ResponseState, es: seq<StreamEvent>)
    requires Simulates(p, r) && forall i :: 0 <= i < |es| ==> !Reported(es[i])
    ensures Simulates(FeedAll(p, es), AbsorbAll(r, es))
    decreases |es|
  {
    if es != [] {
      assert !Reported(es[0]);
      SimulationHolds(Feed(p, es[0]), Absorb(r, es[0]), es[1..]);
    }
  }

  function ReportedErrors(es: seq<StreamEvent>): nat {
    if es == [] then 0 else (if Reported(es[0]) then 1 else 0) + ReportedErrors(es[1..])
  }

  lemma BlockCounts(b: Blocks, e: StreamEvent)
    ensures |OnBlocks(b, e).content| == |b.content| + if e.kind == BlockStart && e.contentBlock.Some? then 1 else 0
  {}

  /** One event grows both contents alike, but for a reported error. */
  lemma EventCounts(p: ParserState, r: ResponseState, e: StreamEvent)
    ensures |Absorb(r, e).blocks.content| - |r.blocks.content| ==
            |Feed(p, e).blocks.content| - |p.blocks.content| + if Reported(e) then 1 else 0
  {
    BlockCounts(p.blocks, e);
    BlockCounts(r.blocks, e);
  }

  /** Every reported error gives the client's response one block more. */
  lemma {:induction false} LengthsDiffer(p: ParserState, r: ResponseState, es: seq<StreamEvent>)
    ensures |AbsorbAll(r, es).blocks.content| - |r.blocks.content| ==
            |FeedAll(p, es).blocks.content| - |p.blocks.content| + ReportedErrors(es)
    decreases |es|
  {
    if es != [] {
      EventCounts(p, r, es[0]);
      LengthsDiffer(Feed(p, es[0]), Absorb(r, es[0]), es[1..]);
    }
  }

  lemma {:induction false} NoErrorsIff(es: seq<StreamEvent>)
    ensures ReportedErrors(es) == 0 <==> forall i :: 0 <= i < |es| ==> !Reported(es[i])
    decreases |es|
  {
    if es != [] {
      NoErrorsIff(es[1..]);
      assert forall i :: 0 < i < |es| ==> es[i] == es[1..][i - 1];
    }
  }

  /** The two accumulators end with the same result exactly when no event reports an error. */
  lemma AccumulatorsAgreeIff(es: seq<StreamEvent>)
    ensures SameResult(FeedAll(NEW_PARSER, es), AbsorbAll(NEW_RESPONSE, es)) <==>
            forall i :: 0 <= i < |es| ==> !Reported(es[i])
  {
    if forall i :: 0 <= i < |es| ==> !Reported(es[i]) {
      SimulationHolds(NEW_PARSER, NEW_RESPONSE, es);
    } else {
      NoErrorsIff(es);
      LengthsDiffer(NEW_PARSER, NEW_RESPONSE, es);
    }
  }

  /**
   Neither ever counts an input or cache token: only output tokens are added up, and
   message_stop overwrites the rest.
   */
  lemma {:induction false} OnlyOutputIsCounted(p: ParserState, r: ResponseState, es: seq<StreamEvent>)
    requires p.usage == NO_USAGE.(output := p.usage.output) && r.usage == NO_USAGE.(output := r.usage.output)
    ensures var q, s := FeedAll(p, es), AbsorbAll(r, es);
            q.usage == NO_USAGE.(output := q.usage.output) && s.usage == NO_USAGE.(output := s.usage.output)
    ensures FeedAll(p, es + [Bare(MessageStop)]).messageUsage == NO_USAGE.(output := FeedAll(p, es).usage.output)
    decreases |es|
  {
    if es == [] {
      assert es + [Bare(MessageStop)] == [Bare(MessageStop)];
      assert FeedAll(p, [Bare(MessageStop)]) == FeedAll(Feed(p, Bare(MessageStop)), []);
    } else {
      OnlyOutputIsCounted(Feed(p, es[0]), Absorb(r, es[0]), es[1..]);
      assert (es + [Bare(MessageStop)])[1..] == es[1..] + [Bare(MessageStop)];
    }
  }

  // ---------- what a run leaves of what its events told ----------

  /** What the last event that tells something told. */
  function LastTold<T>(es: seq<StreamEvent>, told: StreamEvent -> Option<T>): Option<T>
    decreases |es|
  {
    if es == [] then None
    else
      var later := LastTold(es[1..], told);
      if later.Some? then later else told(es[0])
  }

  function Else<T>(told: Option<T>, otherwise: T): T {
    if told.Some? then told.value else otherwise
  }

  /** An error is told as a stop reason, and an empty reason is none. */
  function ReasonTold(e: StreamEvent): Option<string> {
    if Reported(e) then Some("error")
    else if e.kind == MessageDelta && e.stopReason != Some("") then e.stopReason
    else None
  }

  function MessageTold(e: StreamEvent): Option<Message> {
    if e.kind == MessageStart then e.message else None
  }

  /** All output tokens told in message deltas. */
  function OutputTold(es: seq<StreamEvent>): int {
    if es == [] then 0
    else (if es[0].kind == MessageDelta && es[0].usageDelta.Some? then es[0].usageDelta.value.output else 0) +
         OutputTold(es[1..])
  }

  lemma LastToldCons<T>(e: StreamEvent, es: seq<StreamEvent>, told: StreamEvent -> Option<T>, otherwise: T)
    ensures Else(LastTold([e] + es, told), otherwise) == Else(LastTold(es, told), Else(told(e), otherwise))
  {
    assert ([e] + es)[1..] == es;
  }

  /** The parser is complete after a message stop or a reported error; the rest is the last told, tokens are summed. */
  lemma {:induction false} ParserKeepsLast(p: ParserState, es: seq<StreamEvent>)
    ensures var q := FeedAll(p, es);
            q.stopReason == Else(LastTold(es, ReasonTold), p.stopReason) &&
            q.usage.output == p.usage.output + OutputTold(es) &&
            (q.complete <==>
               p.complete || exists i :: 0 <= i < |es| && (es[i].kind == MessageStop || Reported(es[i])))
    decreases |es|
  {
    if es != [] {
      var e, rest := es[0], es[1..];
      ParserKeepsLast(Feed(p, e), rest);
      assert es == [e] + rest;
      LastToldCons(e, rest, ReasonTold, p.stopReason);
      assert Feed(p, e).stopReason == Else(ReasonTold(e), p.stopReason);
      assert forall i :: 0 < i < |es| ==> es[i] == rest[i - 1];
    }
  }

  lemma {:induction false} ParserKeepsStart(p: ParserState, es: seq<StreamEvent>)
    ensures var q, m := FeedAll(p, es), LastTold(es, MessageTold);
            if m.Some? then q.id == m.value.id && q.model == m.value.model else q.id == p.id && q.model == p.model
    decreases |es|
  {
    if es != [] {
      ParserKeepsStart(Feed(p, es[0]), es[1..]);
    }
  }

  /** The response does the same, and it keeps the usage of the message that started. */
  lemma {:induction false} ResponseKeepsLast(r: ResponseState, es: seq<StreamEvent>)
    ensures var s := AbsorbAll(r, es);
            s.stopReason == Else(LastTold(es, ReasonTold), r.stopReason) &&
            s.usage.output == r.usage.output + OutputTold(es)
    decreases |es|
  {
    if es != [] {
      var e, rest := es[0], es[1..];
      ResponseKeepsLast(Absorb(r, e), rest);
      assert es == [e] + rest;
      LastToldCons(e, rest, ReasonTold, r.stopReason);
      assert Absorb(r, e).stopReason == Else(ReasonTold(e), r.stopReason);
    }
  }

  lemma {:induction false} ResponseKeepsStart(r: ResponseState, es: seq<StreamEvent>)
    ensures var s, m := AbsorbAll(r, es), LastTold(es, MessageTold);
            if m.Some? then s.id == m.value.id && s.model == m.value.model && s.messageUsage == m.value.usage
            else s.id == r.id && s.model == r.model && s.messageUsage == r.messageUsage
    decreases |es|
  {
    if es != [] {
      ResponseKeepsStart(Absorb(r, es[0]), es[1..]);
    }
  }

  /** An event without what it should carry, or with nothing open to take it. */
  predicate Empty(b: Blocks, e: StreamEvent) {
    match e.kind
    case MessageStart => e.message.None?
    case MessageDelta => e.usageDelta.None? && (e.stopReason.None? || e.stopReason.value == "")
    case BlockStart => e.contentBlock.None?
    case BlockDelta =>
      e.deltaText.None? || b.open.None? ||
      (b.open.value < |b.content| && b.content[b.open.value].kind in {Result, Image})
    case BlockStop => b.open.None?
    case ErrorEvent => e.errorMessage.None?
    case MessageStop => false
    case _ => true
  }

  lemma EmptyEventsChangeNothing(p: ParserState, r: ResponseState, e: StreamEvent)
    ensures Empty(p.blocks, e) ==> Feed(p, e) == p
    ensures Empty(r.blocks, e) ==> Absorb(r, e) == r
  {}

  /**
   Between two blocks a reported error is to the response what a whole text block with the
   error's message and the stop reason "error" would be.
   */
  lemma ErrorIsATextBlock(r: ResponseState, e: StreamEvent)
    requires Reported(e) && r.blocks.open.None?
    ensures AbsorbAll(r, [e]) ==
            AbsorbAll(r, [Bare(BlockStart).(contentBlock := Some(TextBlock(e.errorMessage.value))), Bare(BlockStop),
                          Bare(MessageDelta).(stopReason := Some("error"))])
  {
    var a, b := Bare(BlockStart).(contentBlock := Some(TextBlock(e.errorMessage.value))), Bare(BlockStop);
    var c := Bare(MessageDelta).(stopReason := Some("error"));
    assert [a, b, c][1..] == [b, c] && [b, c][1..] == [c] && [c][1..] == [] && [e][1..] == [];
    assert AbsorbAll(Absorb(r, e), []) == Absorb(r, e);
    var s := Absorb(Absorb(r, a), b);
    assert AbsorbAll(s, [c]) == AbsorbAll(Absorb(s, c), []);
    assert AbsorbAll(Absorb(r, a), [b, c]) == AbsorbAll(s, [c]);
  }

  /** Inside a block it stands behind that block, which stays open. */
  lemma ErrorStandsBehind(r: ResponseState, e: StreamEvent)
    requires Reported(e)
    ensures var s := Absorb(r, e);
            s.blocks.content == r.blocks.content + [TextBlock(e.errorMessage.value)] && s.stopReason == "error" &&
            s.blocks.open == r.blocks.open && s.blocks.toolInput == r.blocks.toolInput
  {}

  // ---------- streaming a message and building it again ----------

  predicate Streamable(block: ContentBlock) {
    block.kind == Text || block.kind == Thinking || block.kind == ToolUse
  }

  /** The part of a block that is sent in deltas. */
  function Body(block: ContentBlock): string
    requires Streamable(block)
  {
    match block.kind
    case Text => block.text
    case Thinking => block.thinking
    case ToolUse => block.toolCall.inputJson
  }

  function WithBody(block: ContentBlock, body: string): ContentBlock
    requires Streamable(block)
  {
    match block.kind
    case Text => block.(text := body)
    case Thinking => block.(thinking := body)
    case ToolUse => block.(toolCall := block.toolCall.(inputJson := body))
  }

  function Concat(pieces: seq<string>): string {
    if pieces == [] then "" else pieces[0] + Concat(pieces[1..])
  }

  function Deltas(pieces: seq<string>): seq<StreamEvent> {
    if pieces == [] then []
    else [Bare(BlockDelta).(deltaText := Some(pieces[0]))] + Deltas(pieces[1..])
  }

  /** start with an empty body, the pieces, stop. */
  function EmitBlock(block: ContentBlock, pieces: seq<string>): seq<StreamEvent>
    requires Streamable(block)
  {
    [Bare(BlockStart).(contentBlock := Some(WithBody(block, "")))] + Deltas(pieces) + [Bare(BlockStop)]
  }

  function EmitBlocks(blocks: seq<ContentBlock>, pieces: seq<seq<string>>): seq<StreamEvent>
    requires |pieces| == |blocks| && forall i :: 0 <= i < |blocks| ==> Streamable(blocks[i])
  {
    if blocks == [] then [] else EmitBlock(blocks[0], pieces[0]) + EmitBlocks(blocks[1..], pieces[1..])
  }

  function FirstEvent(m: Message): StreamEvent {
    Bare(MessageStart).(message := Some(m.(content := [])))
  }

  function LastEvents(reason: string, output: int): seq<StreamEvent> {
    [Bare(MessageDelta).(usageDelta := Some(NO_USAGE.(output := output)), stopReason := Some(reason)),
     Bare(MessageStop)]
  }

  function EmitMessage(m: Message, pieces: seq<seq<string>>, reason: string, output: int): seq<StreamEvent>
    requires |pieces| == |m.content| && forall i :: 0 <= i < |m.content| ==> Streamable(m.content[i])
  {
    [FirstEvent(m)] + EmitBlocks(m.content, pieces) + LastEvents(reason, output)
  }

  lemma {:induction false} FeedAllConcat(p: ParserState, es: seq<StreamEvent>, fs: seq<StreamEvent>)
    ensures FeedAll(p, es + fs) == FeedAll(FeedAll(p, es), fs)
    decreases |es|
  {
    if es == [] {
      assert es + fs == fs;
    } else {
      assert (es + fs)[1..] == es[1..] + fs;
      FeedAllConcat(Feed(p, es[0]), es[1..], fs);
    }
  }

  lemma FeedOne(p: ParserState, e: StreamEvent)
    ensures FeedAll(p, [e]) == Feed(p, e)
  {
    assert FeedAll(Feed(p, e), []) == Feed(p, e);
  }

  /** The open last block with the part of its body received so far. */
  ghost predicate Building(p: ParserState, before: ParserState, block: ContentBlock, body: string)
    requires Streamable(block)
  {
    var n := |before.blocks.content|;
    p == before.(blocks := Blocks(
           before.blocks.content + [if block.kind == ToolUse then WithBody(block, "") else WithBody(block, body)],
           Some(n), if block.kind == ToolUse then body else before.blocks.toolInput))
  }

  lemma DeltaStep(p: ParserState, before: ParserState, block: ContentBlock, body: string, piece: string)
    requires Streamable(block) && Building(p, before, block, body)
    ensures Building(Feed(p, Bare(BlockDelta).(deltaText := Some(piece))), before, block, body + piece)
  {
    var n := |before.blocks.content|;
    var rest := before.blocks.content;
    var grown := WithBody(block, body + piece);
    assert (rest + [WithBody(block, body)])[n := grown] == rest + [grown];
  }

  lemma {:induction false} DeltasBuild(p: ParserState, before: ParserState, block: ContentBlock, body: string,
                                         pieces: seq<string>)
    requires Streamable(block) && Building(p, before, block, body)
    ensures Building(FeedAll(p, Deltas(pieces)), before, block, body + Concat(pieces))
    decreases |pieces|
  {
    if pieces == [] {
      assert body + "" == body;
    } else {
      var e := Bare(BlockDelta).(deltaText := Some(pieces[0]));
      DeltaStep(p, before, block, body, pieces[0]);
      assert Deltas(pieces)[1..] == Deltas(pieces[1..]);
      DeltasBuild(Feed(p, e), before, block, body + pieces[0], pieces[1..]);
      Regroup(body, pieces[0], Concat(pieces[1..]));
    }
  }

  lemma StartOpens(p: ParserState, block: ContentBlock)
    requires Streamable(block)
    ensures Building(Feed(p, Bare(BlockStart).(contentBlock := Some(WithBody(block, "")))), p, block, "")
  {}

  lemma BodyIsAll(block: ContentBlock)
    requires Streamable(block)
    ensures WithBody(block, Body(block)) == block && WithBody(WithBody(block, ""), Body(block)) == block
  {}

  lemma StopCloses(q: ParserState, p: ParserState, block: ContentBlock)
    requires Streamable(block) && Building(q, p, block, Body(block))
    ensures Feed(q, Bare(BlockStop)) ==
            p.(blocks := Blocks(p.blocks.content + [block], None,
                                if block.kind == ToolUse then "" else p.blocks.toolInput))
  {
    BodyIsAll(block);
    var n := |p.blocks.content|;
    assert (p.blocks.content + [WithBody(block, "")])[n := block] == p.blocks.content + [block];
  }

  /** One streamed block is appended exactly, whatever was left open or collected before it. */
  lemma BlockRebuilt(p: ParserState, block: ContentBlock, pieces: seq<string>)
    requires Streamable(block) && Concat(pieces) == Body(block)
    ensures FeedAll(p, EmitBlock(block, pieces)) ==
            p.(blocks := Blocks(p.blocks.content + [block], None,
                                if block.kind == ToolUse then "" else p.blocks.toolInput))
  {
    var start := Bare(BlockStart).(contentBlock := Some(WithBody(block, "")));
    var q := Feed(p, start);
    var q' := FeedAll(q, Deltas(pieces));
    FeedOne(p, start);
    FeedAllConcat(p, [start], Deltas(pieces));
    FeedAllConcat(p, [start] + Deltas(pieces), [Bare(BlockStop)]);
    FeedOne(q', Bare(BlockStop));
    StartOpens(p, block);
    DeltasBuild(q, p, block, "", pieces);
    assert "" + Concat(pieces) == Body(block);
    StopCloses(q', p, block);
  }

  lemma {:induction false} BlocksRebuilt(p: ParserState, blocks: seq<ContentBlock>, pieces: seq<seq<string>>)
    requires |pieces| == |blocks|
    requires forall i :: 0 <= i < |blocks| ==> Streamable(blocks[i]) && Concat(pieces[i]) == Body(blocks[i])
    ensures var q := FeedAll(p, EmitBlocks(blocks, pieces));
            q == p.(blocks := q.blocks) && q.blocks.content == p.blocks.content + blocks
    decreases |blocks|
  {
    if blocks == [] {
      assert p.blocks.content + [] == p.blocks.content;
    } else {
      var first, more := EmitBlock(blocks[0], pieces[0]), EmitBlocks(blocks[1..], pieces[1..]);
      assert EmitBlocks(blocks, pieces) == first + more;
      FeedAllConcat(p, first, more);
      BlockRebuilt(p, blocks[0], pieces[0]);
      BlocksRebuilt(FeedAll(p, first), blocks[1..], pieces[1..]);
      FirstAndRest(p.blocks.content, blocks);
    }
  }

  lemma {:induction false} EmittedKinds(blocks: seq<ContentBlock>, pieces: seq<seq<string>>)
    requires |pieces| == |blocks| && forall i :: 0 <= i < |blocks| ==> Streamable(blocks[i])
    ensures forall e :: e in EmitBlocks(blocks, pieces) ==> e.kind in {BlockStart, BlockDelta, BlockStop}
    decreases |blocks|
  {
    if blocks != [] {
      DeltasKinds(pieces[0]);
      EmittedKinds(blocks[1..], pieces[1..]);
    }
  }

  lemma {:induction false} DeltasKinds(pieces: seq<string>)
    ensures forall e :: e in Deltas(pieces) ==> e.kind == BlockDelta
    decreases |pieces|
  {
    if pieces != [] {
      DeltasKinds(pieces[1..]);
    }
  }

  /** The response is the message, with its stop reason and output tokens. */
  ghost predicate Rebuilt(r: ResponseState, m: Message, reason: string, output: int) {
    r.id == m.id && r.model == m.model && r.messageUsage == m.usage && r.blocks.content == m.content &&
    r.stopReason == reason && r.usage.output == output
  }

  /** The same for the parser. */
  ghost predicate ParserRebuilt(p: ParserState, m: Message, reason: string, output: int) {
    p.id == m.id && p.model == m.model && p.blocks.content == m.content &&
    p.stopReason == reason && p.usage.output == output && p.complete
  }

  lemma LastEventsFed(p: ParserState, reason: string, output: int)
    requires p.usage == NO_USAGE && p.stopReason == ""
    ensures var q := FeedAll(p, LastEvents(reason, output));
            q.id == p.id && q.model == p.model && q.blocks == p.blocks &&
            q.stopReason == reason && q.usage.output == output && q.complete
  {
    var delta := LastEvents(reason, output)[0];
    assert LastEvents(reason, output)[1..] == [Bare(MessageStop)];
    FeedOne(Feed(p, delta), Bare(MessageStop));
  }

  lemma ParserRebuilds(m: Message, pieces: seq<seq<string>>, reason: string, output: int)
    requires |pieces| == |m.content|
    requires forall i :: 0 <= i < |m.content| ==> Streamable(m.content[i]) && Concat(pieces[i]) == Body(m.content[i])
    ensures ParserRebuilt(FeedAll(NEW_PARSER, EmitMessage(m, pieces, reason, output)), m, reason, output)
  {
    var middle := EmitBlocks(m.content, pieces);
    var p := Feed(NEW_PARSER, FirstEvent(m));
    FeedOne(NEW_PARSER, FirstEvent(m));
    FeedAllConcat(NEW_PARSER, [FirstEvent(m)], middle);
    FeedAllConcat(NEW_PARSER, [FirstEvent(m)] + middle, LastEvents(reason, output));
    BlocksRebuilt(p, m.content, pieces);
    assert [] + m.content == m.content;
    LastEventsFed(FeedAll(p, middle), reason, output);
  }

  lemma EmittedMessageIsNoError(m: Message, pieces: seq<seq<string>>, reason: string, output: int)
    requires |pieces| == |m.content| && forall i :: 0 <= i < |m.content| ==> Streamable(m.content[i])
    ensures var es := EmitMessage(m, pieces, reason, output); forall i :: 0 <= i < |es| ==> !Reported(es[i])
  {
    EmittedKinds(m.content, pieces);
    var es := EmitMessage(m, pieces, reason, output);
    forall i | 0 <= i < |es| ensures !Reported(es[i]) {
      assert es[i] in [FirstEvent(m)] || es[i] in EmitBlocks(m.content, pieces) || es[i] in LastEvents(reason, output);
    }
  }

  lemma {:induction false} NoStartInside(es: seq<StreamEvent>)
    requires forall e :: e in es ==> e.kind != MessageStart
    ensures LastTold(es, MessageTold) == None
    decreases |es|
  {
    if es != [] {
      NoStartInside(es[1..]);
    }
  }

  lemma StartToldOnce(m: Message, pieces: seq<seq<string>>, reason: string, output: int)
    requires |pieces| == |m.content| && forall i :: 0 <= i < |m.content| ==> Streamable(m.content[i])
    ensures LastTold(EmitMessage(m, pieces, reason, output), MessageTold) == Some(m.(content := []))
  {
    var es := EmitMessage(m, pieces, reason, output);
    EmittedKinds(m.content, pieces);
    var rest := EmitBlocks(m.content, pieces) + LastEvents(reason, output);
    assert es == [FirstEvent(m)] + rest;
    NoStartInside(rest);
    assert es[1..] == rest;
  }

  /** Any message, its bodies split anywhere, is rebuilt by both accumulators. */
  lemma MessageRebuilt(m: Message, pieces: seq<seq<string>>, reason: string, output: int)
    requires |pieces| == |m.content|
    requires forall i :: 0 <= i < |m.content| ==> Streamable(m.content[i]) && Concat(pieces[i]) == Body(m.content[i])
    ensures var es := EmitMessage(m, pieces, reason, output);
            ParserRebuilt(FeedAll(NEW_PARSER, es), m, reason, output) &&
            Rebuilt(AbsorbAll(NEW_RESPONSE, es), m, reason, output)
  {
    var es := EmitMessage(m, pieces, reason, output);
    ParserRebuilds(m, pieces, reason, output);
    EmittedMessageIsNoError(m, pieces, reason, output);
    AccumulatorsAgreeIff(es);
    assert SameResult(FeedAll(NEW_PARSER, es), AbsorbAll(NEW_RESPONSE, es));
    StartToldOnce(m, pieces, reason, output);
    ResponseKeepsStart(NEW_RESPONSE, es);
  }
}
