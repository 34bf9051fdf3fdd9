/** Conversation messages and the stream events they are built from. */
module Messages {
  import opened Wrappers

  datatype Role = System | User | Assistant | ToolRole

  datatype Status = Success | Error | Cancelled

  datatype Usage = Usage(input: int, output: int, cacheCreation: int, cacheRead: int)

  const NO_USAGE := Usage(0, 0, 0, 0)

  function AddUsage(a: Usage, b: Usage): Usage {
    Usage(a.input + b.input, a.output + b.output, a.cacheCreation + b.cacheCreation, a.cacheRead + b.cacheRead)
  }

  datatype ToolCall = ToolCall(id: string, name: string, inputJson: string)

  datatype ToolResult = ToolResult(toolUseId: string, status: Status, content: string, isError: bool)

  datatype Kind = Text | ToolUse | Result | Thinking | Image

  datatype ContentBlock = ContentBlock(
    kind: Kind, text: string, toolCall: ToolCall, toolResult: ToolResult, thinking: string, imageUrl: string)

  const EMPTY_BLOCK := ContentBlock(Text, "", ToolCall("", "", ""), ToolResult("", Success, "", false), "", "")

  function TextBlock(t: string): ContentBlock {
    EMPTY_BLOCK.(text := t)
  }

  datatype Message = Message(id: string, role: Role, content: seq<ContentBlock>, usage: Usage, model: string)

  const EMPTY_MESSAGE := Message("", System, [], NO_USAGE, "")

  function UserMessage(t: string): Message {
    EMPTY_MESSAGE.(role := User, content := [TextBlock(t)])
  }

  /** The texts of the text blocks, one behind the other. */
  function TextOf(content: seq<ContentBlock>): string {
    if content == [] then "" else (if content[0].kind == Text then content[0].text else "") + TextOf(content[1..])
  }

  lemma {:induction false} TextOfConcat(a: seq<ContentBlock>, b: seq<ContentBlock>)
    ensures TextOf(a + b) == TextOf(a) + TextOf(b)
    decreases |a|
  {
    if a == [] {
      assert a + b == b;
    } else {
      TextOfConcat(a[1..], b);
      assert (a + b)[1..] == a[1..] + b;
      Regroup(if a[0].kind == Text then a[0].text else "", TextOf(a[1..]), TextOf(b));
    }
  }

  lemma TextOfOne(block: ContentBlock)
    ensures TextOf([block]) == if block.kind == Text then block.text else ""
  {
    assert [block][1..] == [];
  }

  method TextContent(m: Message) returns (result: string)
    ensures result == TextOf(m.content)
  {
    result := "";
    for i := 0 to |m.content|
      invariant result == TextOf(m.content[..i])
    {
      var block := m.content[i];
      assert m.content[..i + 1] == m.content[..i] + [block];
      TextOfConcat(m.content[..i], [block]);
      TextOfOne(block);
      if block.kind == Text {
        result := result + block.text;
      }
    }
    assert m.content[..|m.content|] == m.content;
  }

  /** The user's words are all the text there is in the user's message. */
  lemma UserMessageSays(t: string)
    ensures var m := UserMessage(t); m.role == User && TextOf(m.content) == t && ToolCalls(m.content) == []
  {
    TextOfOne(TextBlock(t));
    assert [TextBlock(t)][1..] == [];
  }

  /** What a block adds to the tool calls. */
  function CallOf(block: ContentBlock): seq<ToolCall> {
    if block.kind == ToolUse then [block.toolCall] else []
  }

  /** The tool calls of the tool-use blocks, in order. */
  function ToolCalls(content: seq<ContentBlock>): seq<ToolCall> {
    if content == [] then [] else CallOf(content[0]) + ToolCalls(content[1..])
  }

  lemma {:induction false} ToolCallsSnoc(content: seq<ContentBlock>, block: ContentBlock)
    ensures ToolCalls(content + [block]) == ToolCalls(content) + CallOf(block)
    decreases |content|
  {
    if content == [] {
      assert [block][1..] == [];
    } else {
      assert (content + [block])[1..] == content[1..] + [block];
      ToolCallsSnoc(content[1..], block);
      Regroup(CallOf(content[0]), ToolCalls(content[1..]), CallOf(block));
    }
  }

  /** The places of all tool-use blocks, in order. */
  ghost predicate AllUses(content: seq<ContentBlock>, places: seq<nat>) {
    (forall j, k :: 0 <= j < k < |places| ==> places[j] < places[k]) &&
    forall i: nat :: i in places <==> i < |content| && content[i].kind == ToolUse
  }

  lemma AllUsesSnoc(content: seq<ContentBlock>, places: seq<nat>, block: ContentBlock)
    requires AllUses(content, places)
    ensures AllUses(content + [block], if block.kind == ToolUse then places + [|content|] else places)
  {
    var all := content + [block];
    assert all[|content|] == block;
    assert forall i :: 0 <= i < |content| ==> all[i] == content[i];
    assert forall k :: 0 <= k < |places| ==> places[k] in places;
  }

  /** The calls are those of the blocks at the places, one each. */
  ghost predicate CallsAt(content: seq<ContentBlock>, places: seq<nat>, calls: seq<ToolCall>) {
    |calls| == |places| && forall k :: 0 <= k < |places| ==> CallAt(content, places[k], calls[k])
  }

  predicate CallAt(content: seq<ContentBlock>, i: nat, call: ToolCall) {
    i < |content| && content[i].toolCall == call
  }

  lemma CallsAtSnoc(content: seq<ContentBlock>, places: seq<nat>, calls: seq<ToolCall>, block: ContentBlock)
    requires CallsAt(content, places, calls)
    ensures CallsAt(content + [block], places, calls)
    ensures CallsAt(content + [block], places + [|content|], calls + [block.toolCall])
  {
    var all := content + [block];
    assert all[|content|] == block;
    forall k | 0 <= k < |places| ensures CallAt(all, places[k], calls[k]) {
      assert CallAt(content, places[k], calls[k]);
    }
  }

  /** The tool calls are those of the tool-use blocks, one each, in order. */
  lemma {:induction false} ToolCallPlaces(content: seq<ContentBlock>) returns (places: seq<nat>)
    ensures AllUses(content, places) && CallsAt(content, places, ToolCalls(content))
    decreases |content|
  {
    if content == [] {
      return [];
    }
    var front, block := content[..|content| - 1], content[|content| - 1];
    places := ToolCallPlaces(front);
    assert content == front + [block];
    ToolCallsSnoc(front, block);
    AllUsesSnoc(front, places, block);
    CallsAtSnoc(front, places, ToolCalls(front), block);
    if block.kind == ToolUse {
      places := places + [|front|];
    }
  }

  method CollectToolCalls(m: Message) returns (calls: seq<ToolCall>)
    ensures calls == ToolCalls(m.content)
  {
    calls := [];
    for i := 0 to |m.content|
      invariant calls == ToolCalls(m.content[..i])
    {
      assert m.content[..i + 1] == m.content[..i] + [m.content[i]];
      ToolCallsSnoc(m.content[..i], m.content[i]);
      if m.content[i].kind == ToolUse {
        calls := calls + [m.content[i].toolCall];
      }
    }
    assert m.content[..|m.content|] == m.content;
  }

  datatype EventKind =
    | MessageStart | MessageDelta | MessageStop
    | BlockStart | BlockDelta | BlockStop
    | ToolUseStart | ToolUseDelta | ToolUseStop | ThinkingDelta
    | ErrorEvent

  datatype StreamEvent = StreamEvent(
    kind: EventKind,
    message: Option<Message>,
    contentBlock: Option<ContentBlock>,
    deltaText: Option<string>,
    usageDelta: Option<Usage>,
    errorMessage: Option<string>,
    stopReason: Option<string>)

  /** An event of the given kind with nothing in it. */
  function Bare(kind: EventKind): StreamEvent {
    StreamEvent(kind, None, None, None, None, None, None)
  }
}
