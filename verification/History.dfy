/**
 Conversation histories: what one run of the tool-call loop appends, what
 compaction keeps, and the pairing of tool results with tool uses over any
 sequence of operations.
 */
module History {
  import opened Wrappers
  import opened Messages

  datatype QueryResponse = QueryResponse(message: Message, usage: Usage, stoppedByTool: bool, stopReason: string)

  const EMPTY_RESPONSE := QueryResponse(EMPTY_MESSAGE, NO_USAGE, false, "")

  // ---------- kinds of messages ----------

  predicate PlainUser(m: Message) {
    m.role == User && m.content != [] && m.content[0].kind == Text
  }

  predicate IsResult(m: Message) {
    m.role == User && m.content != [] && forall i :: 0 <= i < |m.content| ==> m.content[i].kind == Result
  }

  function ResultBlock(r: ToolResult): ContentBlock {
    EMPTY_BLOCK.(kind := Result, toolResult := r)
  }

  function ResultBlocks(results: seq<ToolResult>): seq<ContentBlock> {
    if results == [] then [] else [ResultBlock(results[0])] + ResultBlocks(results[1..])
  }

  lemma {:induction false} ResultBlockAt(results: seq<ToolResult>)
    ensures |ResultBlocks(results)| == |results|
    ensures forall i :: 0 <= i < |results| ==> ResultBlocks(results)[i] == ResultBlock(results[i])
    decreases |results|
  {
    if results != [] {
      ResultBlockAt(results[1..]);
      forall i | 0 <= i < |results| ensures ResultBlocks(results)[i] == ResultBlock(results[i]) {
        if i > 0 { assert results[i] == results[1..][i - 1]; }
      }
    }
  }

  lemma {:induction false} ResultBlocksSnoc(results: seq<ToolResult>, r: ToolResult)
    ensures ResultBlocks(results + [r]) == ResultBlocks(results) + [ResultBlock(r)]
    decreases |results|
  {
    if results == [] {
      assert [r][1..] == [];
    } else {
      assert (results + [r])[1..] == results[1..] + [r];
      ResultBlocksSnoc(results[1..], r);
    }
  }

  function ResultMessage(results: seq<ToolResult>): Message {
    EMPTY_MESSAGE.(role := User, content := ResultBlocks(results))
  }

  /** The results the result blocks of a message hold, in order. */
  function ResultsOf(content: seq<ContentBlock>): seq<ToolResult> {
    if content == [] then []
    else (if content[0].kind == Result then [content[0].toolResult] else []) + ResultsOf(content[1..])
  }

  lemma ResultsOfCons(block: ContentBlock, blocks: seq<ContentBlock>)
    ensures ResultsOf([block] + blocks) ==
            (if block.kind == Result then [block.toolResult] else []) + ResultsOf(blocks)
  {
    assert ([block] + blocks)[1..] == blocks;
  }

  lemma {:induction false} ResultsReadBack(results: seq<ToolResult>)
    ensures ResultsOf(ResultBlocks(results)) == results
    decreases |results|
  {
    if results != [] {
      ResultsReadBack(results[1..]);
      var first := ResultBlock(results[0]);
      ResultsOfCons(first, ResultBlocks(results[1..]));
      assert results == [results[0]] + results[1..];
    }
  }

  method CreateToolResultMessage(results: seq<ToolResult>) returns (m: Message)
    ensures m == ResultMessage(results)
    ensures m.role == User && |m.content| == |results| && ResultsOf(m.content) == results
  {
    m := EMPTY_MESSAGE.(role := User);
    for i := 0 to |results|
      invariant m == ResultMessage(results[..i])
    {
      assert results[..i + 1] == results[..i] + [results[i]];
      ResultBlocksSnoc(results[..i], results[i]);
      var block := EMPTY_BLOCK.(kind := Result, toolResult := results[i]);
      m := m.(content := m.content + [block]);
    }
    assert results[..|results|] == results;
    ResultBlockAt(results);
    ResultsReadBack(results);
  }

  // ---------- pairing ----------

  /** The ids of the first |m.content| tool uses of the message before, in order. */
  ghost predicate Answers(use: Message, m: Message) {
    var calls := ToolCalls(use.content);
    use.role == Assistant && |m.content| <= |calls| &&
    forall i :: 0 <= i < |m.content| ==> m.content[i].toolResult.toolUseId == calls[i].id
  }

  /** m has a result for every tool use. */
  ghost predicate AnswersAll(use: Message, m: Message) {
    Answers(use, m) && |m.content| == |ToolCalls(use.content)|
  }

  /** Only plain user messages, assistant messages and results that directly follow the tool uses they answer. */
  ghost predicate Paired(h: seq<Message>) {
    forall i :: 0 <= i < |h| ==> InPlace(h, i)
  }

  ghost predicate InPlace(h: seq<Message>, i: nat)
    requires i < |h|
  {
    PlainUser(h[i]) || h[i].role == Assistant || (IsResult(h[i]) && i > 0 && Answers(h[i - 1], h[i]))
  }

  /** Every result message up to n answers all tool uses before it. */
  ghost predicate WholeUpTo(h: seq<Message>, n: nat) {
    forall i :: 0 <= i < |h| && i < n && IsResult(h[i]) ==> i > 0 && AnswersAll(h[i - 1], h[i])
  }

  /**
   The history, and where it may be incomplete: only after an abort, only in its last result
   message, with nothing but user messages behind.
   */
  ghost predicate Inv(h: seq<Message>, aborted: bool) {
    Paired(h) &&
    (WholeUpTo(h, |h|) ||
     (aborted && exists n: nat :: n < |h| && WholeUpTo(h, n) && forall j :: n < j < |h| ==> PlainUser(h[j])))
  }

  /** Being in place and whole only depends on what comes before. */
  lemma AppendKeeps(h: seq<Message>, more: seq<Message>, n: nat)
    requires Paired(h) && n <= |h| && WholeUpTo(h, n)
    ensures forall i :: 0 <= i < |h| ==> InPlace(h + more, i)
    ensures WholeUpTo(h + more, n)
  {
    var h' := h + more;
    forall i | 0 <= i < |h| ensures InPlace(h', i) {
      assert InPlace(h, i);
      if i > 0 { assert h'[i - 1] == h[i - 1]; }
    }
    forall i | 0 <= i < |h'| && i < n && IsResult(h'[i]) ensures i > 0 && AnswersAll(h'[i - 1], h'[i]) {
      assert IsResult(h[i]);
    }
  }

  lemma PlainIsNoResult(m: Message)
    requires PlainUser(m)
    ensures !IsResult(m)
  {
    assert m.content[0].kind != Result;
  }

  lemma UserMessageIsPlain(t: string)
    ensures PlainUser(UserMessage(t))
  {}

  /** A plain user message keeps the invariant. */
  lemma PushUser(h: seq<Message>, aborted: bool, m: Message)
    requires Inv(h, aborted) && PlainUser(m)
    ensures Inv(h + [m], aborted)
    ensures WholeUpTo(h, |h|) ==> WholeUpTo(h + [m], |h| + 1)
  {
    PlainIsNoResult(m);
    var h' := h + [m];
    assert InPlace(h', |h|);
    if WholeUpTo(h, |h|) {
      AppendKeeps(h, [m], |h|);
      assert WholeUpTo(h', |h'|);
    } else {
      var n: nat :| n < |h| && WholeUpTo(h, n) && forall j :: n < j < |h| ==> PlainUser(h[j]);
      AppendKeeps(h, [m], n);
    }
  }

  // ---------- one run of the tool-call loop ----------

  datatype ToolOutput = ToolOutput(content: string, errorMessage: string, isError: bool)

  /** One request: the response, what its tools put out, and the results made of that. */
  datatype Turn = Turn(response: QueryResponse, results: seq<ToolResult>, outputs: seq<ToolOutput>)

  function TurnMessages(t: Turn): seq<Message> {
    [t.response.message] + if t.results == [] then [] else [ResultMessage(t.results)]
  }

  function Transcript(turns: seq<Turn>): seq<Message> {
    if turns == [] then [] else TurnMessages(turns[0]) + Transcript(turns[1..])
  }

  lemma {:induction false} TranscriptSnoc(turns: seq<Turn>, t: Turn)
    ensures Transcript(turns + [t]) == Transcript(turns) + TurnMessages(t)
    decreases |turns|
  {
    if turns == [] {
      assert [t][1..] == [];
    } else {
      assert (turns + [t])[1..] == turns[1..] + [t];
      TranscriptSnoc(turns[1..], t);
      Regroup(TurnMessages(turns[0]), Transcript(turns[1..]), TurnMessages(t));
    }
  }

  /** The results answer a prefix of the tool calls, in order; none if the model did not stop for tools. */
  ghost predicate TurnOk(t: Turn) {
    var calls := ToolCalls(t.response.message.content);
    t.response.message.role == Assistant && |t.results| <= |calls| &&
    (forall i :: 0 <= i < |t.results| ==> t.results[i].toolUseId == calls[i].id) &&
    (!t.response.stoppedByTool ==> t.results == [])
  }

  ghost predicate TurnWhole(t: Turn) {
    t.response.stoppedByTool ==> |t.results| == |ToolCalls(t.response.message.content)|
  }

  predicate Continues(t: Turn) {
    t.response.stoppedByTool && t.results != []
  }

  /**
   The turns of a run that finds the abort flag as before and leaves it as after:
   every turn but the last has all its results and goes on; the run ends at the
   limit, at a turn that does not go on, or by an abort.
   */
  ghost predicate RunOk(turns: seq<Turn>, limit: int, before: bool, after: bool) {
    (before ==> after && turns == []) &&
    |turns| <= (if limit < 0 then 0 else limit) &&
    (forall i :: 0 <= i < |turns| ==> TurnOk(turns[i])) &&
    (forall i :: 0 <= i < |turns| - 1 ==> Continues(turns[i]) && TurnWhole(turns[i])) &&
    (!after ==>
       (turns != [] ==> TurnWhole(turns[|turns| - 1])) &&
       (|turns| < limit ==> turns != [] && !Continues(turns[|turns| - 1])))
  }

  /**
   How many requests a run makes: it goes on exactly behind a response that stopped for tools and
   has tool calls, up to the limit, or to an abort.
   */
  lemma RunLength(turns: seq<Turn>, limit: int, before: bool, after: bool)
    requires RunOk(turns, limit, before, after)
    ensures forall i :: 0 <= i < |turns| - 1 ==> CallsForMore(turns[i].response)
    ensures !after && |turns| < limit ==> turns != [] && !CallsForMore(turns[|turns| - 1].response)
    ensures |turns| <= (if limit < 0 then 0 else limit) && (before ==> turns == [])
  {
    forall i | 0 <= i < |turns| - 1 ensures CallsForMore(turns[i].response) {
      assert TurnOk(turns[i]) && Continues(turns[i]);
    }
    if !after && |turns| < limit {
      assert TurnWhole(turns[|turns| - 1]);
    }
  }

  predicate CallsForMore(response: QueryResponse) {
    response.stoppedByTool && ToolCalls(response.message.content) != []
  }

  lemma PushTurn(h: seq<Message>, t: Turn)
    requires Paired(h) && WholeUpTo(h, |h|) && TurnOk(t)
    ensures Inv(h + TurnMessages(t), !TurnWhole(t))
    ensures TurnWhole(t) ==> WholeUpTo(h + TurnMessages(t), |h + TurnMessages(t)|)
  {
    var h' := h + TurnMessages(t);
    AppendKeeps(h, TurnMessages(t), |h|);
    var use := t.response.message;
    assert h'[|h|] == use && InPlace(h', |h|) && !IsResult(use);
    if t.results != [] {
      ResultAnswers(t);
      assert h'[|h| + 1] == ResultMessage(t.results) && InPlace(h', |h| + 1);
    }
    assert WholeUpTo(h', |h| + 1);
  }

  lemma ResultAnswers(t: Turn)
    requires TurnOk(t) && t.results != []
    ensures IsResult(ResultMessage(t.results)) && Answers(t.response.message, ResultMessage(t.results))
    ensures TurnWhole(t) <==> AnswersAll(t.response.message, ResultMessage(t.results))
  {
    ResultBlockAt(t.results);
  }

  /** What a run appends keeps the invariant. */
  lemma {:induction false} RunKeepsInv(h: seq<Message>, turns: seq<Turn>, limit: int, after: bool)
    requires Paired(h) && WholeUpTo(h, |h|) && RunOk(turns, limit, false, after)
    ensures Inv(h + Transcript(turns), after)
    decreases |turns|
  {
    if turns == [] {
      assert h + [] == h;
    } else {
      var last := turns[|turns| - 1];
      var firsts := turns[..|turns| - 1];
      assert turns == firsts + [last];
      TranscriptSnoc(firsts, last);
      TurnsKeepWhole(h, firsts);
      PushTurn(h + Transcript(firsts), last);
      Regroup(h, Transcript(firsts), TurnMessages(last));
    }
  }

  lemma {:induction false} TurnsKeepWhole(h: seq<Message>, turns: seq<Turn>)
    requires Paired(h) && WholeUpTo(h, |h|)
    requires forall i :: 0 <= i < |turns| ==> TurnOk(turns[i]) && TurnWhole(turns[i])
    ensures var h' := h + Transcript(turns); Paired(h') && WholeUpTo(h', |h'|)
    decreases |turns|
  {
    if turns == [] {
      assert h + [] == h;
    } else {
      PushTurn(h, turns[0]);
      TurnsKeepWhole(h + TurnMessages(turns[0]), turns[1..]);
      Regroup(h, TurnMessages(turns[0]), Transcript(turns[1..]));
    }
  }

  /** One run appends at most two messages a turn. */
  lemma {:induction false} TranscriptLength(turns: seq<Turn>)
    ensures |turns| <= |Transcript(turns)| <= 2 * |turns|
    ensures (forall i :: 0 <= i < |turns| ==> turns[i].results != []) ==> |Transcript(turns)| == 2 * |turns|
    decreases |turns|
  {
    if turns != [] {
      TranscriptLength(turns[1..]);
    }
  }

  // ---------- compaction ----------

  /** The first clean boundary at or after the position keep messages from the end; 0 when nothing is removed. */
  ghost predicate CompactsTo(h: seq<Message>, keep: nat, removed: nat) {
    if |h| <= keep then removed == 0
    else
      (removed == 0 && forall i :: |h| - keep <= i < |h| ==> !PlainUser(h[i])) ||
      (|h| - keep <= removed < |h| && PlainUser(h[removed]) &&
       forall i :: |h| - keep <= i < removed ==> !PlainUser(h[i]))
  }

  /**
   The result is the unchanged history or the longest suffix within the limit that starts at
   a plain user message.
   */
  lemma CompactionIsMaximal(h: seq<Message>, keep: nat, removed: nat, j: nat)
    requires CompactsTo(h, keep, removed) && |h| > keep
    requires j < |h| && |h| - j <= keep && PlainUser(h[j])
    ensures 0 < removed <= j && |h[removed..]| <= keep && PlainUser(h[removed..][0])
  {}

  /** Compaction never separates a result from its tool use. */
  lemma CompactionKeepsInv(h: seq<Message>, aborted: bool, keep: nat, removed: nat)
    requires Inv(h, aborted) && CompactsTo(h, keep, removed)
    ensures removed <= |h| && Inv(h[removed..], aborted)
  {
    if removed == 0 {
      assert h[0..] == h;
      return;
    }
    var h' := h[removed..];
    PlainIsNoResult(h[removed]);
    assert forall i :: 0 <= i < |h'| ==> h'[i] == h[removed + i];
    assert Paired(h') by {
      forall i | 0 <= i < |h'| ensures InPlace(h', i) {
        assert InPlace(h, removed + i);
        if i > 0 { assert h'[i - 1] == h[removed + i - 1]; }
      }
    }
    if WholeUpTo(h, |h|) {
      SuffixWhole(h, removed, |h|);
    } else {
      var n: nat :| n < |h| && WholeUpTo(h, n) && forall j :: n < j < |h| ==> PlainUser(h[j]);
      if n < removed {
        forall i | 0 <= i < |h'| ensures !IsResult(h'[i]) { PlainIsNoResult(h[removed + i]); }
      } else {
        SuffixWhole(h, removed, n);
        assert WholeUpTo(h', n - removed);
        assert forall j :: n - removed < j < |h'| ==> PlainUser(h'[j]);
      }
    }
  }

  lemma SuffixWhole(h: seq<Message>, removed: nat, n: nat)
    requires removed < |h| && removed <= n && WholeUpTo(h, n) && PlainUser(h[removed])
    ensures WholeUpTo(h[removed..], n - removed)
  {
    var h' := h[removed..];
    PlainIsNoResult(h[removed]);
    forall i | 0 <= i < |h'| && i < n - removed && IsResult(h'[i]) ensures i > 0 && AnswersAll(h'[i - 1], h'[i]) {
      assert h'[i] == h[removed + i];
    }
  }

  // ---------- any sequence of operations ----------

  datatype Engine = Engine(messages: seq<Message>, aborted: bool, limit: int)

  const NEW_ENGINE := Engine([], false, 100)

  datatype Op =
    | Execute(input: string, turns: seq<Turn>)
    | ExecuteWithOptions(turns: seq<Turn>)
    | Compact(keep: nat, removed: nat)
    | ClearHistory
    | Abort
    | SetMaxIterations(max: int)

  ghost predicate Step(s: Engine, op: Op, s': Engine) {
    match op
    case Execute(input, turns) =>
      s'.messages == s.messages + [UserMessage(input)] + Transcript(turns) &&
      RunOk(turns, s.limit, s.aborted, s'.aborted) && s'.limit == s.limit
    case ExecuteWithOptions(turns) =>
      s'.messages == s.messages + Transcript(turns) &&
      RunOk(turns, s.limit, s.aborted, s'.aborted) && s'.limit == s.limit
    case Compact(keep, removed) =>
      CompactsTo(s.messages, keep, removed) && removed <= |s.messages| && s' == s.(messages := s.messages[removed..])
    case ClearHistory => s' == s.(messages := [])
    case Abort => s' == s.(aborted := true)
    case SetMaxIterations(max) => s' == s.(limit := max)
  }

  lemma StepKeepsInv(s: Engine, op: Op, s': Engine)
    requires Inv(s.messages, s.aborted) && Step(s, op, s')
    ensures Inv(s'.messages, s'.aborted) && (s.aborted ==> s'.aborted)
  {
    match op
    case Execute(input, turns) =>
      UserMessageIsPlain(input);
      PushUser(s.messages, s.aborted, UserMessage(input));
      RunFrom(s.messages + [UserMessage(input)], turns, s, s');
    case ExecuteWithOptions(turns) =>
      RunFrom(s.messages, turns, s, s');
    case Compact(keep, removed) =>
      CompactionKeepsInv(s.messages, s.aborted, keep, removed);
    case ClearHistory =>
    case Abort =>
    case SetMaxIterations(max) =>
  }

  lemma RunFrom(h: seq<Message>, turns: seq<Turn>, s: Engine, s': Engine)
    requires Inv(h, s.aborted) && RunOk(turns, s.limit, s.aborted, s'.aborted)
    ensures Inv(h + Transcript(turns), s'.aborted)
  {
    if s.aborted {
      assert h + Transcript(turns) == h;
    } else {
      RunKeepsInv(h, turns, s.limit, s'.aborted);
    }
  }

  ghost predicate Run(ss: seq<Engine>, ops: seq<Op>) {
    |ss| == |ops| + 1 && forall i :: 0 <= i < |ops| ==> Step(ss[i], ops[i], ss[i + 1])
  }

  /** In every history any interleaving of operations reaches, results directly follow the uses they answer. */
  lemma {:induction false} EveryHistoryIsPaired(ss: seq<Engine>, ops: seq<Op>)
    requires Run(ss, ops) && ss[0] == NEW_ENGINE
    ensures Inv(ss[|ops|].messages, ss[|ops|].aborted)
    decreases |ops|
  {
    if ops != [] {
      var n := |ops| - 1;
      assert Run(ss[..n + 1], ops[..n]);
      EveryHistoryIsPaired(ss[..n + 1], ops[..n]);
      StepKeepsInv(ss[n], ops[n], ss[n + 1]);
    }
  }

  /** What the invariant says of one message. */
  lemma ResultFollowsItsUse(h: seq<Message>, aborted: bool, i: nat)
    requires Inv(h, aborted) && i < |h| && IsResult(h[i])
    ensures i > 0 && Answers(h[i - 1], h[i])
    ensures !aborted ==> AnswersAll(h[i - 1], h[i])
    ensures !AnswersAll(h[i - 1], h[i]) ==> forall j :: i < j < |h| ==> PlainUser(h[j])
  {
    assert InPlace(h, i);
    assert !PlainUser(h[i]) by { if PlainUser(h[i]) { PlainIsNoResult(h[i]); } }
    if !WholeUpTo(h, |h|) {
      var n: nat :| n < |h| && WholeUpTo(h, n) && forall j :: n < j < |h| ==> PlainUser(h[j]);
      assert i <= n;
    }
  }

  /** An abort is never taken back: from then on execute only appends the user's message. */
  lemma AbortIsForever(s: Engine, input: string, turns: seq<Turn>, s': Engine)
    requires s.aborted && Step(s, Execute(input, turns), s')
    ensures s' == s.(messages := s.messages + [UserMessage(input)])
  {
    assert Transcript(turns) == [];
    assert s.messages + [UserMessage(input)] + [] == s.messages + [UserMessage(input)];
  }

  /** A run appends at most one user message and two messages per allowed iteration. */
  lemma RunIsBounded(s: Engine, input: string, turns: seq<Turn>, s': Engine)
    requires Step(s, Execute(input, turns), s')
    ensures |s'.messages| <= |s.messages| + 1 + 2 * (if s.limit < 0 then 0 else s.limit)
  {
    TranscriptLength(turns);
  }

  // ---------- is every tool use answered? ----------

  /** A message without tool uses, or one whose results all stand right behind it. */
  ghost predicate Answered(h: seq<Message>, i: nat)
    requires i < |h|
  {
    h[i].role == Assistant && ToolCalls(h[i].content) != [] ==>
      i + 1 < |h| && IsResult(h[i + 1]) && AnswersAll(h[i], h[i + 1])
  }

  /** What the API asks of a request. */
  ghost predicate AllAnswered(h: seq<Message>) {
    forall i :: 0 <= i < |h| ==> Answered(h, i)
  }

  /** Every tool use of the response has its result. */
  predicate Settled(t: Turn) {
    |t.results| == |ToolCalls(t.response.message.content)|
  }

  ghost predicate AllSettled(turns: seq<Turn>) {
    forall i :: 0 <= i < |turns| ==> Settled(turns[i])
  }

  lemma AppendAnswered(h: seq<Message>, more: seq<Message>)
    requires AllAnswered(h)
    ensures AllAnswered(h + more) <==> AllAnswered(more)
  {
    var all := h + more;
    forall i | 0 <= i < |h| ensures Answered(all, i) {
      assert Answered(h, i);
      if i + 1 < |h| { assert all[i + 1] == h[i + 1]; }
    }
    forall i | 0 <= i < |more| ensures Answered(all, |h| + i) <==> Answered(more, i) {
      assert all[|h| + i] == more[i];
      if i + 1 < |more| { assert all[|h| + i + 1] == more[i + 1]; }
    }
    if AllAnswered(more) {
      forall i | 0 <= i < |all| ensures Answered(all, i) {
        if i >= |h| { assert Answered(more, i - |h|); }
      }
    }
    if AllAnswered(all) {
      forall i | 0 <= i < |more| ensures Answered(more, i) {
        assert Answered(all, |h| + i);
      }
    }
  }

  lemma TurnAnsweredIff(t: Turn)
    requires TurnOk(t)
    ensures AllAnswered(TurnMessages(t)) <==> Settled(t)
  {
    var h, use := TurnMessages(t), t.response.message;
    assert h[0] == use;
    if t.results != [] {
      ResultBlockAt(t.results);
      ResultAnswers(t);
      assert h[1] == ResultMessage(t.results) && h[1].role != Assistant;
      assert Answered(h, 1);
    }
    assert Answered(h, 0) <==> Settled(t);
    assert AllAnswered(h) ==> Answered(h, 0);
  }

  /** A turn that is not the last goes on, so it is answered; an unanswered last one stays so. */
  lemma TurnThenMore(t: Turn, more: seq<Message>)
    requires TurnOk(t) && Continues(t) && TurnWhole(t)
    ensures AllAnswered(TurnMessages(t) + more) <==> AllAnswered(more)
  {
    TurnAnsweredIff(t);
    AppendAnswered(TurnMessages(t), more);
  }

  lemma {:induction false} TurnsAnsweredIff(turns: seq<Turn>)
    requires forall i :: 0 <= i < |turns| ==> TurnOk(turns[i])
    requires forall i :: 0 <= i < |turns| - 1 ==> Continues(turns[i]) && TurnWhole(turns[i])
    ensures AllAnswered(Transcript(turns)) <==> AllSettled(turns)
    decreases |turns|
  {
    if |turns| == 1 {
      assert turns[1..] == [] && TurnMessages(turns[0]) + [] == TurnMessages(turns[0]);
      TurnAnsweredIff(turns[0]);
    } else if |turns| > 1 {
      var rest := turns[1..];
      TurnsAnsweredIff(rest);
      TurnThenMore(turns[0], Transcript(rest));
      assert Settled(turns[0]);
      assert forall i :: 0 < i < |turns| ==> turns[i] == rest[i - 1];
    }
  }

  /** What a run leaves behind is answered exactly when every turn has all its results. */
  lemma RunAnswersIff(h: seq<Message>, turns: seq<Turn>, limit: int, before: bool, after: bool)
    requires AllAnswered(h) && RunOk(turns, limit, before, after)
    ensures AllAnswered(h + Transcript(turns)) <==> AllSettled(turns)
  {
    AppendAnswered(h, Transcript(turns));
    TurnsAnsweredIff(turns);
  }

  /** Without an abort: exactly when no response has tool uses but another stop reason, such as a token limit. */
  lemma UnabortedRunAnswersIff(h: seq<Message>, turns: seq<Turn>, limit: int)
    requires AllAnswered(h) && RunOk(turns, limit, false, false)
    ensures AllAnswered(h + Transcript(turns)) <==>
            forall i :: 0 <= i < |turns| && ToolCalls(turns[i].response.message.content) != [] ==>
                          turns[i].response.stoppedByTool
  {
    RunAnswersIff(h, turns, limit, false, false);
    forall i | 0 <= i < |turns|
      ensures Settled(turns[i]) <==>
              (ToolCalls(turns[i].response.message.content) != [] ==> turns[i].response.stoppedByTool)
    {
      assert TurnOk(turns[i]);
      assert TurnWhole(turns[i]) by { assert i < |turns| - 1 || i == |turns| - 1; }
    }
  }

  /** Compaction and the user's messages never take an answer away. */
  lemma SuffixAnswered(h: seq<Message>, removed: nat)
    requires AllAnswered(h) && removed <= |h|
    ensures AllAnswered(h[removed..])
  {
    var h' := h[removed..];
    forall i | 0 <= i < |h'| ensures Answered(h', i) {
      assert Answered(h, removed + i);
      assert h'[i] == h[removed + i];
      if i + 1 < |h'| { assert h'[i + 1] == h[removed + i + 1]; }
    }
  }

  function TurnsOf(op: Op): seq<Turn> {
    match op
    case Execute(_, turns) => turns
    case ExecuteWithOptions(turns) => turns
    case _ => []
  }

  lemma StepKeepsAnswers(s: Engine, op: Op, s': Engine)
    requires AllAnswered(s.messages) && Step(s, op, s') && AllSettled(TurnsOf(op))
    ensures AllAnswered(s'.messages)
  {
    match op
    case Execute(input, turns) =>
      var m := UserMessage(input);
      assert AllAnswered([m]);
      AppendAnswered(s.messages, [m]);
      RunAnswersIff(s.messages + [m], turns, s.limit, s.aborted, s'.aborted);
    case ExecuteWithOptions(turns) =>
      RunAnswersIff(s.messages, turns, s.limit, s.aborted, s'.aborted);
    case Compact(keep, removed) => SuffixAnswered(s.messages, removed);
    case ClearHistory =>
    case Abort =>
    case SetMaxIterations(max) =>
  }

  /** In every history reached by turns that have all their results, every tool use is answered right behind it. */
  lemma {:induction false} EveryUseIsAnswered(ss: seq<Engine>, ops: seq<Op>)
    requires Run(ss, ops) && ss[0] == NEW_ENGINE
    requires forall i :: 0 <= i < |ops| ==> AllSettled(TurnsOf(ops[i]))
    ensures AllAnswered(ss[|ops|].messages)
    decreases |ops|
  {
    if ops != [] {
      var n := |ops| - 1;
      assert Run(ss[..n + 1], ops[..n]);
      EveryUseIsAnswered(ss[..n + 1], ops[..n]);
      StepKeepsAnswers(ss[n], ops[n], ss[n + 1]);
    }
  }
}
