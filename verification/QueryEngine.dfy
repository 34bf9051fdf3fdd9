/**
 The query engine. The API client and the tools may answer anything, and the
 abort flag may be raised by another thread between any two steps; an API
 response is assumed to be an assistant message.
 */
module QueryEngines {
  import opened Wrappers
  import opened Messages
  import opened History
  import opened CostTracking

  // ---------- what the tools were asked and what they said ----------

  /** The result tells the output: its content, or its error message as an error; an unknown tool is an error. */
  predicate Tells(r: ToolResult, tools: set<string>, call: ToolCall, output: ToolOutput) {
    r.toolUseId == call.id &&
    if call.name !in tools then
      r.status == Error && r.isError && r.content == "Unknown tool: " + call.name
    else if output.isError then
      r.status == Error && r.isError && r.content == output.errorMessage
    else
      r.status == Success && !r.isError && r.content == output.content
  }

  /** The calls of known tools with their outputs, in order. */
  function Ran(tools: set<string>, calls: seq<ToolCall>, outputs: seq<ToolOutput>): seq<(ToolCall, ToolOutput)>
    requires |outputs| <= |calls|
    decreases |outputs|
  {
    if outputs == [] then []
    else
      var n := |outputs| - 1;
      Ran(tools, calls, outputs[..n]) + if calls[n].name in tools then [(calls[n], outputs[n])] else []
  }

  lemma RanSnoc(tools: set<string>, calls: seq<ToolCall>, outputs: seq<ToolOutput>, output: ToolOutput)
    requires |outputs| < |calls|
    ensures Ran(tools, calls, outputs + [output]) ==
            Ran(tools, calls, outputs) +
            if calls[|outputs|].name in tools then [(calls[|outputs|], output)] else []
  {
    assert (outputs + [output])[..|outputs|] == outputs;
  }

  function CallsOf(t: Turn): seq<ToolCall> {
    ToolCalls(t.response.message.content)
  }

  /** The i-th result tells the output of the i-th call. */
  ghost predicate TellsAll(results: seq<ToolResult>, tools: set<string>, calls: seq<ToolCall>,
                           outputs: seq<ToolOutput>) {
    |outputs| == |results| <= |calls| &&
    forall i :: 0 <= i < |results| ==> Tells(results[i], tools, calls[i], outputs[i])
  }

  ghost predicate TurnTells(tools: set<string>, t: Turn) {
    TellsAll(t.results, tools, CallsOf(t), t.outputs)
  }

  /** The tools run in the turns, in order. */
  ghost function RanIn(tools: set<string>, turns: seq<Turn>): seq<(ToolCall, ToolOutput)>
    requires forall i :: 0 <= i < |turns| ==> TurnTells(tools, turns[i])
    decreases |turns|
  {
    if turns == [] then []
    else
      var n := |turns| - 1;
      assert TurnTells(tools, turns[n]);
      RanIn(tools, turns[..n]) + Ran(tools, CallsOf(turns[n]), turns[n].outputs)
  }

  /** Every tool run was asked for by these turns, in order, and every result of theirs tells its output. */
  ghost predicate ToolsRan(executed: seq<(ToolCall, ToolOutput)>, tools: set<string>, turns: seq<Turn>) {
    (forall i :: 0 <= i < |turns| ==> TurnTells(tools, turns[i])) && executed == RanIn(tools, turns)
  }

  lemma ToolsRanSnoc(executed: seq<(ToolCall, ToolOutput)>, tools: set<string>, turns: seq<Turn>,
                     t: Turn, more: seq<(ToolCall, ToolOutput)>)
    requires ToolsRan(executed, tools, turns) && TurnTells(tools, t)
    requires more == Ran(tools, CallsOf(t), t.outputs)
    ensures ToolsRan(executed + more, tools, turns + [t])
  {
    var ts := turns + [t];
    assert ts[..|turns|] == turns;
    forall i | 0 <= i < |ts| ensures TurnTells(tools, ts[i]) {
      if i < |turns| { assert ts[i] == turns[i]; }
    }
  }

  // ---------- what a run costs ----------

  function UsageOf(turns: seq<Turn>): Usage {
    if turns == [] then NO_USAGE
    else AddUsage(UsageOf(turns[..|turns| - 1]), turns[|turns| - 1].response.usage)
  }

  function ResultCount(turns: seq<Turn>): nat {
    if turns == [] then 0 else ResultCount(turns[..|turns| - 1]) + |turns[|turns| - 1].results|
  }

  /** What the turns cost under one model. */
  function UsageUnder(turns: seq<Turn>, model: string): Usage {
    if turns == [] then NO_USAGE
    else
      var response := turns[|turns| - 1].response;
      AddUsage(UsageUnder(turns[..|turns| - 1], model),
               if response.message.model == model then response.usage else NO_USAGE)
  }

  lemma CostsSnoc(turns: seq<Turn>, t: Turn)
    ensures UsageOf(turns + [t]) == AddUsage(UsageOf(turns), t.response.usage)
    ensures ResultCount(turns + [t]) == ResultCount(turns) + |t.results|
  {
    assert (turns + [t])[..|turns|] == turns;
  }

  lemma UsageUnderSnoc(turns: seq<Turn>, t: Turn, model: string)
    ensures UsageUnder(turns + [t], model) ==
            AddUsage(UsageUnder(turns, model), if t.response.message.model == model then t.response.usage else NO_USAGE)
  {
    assert (turns + [t])[..|turns|] == turns;
  }

  /** Every model was charged for the turns it answered, and for no other. */
  ghost predicate ModelsCharged(models: map<string, Usage>, before: map<string, Usage>, turns: seq<Turn>) {
    forall m :: Get(models, m) == AddUsage(Get(before, m), UsageUnder(turns, m))
  }

  lemma ModelChargedSnoc(model: Usage, before: Usage, turns: seq<Turn>, t: Turn, m: string)
    requires model == AddUsage(before, UsageUnder(turns, m))
    ensures (if t.response.message.model == m then AddUsage(model, t.response.usage) else model) ==
            AddUsage(before, UsageUnder(turns + [t], m))
  {
    UsageUnderSnoc(turns, t, m);
    AddUsageLaws(before, UsageUnder(turns, m), t.response.usage);
    AddUsageLaws(UsageUnder(turns, m), NO_USAGE, NO_USAGE);
  }

  lemma GetOfUpdate(models: map<string, Usage>, k: string, u: Usage, m: string)
    ensures Get(models[k := AddUsage(Get(models, k), u)], m) ==
            if k == m then AddUsage(Get(models, m), u) else Get(models, m)
  {}

  lemma ModelsChargedSnoc(models: map<string, Usage>, before: map<string, Usage>, turns: seq<Turn>, t: Turn)
    requires ModelsCharged(models, before, turns)
    ensures var k := t.response.message.model;
            ModelsCharged(models[k := AddUsage(Get(models, k), t.response.usage)], before, turns + [t])
  {
    var k := t.response.message.model;
    var models' := models[k := AddUsage(Get(models, k), t.response.usage)];
    forall m ensures Get(models', m) == AddUsage(Get(before, m), UsageUnder(turns + [t], m)) {
      ModelChargedSnoc(Get(models, m), Get(before, m), turns, t, m);
      GetOfUpdate(models, k, t.response.usage, m);
    }
  }

  /** The tool results in a history. */
  function ResultsIn(h: seq<Message>): nat {
    if h == [] then 0 else (if IsResult(h[0]) then |h[0].content| else 0) + ResultsIn(h[1..])
  }

  lemma {:induction false} ResultsInConcat(h: seq<Message>, more: seq<Message>)
    ensures ResultsIn(h + more) == ResultsIn(h) + ResultsIn(more)
    decreases |h|
  {
    if h == [] {
      assert h + more == more;
    } else {
      assert (h + more)[1..] == h[1..] + more;
      ResultsInConcat(h[1..], more);
    }
  }

  lemma ResultsInOne(m: Message)
    ensures ResultsIn([m]) == if IsResult(m) then |m.content| else 0
  {
    assert [m][1..] == [];
  }

  lemma ResultsInTurn(t: Turn)
    requires TurnOk(t)
    ensures ResultsIn(TurnMessages(t)) == |t.results|
  {
    var use, answer := t.response.message, ResultMessage(t.results);
    ResultsInOne(use);
    if t.results != [] {
      ResultAnswers(t);
      ResultBlockAt(t.results);
      ResultsInOne(answer);
      ResultsInConcat([use], [answer]);
    }
  }

  /** Every counted tool call left exactly one result in the history, and every result was counted. */
  lemma {:induction false} CountedCallsAreResults(turns: seq<Turn>)
    requires forall i :: 0 <= i < |turns| ==> TurnOk(turns[i])
    ensures ResultCount(turns) == ResultsIn(Transcript(turns))
    decreases |turns|
  {
    if turns != [] {
      var firsts, last := turns[..|turns| - 1], turns[|turns| - 1];
      assert turns == firsts + [last];
      CountedCallsAreResults(firsts);
      TranscriptSnoc(firsts, last);
      ResultsInConcat(Transcript(firsts), TurnMessages(last));
      ResultsInTurn(last);
    }
  }

  /** A request and the API's answer to it. */
  datatype Exchange = Exchange(request: seq<Message>, response: QueryResponse)

  /**
   The first request is the caller's, every later one is the whole history as it was then,
   and the turns are made of the answers.
   */
  ghost predicate Exchanged(exchanges: seq<Exchange>, first: seq<Message>, base: seq<Message>, turns: seq<Turn>) {
    |exchanges| == |turns| &&
    forall i :: 0 <= i < |turns| ==>
                  exchanges[i].response == turns[i].response &&
                  exchanges[i].request == if i == 0 then first else base + Transcript(turns[..i])
  }

  lemma ExchangedSnoc(exchanges: seq<Exchange>, first: seq<Message>, base: seq<Message>, turns: seq<Turn>,
                      request: seq<Message>, t: Turn)
    requires Exchanged(exchanges, first, base, turns)
    requires request == if turns == [] then first else base + Transcript(turns)
    ensures Exchanged(exchanges + [Exchange(request, t.response)], first, base, turns + [t])
  {
    var xs, ts := exchanges + [Exchange(request, t.response)], turns + [t];
    forall i | 0 <= i < |ts|
      ensures xs[i].response == ts[i].response &&
              xs[i].request == if i == 0 then first else base + Transcript(ts[..i])
    {
      if i < |turns| {
        assert ts[..i] == turns[..i];
      } else {
        assert ts[..i] == turns;
      }
    }
  }

  /** The turns of a run that is still going: each went on, and none lacks a result unless an abort came. */
  ghost predicate Going(turns: seq<Turn>, before: bool, now: bool) {
    (before ==> now && turns == []) &&
    (forall i :: 0 <= i < |turns| ==> TurnOk(turns[i]) && Continues(turns[i])) &&
    (forall i :: 0 <= i < |turns| - 1 ==> TurnWhole(turns[i])) &&
    (turns != [] && !now ==> TurnWhole(turns[|turns| - 1]))
  }

  lemma GoOn(turns: seq<Turn>, before: bool, seen: bool, t: Turn, now: bool)
    requires Going(turns, before, seen) && !seen && TurnOk(t) && (!now ==> TurnWhole(t))
    ensures Continues(t) ==> Going(turns + [t], before, now)
    ensures !Continues(t) ==> forall limit :: |turns| < limit ==> RunOk(turns + [t], limit, before, now)
  {
    var ts := turns + [t];
    assert forall i :: 0 <= i < |turns| ==> ts[i] == turns[i];
  }

  /** A run may stop between two turns at the limit or by an abort. */
  lemma StopBetween(turns: seq<Turn>, limit: int, before: bool, now: bool)
    requires Going(turns, before, now) && |turns| <= (if limit < 0 then 0 else limit)
    requires now || |turns| >= limit
    ensures RunOk(turns, limit, before, now)
  {}

  /** An abort that comes after the last turn leaves the turns as they are. */
  lemma LateAbort(turns: seq<Turn>, limit: int, before: bool, now: bool)
    requires RunOk(turns, limit, before, now) && (before ==> now)
    ensures RunOk(turns, limit, before, true)
  {}

  datatype Snapshot = Snapshot(
    engine: Engine, exchanges: seq<Exchange>, executed: seq<(ToolCall, ToolOutput)>, signals: nat,
    total: Usage, models: map<string, Usage>, toolCalls: int, apiCalls: int)

  /** What the tracker holds after the turns of a run that began at s. */
  ghost predicate Accounted(tracker: CostTracker, s: Snapshot, turns: seq<Turn>)
    reads tracker
  {
    tracker.total == AddUsage(s.total, UsageOf(turns)) &&
    ModelsCharged(tracker.modelUsage, s.models, turns) &&
    tracker.toolCalls == s.toolCalls + ResultCount(turns) &&
    tracker.apiCalls == s.apiCalls + |turns| &&
    (s.total == Sum(s.models) ==> tracker.Balanced())
  }

  function LastResponse(turns: seq<Turn>): QueryResponse {
    if turns == [] then EMPTY_RESPONSE else turns[|turns| - 1].response
  }

  function FinalResponse(turns: seq<Turn>, aborted: bool): QueryResponse {
    if aborted then LastResponse(turns).(stopReason := "abort") else LastResponse(turns)
  }

  /** The last response, already marked or not yet. */
  ghost predicate Said(final: QueryResponse, turns: seq<Turn>, aborted: bool) {
    final == LastResponse(turns) || (aborted && final == LastResponse(turns).(stopReason := "abort"))
  }

  lemma ExecuteStep(s: Engine, input: string, turns: seq<Turn>, base: seq<Message>, s': Engine)
    requires Inv(s.messages, s.aborted)
    requires base == s.messages + [UserMessage(input)] && s'.messages == base + Transcript(turns)
    requires RunOk(turns, s.limit, s.aborted, s'.aborted) && s'.limit == s.limit
    ensures Step(s, Op.Execute(input, turns), s') && Inv(s'.messages, s'.aborted)
  {
    StepKeepsInv(s, Op.Execute(input, turns), s');
  }

  /** What one turn adds to the tracker. */
  ghost predicate Charged(s: Snapshot, s': Snapshot, t: Turn) {
    var k := t.response.message.model;
    s'.total == AddUsage(s.total, t.response.usage) &&
    s'.models == s.models[k := AddUsage(Get(s.models, k), t.response.usage)] &&
    s'.toolCalls == s.toolCalls + |t.results| && s'.apiCalls == s.apiCalls + 1
  }

  /** The account after one turn more. */
  lemma AccountedSnoc(tracker: CostTracker, s: Snapshot, before: Snapshot, now: Snapshot, turns: seq<Turn>, t: Turn)
    requires before.total == AddUsage(s.total, UsageOf(turns)) && ModelsCharged(before.models, s.models, turns)
    requires before.toolCalls == s.toolCalls + ResultCount(turns) && before.apiCalls == s.apiCalls + |turns|
    requires s.total == Sum(s.models) ==> before.total == Sum(before.models)
    requires Charged(before, now, t) && tracker.total == now.total && tracker.modelUsage == now.models
    requires tracker.toolCalls == now.toolCalls && tracker.apiCalls == now.apiCalls
    ensures Accounted(tracker, s, turns + [t])
  {
    CostsSnoc(turns, t);
    ModelsChargedSnoc(before.models, s.models, turns, t);
    AddUsageLaws(s.total, UsageOf(turns), t.response.usage);
    SumOfUpdate(before.models, t.response.message.model, t.response.usage);
  }

  class QueryEngine {
    var messages: seq<Message>
    var aborted: bool
    var maxIterations: int
    const tracker: CostTracker
    const tools: set<string>  // the names the registry finds
    ghost var exchanges: seq<Exchange>  // everything sent to the API, with its answers
    ghost var executed: seq<(ToolCall, ToolOutput)>  // every tool run
    ghost var signals: nat  // how often another thread raised the flag

    ghost function State(): Engine
      reads this
    {
      Engine(messages, aborted, maxIterations)
    }

    /** The flag was raised before, or another thread has raised it since; nothing else raises it. */
    ghost predicate SignalledSince(before: bool, count: nat)
      reads this`aborted, this`signals
    {
      count <= signals && aborted == (before || signals > count)
    }

    /** Everything a run changes or counts from. */
    ghost function Now(): Snapshot
      reads this, tracker
    {
      Snapshot(State(), exchanges, executed, signals,
               tracker.total, tracker.modelUsage, tracker.toolCalls, tracker.apiCalls)
    }

    /** What holds after the given turns of a run that began at s with the given first request. */
    ghost predicate Progress(s: Snapshot, first: seq<Message>, turns: seq<Turn>)
      reads this`messages, this`maxIterations, this`exchanges, this`executed, tracker
    {
      messages == s.engine.messages + Transcript(turns) && maxIterations == s.engine.limit &&
      Logged(s, first, turns) && Accounted(tracker, s, turns)
    }

    /** What was said to the API and to the tools since s is what the turns tell. */
    ghost predicate Logged(s: Snapshot, first: seq<Message>, turns: seq<Turn>)
      reads this`exchanges, this`executed
    {
      s.exchanges <= exchanges && Exchanged(exchanges[|s.exchanges|..], first, s.engine.messages, turns) &&
      s.executed <= executed && ToolsRan(executed[|s.executed|..], tools, turns)
    }

    ghost predicate Valid()
      reads this, tracker
    {
      Inv(messages, aborted) && tracker.Balanced()
    }

    constructor (tracker: CostTracker, tools: set<string>)
      requires tracker.Balanced()
      ensures State() == NEW_ENGINE && Valid() && this.tracker == tracker && this.tools == tools
      ensures exchanges == [] && executed == [] && signals == 0
    {
      this.tracker, this.tools := tracker, tools;
      messages, aborted, maxIterations, exchanges, executed, signals := [], false, 100, [], [], 0;
    }

    method AbortQuery()
      modifies this`aborted
      ensures Step(old(State()), Abort, State())
    {
      aborted := true;
    }

    method ClearHistory()
      modifies this`messages
      ensures Step(old(State()), Op.ClearHistory, State())
    {
      messages := [];
    }

    method SetMaxIterations(max: int)
      modifies this`maxIterations
      ensures Step(old(State()), Op.SetMaxIterations(max), State())
    {
      maxIterations := max;
    }

    method Compact(keepRecent: nat) returns (removed: nat)
      modifies this`messages
      ensures Step(old(State()), Op.Compact(keepRecent, removed), State())
      ensures removed + |messages| == |old(messages)|
    {
      if |messages| <= keepRecent {
        assert messages[0..] == messages;
        return 0;
      }
      var trimStart := |messages| - keepRecent;
      while trimStart < |messages|
        invariant |messages| - keepRecent <= trimStart <= |messages|
        invariant forall i :: |messages| - keepRecent <= i < trimStart ==> !PlainUser(messages[i])
      {
        var msg := messages[trimStart];
        if msg.role == User && |msg.content| > 0 && msg.content[0].kind == Text { break; }
        trimStart := trimStart + 1;
      }
      if trimStart >= |messages| {
        assert messages[0..] == messages;
        return 0;
      }
      messages := messages[trimStart..];
      return trimStart;
    }

    /** The abort flag, which another thread may just have raised. */
    method PollAbort() returns (b: bool)
      modifies this`aborted, this`signals
      ensures b == aborted && SignalledSince(old(aborted), old(signals))
    {
      var raised: bool := *;
      if raised { aborted, signals := true, signals + 1; }
      b := aborted;
    }

    /** Any response at all, except that its message is the assistant's. */
    method CreateMessageStream(request: seq<Message>) returns (r: QueryResponse)
      modifies this`exchanges
      ensures exchanges == old(exchanges) + [Exchange(request, r)]
      ensures r.message.role == Assistant
    {
      var any: QueryResponse := *;
      r := any.(message := any.message.(role := Assistant));
      exchanges := exchanges + [Exchange(request, r)];
    }

    /** A tool may answer anything. */
    method ExecuteTool(call: ToolCall) returns (output: ToolOutput)
      modifies this`executed
      ensures executed == old(executed) + [(call, output)]
    {
      output := *;
      executed := executed + [(call, output)];
    }

    /** A known tool runs once and its output becomes the result; an unknown one gets an error. */
    method ExecuteToolCall(call: ToolCall) returns (r: ToolResult, output: ToolOutput)
      modifies this`executed
      ensures Tells(r, tools, call, output)
      ensures executed == old(executed) + if call.name in tools then [(call, output)] else []
    {
      if call.name !in tools {
        output := *;
        return ToolResult(call.id, Error, "Unknown tool: " + call.name, true), output;
      }
      // Permission is granted in every mode.
      output := ExecuteTool(call);
      r := ToolResult(call.id, if output.isError then Error else Success,
                      if output.isError then output.errorMessage else output.content, output.isError);
    }

    /** The tools of one response, in order, until all have run or the flag is seen. */
    method ExecuteToolCalls(calls: seq<ToolCall>) returns (results: seq<ToolResult>, outputs: seq<ToolOutput>)
      modifies this`aborted, this`signals, this`executed, tracker`toolCalls
      ensures SignalledSince(old(aborted), old(signals))
      ensures TellsAll(results, tools, calls, outputs) && (!aborted ==> |results| == |calls|)
      ensures |outputs| <= |calls| && executed == old(executed) + Ran(tools, calls, outputs)
      ensures tracker.toolCalls == old(tracker.toolCalls) + |results|
    {
      results, outputs := [], [];
      for i := 0 to |calls|
        invariant |results| == i && SignalledSince(old(aborted), old(signals))
        invariant TellsAll(results, tools, calls, outputs)
        invariant executed == old(executed) + Ran(tools, calls, outputs)
        invariant tracker.toolCalls == old(tracker.toolCalls) + |results|
      {
        var stop := PollAbort();
        if stop { return; }
        var result, output := ExecuteToolCall(calls[i]);
        RanSnoc(tools, calls, outputs, output);
        Regroup(old(executed), Ran(tools, calls, outputs), if calls[i].name in tools then [(calls[i], output)] else []);
        results, outputs := results + [result], outputs + [output];
        tracker.IncrementToolCalls();
      }
    }

    /** The response's tokens go into the totals and under its model, and one call is counted. */
    method RecordCosts(response: QueryResponse)
      modifies tracker
      ensures tracker.total == AddUsage(old(tracker.total), response.usage)
      ensures var k := response.message.model;
              tracker.modelUsage ==
              old(tracker.modelUsage)[k := AddUsage(Get(old(tracker.modelUsage), k), response.usage)]
      ensures tracker.toolCalls == old(tracker.toolCalls) && tracker.apiCalls == old(tracker.apiCalls) + 1
    {
      tracker.RecordUsage(response.usage);
      tracker.RecordModelUsage(response.message.model, response.usage);
      tracker.RecordApiCall();
    }

    /** The request is sent, and the response is recorded and appended. */
    method Ask(request: seq<Message>) returns (response: QueryResponse)
      modifies this`messages, this`exchanges, tracker
      ensures response.message.role == Assistant && messages == old(messages) + [response.message]
      ensures exchanges == old(exchanges) + [Exchange(request, response)]
      ensures tracker.total == AddUsage(old(tracker.total), response.usage)
      ensures var k := response.message.model;
              tracker.modelUsage ==
              old(tracker.modelUsage)[k := AddUsage(Get(old(tracker.modelUsage), k), response.usage)]
      ensures tracker.toolCalls == old(tracker.toolCalls) && tracker.apiCalls == old(tracker.apiCalls) + 1
    {
      response := CreateMessageStream(request);
      RecordCosts(response);
      messages := messages + [response.message];
    }

    /** One request: response recorded and appended, tools run, their results appended. */
    method RunTurn(request: seq<Message>) returns (t: Turn)
      modifies this`messages, this`aborted, this`signals, this`exchanges, this`executed, tracker
      ensures SignalledSince(old(aborted), old(signals))
      ensures TurnOk(t) && TurnTells(tools, t) && (!aborted ==> TurnWhole(t))
      ensures messages == old(messages) + TurnMessages(t) && maxIterations == old(maxIterations)
      ensures exchanges == old(exchanges) + [Exchange(request, t.response)]
      ensures executed == old(executed) + Ran(tools, CallsOf(t), t.outputs)
      ensures Charged(old(Now()), Now(), t)
    {
      var response := Ask(request);
      t := Turn(response, [], []);
      if !response.stoppedByTool { return; }
      var calls := CollectToolCalls(response.message);
      var results, outputs := ExecuteToolCalls(calls);
      t := Turn(response, results, outputs);
      if results == [] { return; }
      var resultMessage := CreateToolResultMessage(results);
      messages := messages + [resultMessage];
    }

    /** One more turn behind the ones a run already made. */
    method NextTurn(request: seq<Message>, ghost s: Snapshot, ghost first: seq<Message>, ghost turns: seq<Turn>)
      returns (t: Turn)
      requires Progress(s, first, turns) && Going(turns, s.engine.aborted, aborted) && !aborted
      requires request == if turns == [] then first else messages
      modifies this`messages, this`aborted, this`signals, this`exchanges, this`executed, tracker
      ensures Progress(s, first, turns + [t])
      ensures SignalledSince(old(aborted), old(signals))
      ensures Continues(t) ==> Going(turns + [t], s.engine.aborted, aborted)
      ensures !Continues(t) && |turns| < maxIterations ==> RunOk(turns + [t], maxIterations, s.engine.aborted, aborted)
    {
      ghost var base := s.engine.messages;
      ghost var sent, ran := exchanges[|s.exchanges|..], executed[|s.executed|..];
      ghost var before := Now();
      t := RunTurn(request);
      GoOn(turns, s.engine.aborted, false, t, aborted);
      TranscriptSnoc(turns, t);
      Regroup(base, Transcript(turns), TurnMessages(t));
      ExchangedSnoc(sent, first, base, turns, request, t);
      Extend(old(exchanges), [Exchange(request, t.response)], |s.exchanges|, |s.exchanges|);
      ToolsRanSnoc(ran, tools, turns, t, Ran(tools, CallsOf(t), t.outputs));
      Extend(old(executed), Ran(tools, CallsOf(t), t.outputs), |s.executed|, |s.executed|);
      AccountedSnoc(tracker, s, before, Now(), turns, t);
    }

    /** Before the first turn. */
    lemma Begin(first: seq<Message>)
      ensures Progress(Now(), first, [])
    {
      AddUsageLaws(tracker.total, NO_USAGE, NO_USAGE);
      forall m ensures Get(tracker.modelUsage, m) == AddUsage(Get(tracker.modelUsage, m), UsageUnder([], m)) {
        AddUsageLaws(Get(tracker.modelUsage, m), NO_USAGE, NO_USAGE);
      }
      assert messages + [] == messages;
    }

    /** One pass through the loop: poll, take a turn, and say whether to go on. */
    method Iterate(request: seq<Message>, final: QueryResponse,
                   ghost s: Snapshot, ghost first: seq<Message>, ghost turns: seq<Turn>)
      returns (goOn: bool, final': QueryResponse, ghost turns': seq<Turn>)
      requires Progress(s, first, turns) && Going(turns, s.engine.aborted, aborted) && |turns| < maxIterations
      requires request == if turns == [] then first else messages
      requires final == LastResponse(turns)
      modifies this`messages, this`aborted, this`signals, this`exchanges, this`executed, tracker
      ensures Progress(s, first, turns') && SignalledSince(old(aborted), old(signals))
      ensures goOn ==> Going(turns', s.engine.aborted, aborted) && |turns'| == |turns| + 1
      ensures goOn ==> final' == LastResponse(turns')
      ensures !goOn ==> RunOk(turns', s.engine.limit, s.engine.aborted, aborted) && Said(final', turns', aborted)
    {
      var stop := PollAbort();
      if stop {
        StopBetween(turns, maxIterations, s.engine.aborted, aborted);
        return false, final.(stopReason := "abort"), turns;
      }
      var t := NextTurn(request, s, first, turns);
      return t.response.stoppedByTool && t.results != [], t.response, turns + [t];
    }

    /** The turns of the loop, up to the limit, a turn that does not go on, or an abort between two turns. */
    method RunTurns(firstRequest: seq<Message>) returns (goOn: bool, final: QueryResponse, ghost turns: seq<Turn>)
      modifies this`messages, this`aborted, this`signals, this`exchanges, this`executed, tracker
      ensures Progress(old(Now()), firstRequest, turns) && SignalledSince(old(aborted), old(signals))
      ensures goOn ==> Going(turns, old(aborted), aborted) && final == LastResponse(turns)
      ensures goOn ==> |turns| == if maxIterations < 0 then 0 else maxIterations
      ensures !goOn ==> RunOk(turns, maxIterations, old(aborted), aborted) && Said(final, turns, aborted)
    {
      goOn, final, turns := true, EMPTY_RESPONSE, [];
      var currentMessages := firstRequest;
      ghost var s := Now();
      Begin(firstRequest);
      var iteration := 0;
      while goOn && iteration < maxIterations
        invariant var progress := Progress(s, firstRequest, turns); progress  // kept as one fact
        invariant SignalledSince(s.engine.aborted, s.signals)
        invariant goOn ==> Pending(s, firstRequest, currentMessages, final, turns, iteration)
        invariant !goOn ==> RunOk(turns, s.engine.limit, s.engine.aborted, aborted) && Said(final, turns, aborted)
        decreases goOn, maxIterations - iteration
      {
        goOn, final, turns := Iterate(currentMessages, final, s, firstRequest, turns);
        currentMessages := messages;
        iteration := iteration + 1;
      }
    }

    /** Between two turns: what the next one starts from. */
    ghost predicate Pending(s: Snapshot, first: seq<Message>, current: seq<Message>, final: QueryResponse,
                            turns: seq<Turn>, iteration: int)
      reads this`messages, this`aborted
    {
      Going(turns, s.engine.aborted, aborted) && |turns| == iteration &&
      (iteration <= s.engine.limit || iteration == 0) &&
      current == (if turns == [] then first else messages) && final == LastResponse(turns)
    }

    /** The loop. Only the first request is the caller's; every later one is the history. */
    method RunToolCallLoop(firstRequest: seq<Message>) returns (final: QueryResponse, ghost turns: seq<Turn>)
      modifies this`messages, this`aborted, this`signals, this`exchanges, this`executed, tracker
      ensures Progress(old(Now()), firstRequest, turns) && SignalledSince(old(aborted), old(signals))
      ensures RunOk(turns, maxIterations, old(aborted), aborted)
      ensures final == FinalResponse(turns, aborted) && (aborted ==> final.stopReason == "abort")
    {
      var goOn;
      goOn, final, turns := RunTurns(firstRequest);
      if goOn {
        StopBetween(turns, maxIterations, old(aborted), aborted);
      }
      LateAbort(turns, maxIterations, old(aborted), aborted);
      var stop := PollAbort();
      if stop {
        final := final.(stopReason := "abort");
      }
    }

    /** execute: the user's message, then the loop on the whole history. */
    method Execute(userInput: string) returns (final: QueryResponse, ghost turns: seq<Turn>)
      requires Valid()
      modifies this`messages, this`aborted, this`signals, this`exchanges, this`executed, tracker
      ensures Valid() && Step(old(State()), Op.Execute(userInput, turns), State())
      ensures SignalledSince(old(aborted), old(signals))
      ensures final == FinalResponse(turns, aborted) && (aborted ==> final.stopReason == "abort")
      ensures var s, base := old(Now()), old(messages) + [UserMessage(userInput)];
              Progress(s.(engine := s.engine.(messages := base)), base, turns)
    {
      ghost var s := State();
      var userMessage := UserMessage(userInput);
      messages := messages + [userMessage];
      ghost var base := messages;
      final, turns := RunToolCallLoop(messages);
      ExecuteStep(s, userInput, turns, base, State());
    }

    /** execute_with_options: the loop alone, the first request as the caller gave it. */
    method ExecuteWithOptions(request: seq<Message>) returns (final: QueryResponse, ghost turns: seq<Turn>)
      requires Valid()
      modifies this`messages, this`aborted, this`signals, this`exchanges, this`executed, tracker
      ensures Valid() && Step(old(State()), Op.ExecuteWithOptions(turns), State())
      ensures SignalledSince(old(aborted), old(signals))
      ensures final == FinalResponse(turns, aborted) && (aborted ==> final.stopReason == "abort")
      ensures Progress(old(Now()), request, turns)
    {
      ghost var s := State();
      final, turns := RunToolCallLoop(request);
      StepKeepsInv(s, Op.ExecuteWithOptions(turns), State());
    }
  }
}
