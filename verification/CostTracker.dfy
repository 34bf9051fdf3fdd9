/** Token accounting: running totals, and the same tokens per model. */
module CostTracking {
  import opened Messages

  /** All models together. */
  ghost function Sum(m: map<string, Usage>): Usage
    decreases |m|
  {
    if m == map[] then NO_USAGE
    else
      var k :| k in m;
      AddUsage(m[k], Sum(m - {k}))
  }

  lemma AddUsageLaws(a: Usage, b: Usage, c: Usage)
    ensures AddUsage(a, b) == AddUsage(b, a) && AddUsage(AddUsage(a, b), c) == AddUsage(a, AddUsage(b, c))
    ensures AddUsage(a, NO_USAGE) == a
  {}

  /** The sum does not depend on which model is taken first. */
  lemma {:induction false} SumWithout(m: map<string, Usage>, k: string)
    requires k in m
    ensures Sum(m) == AddUsage(m[k], Sum(m - {k}))
    decreases |m|
  {
    var j :| j in m && Sum(m) == AddUsage(m[j], Sum(m - {j}));
    if j != k {
      SumWithout(m - {j}, k);
      SumWithout(m - {k}, j);
      assert m - {j} - {k} == m - {k} - {j};
      var rest := Sum(m - {k} - {j});
      AddUsageLaws(m[j], m[k], rest);
      AddUsageLaws(m[k], m[j], rest);
    }
  }

  function Get(m: map<string, Usage>, k: string): Usage {
    if k in m then m[k] else NO_USAGE
  }

  /** Recording a usage under any model adds it to the sum. */
  lemma SumOfUpdate(m: map<string, Usage>, k: string, u: Usage)
    ensures Sum(m[k := AddUsage(Get(m, k), u)]) == AddUsage(Sum(m), u)
  {
    var m' := m[k := AddUsage(Get(m, k), u)];
    SumWithout(m', k);
    assert m' - {k} == m - {k};
    var rest := Sum(m - {k});
    if k in m {
      SumWithout(m, k);
    } else {
      assert m - {k} == m;
    }
    AddUsageLaws(Get(m, k), u, rest);
    AddUsageLaws(Get(m, k), rest, u);
    AddUsageLaws(u, rest, NO_USAGE);
    AddUsageLaws(rest, u, NO_USAGE);
  }

  class CostTracker {
    var total: Usage
    var modelUsage: map<string, Usage>
    var apiCalls: int
    var toolCalls: int

    constructor ()
      ensures Balanced() && total == NO_USAGE && apiCalls == 0 && toolCalls == 0
    {
      total, modelUsage, apiCalls, toolCalls := NO_USAGE, map[], 0, 0;
    }

    /** The totals are the componentwise sum over the models. */
    ghost predicate Balanced()
      reads this
    {
      total == Sum(modelUsage)
    }

    method RecordUsage(u: Usage)
      modifies this`total
      ensures total == AddUsage(old(total), u)
      ensures total.input == old(total).input + u.input && total.output == old(total).output + u.output
      ensures total.cacheCreation == old(total).cacheCreation + u.cacheCreation
      ensures total.cacheRead == old(total).cacheRead + u.cacheRead
    {
      total := Usage(total.input + u.input, total.output + u.output,
                     total.cacheCreation + u.cacheCreation, total.cacheRead + u.cacheRead);
    }

    method RecordModelUsage(model: string, u: Usage)
      modifies this`modelUsage
      ensures modelUsage == old(modelUsage)[model := AddUsage(Get(old(modelUsage), model), u)]
      ensures Sum(modelUsage) == AddUsage(Sum(old(modelUsage)), u)
    {
      SumOfUpdate(modelUsage, model, u);
      var mu := if model in modelUsage then modelUsage[model] else NO_USAGE;
      modelUsage := modelUsage[model := Usage(mu.input + u.input, mu.output + u.output,
                                              mu.cacheCreation + u.cacheCreation, mu.cacheRead + u.cacheRead)];
    }

    method RecordApiCall()
      modifies this`apiCalls
      ensures apiCalls == old(apiCalls) + 1
    {
      apiCalls := apiCalls + 1;
    }

    method IncrementToolCalls()
      modifies this`toolCalls
      ensures toolCalls == old(toolCalls) + 1
    {
      toolCalls := toolCalls + 1;
    }

    method Reset()
      modifies this
      ensures Balanced() && total == NO_USAGE && modelUsage == map[] && apiCalls == 0 && toolCalls == 0
    {
      total, modelUsage, apiCalls, toolCalls := NO_USAGE, map[], 0, 0;
    }
  }
}
