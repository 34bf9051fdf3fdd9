/** The permission manager: an ordered rule list, the first matching rule decides. */
module Permissions {
  import opened Wrappers
  import opened Glob

  datatype Level = Allow | Deny | Ask

  datatype Rule = Rule(pattern: string, level: Level, description: string)

  datatype Decision = Decision(level: Level, matchedRule: string, reason: string)

  /** The abstract value of a manager. */
  datatype Policy = Policy(rules: seq<Rule>, defaultLevel: Level, mode: string)

  predicate Bypasses(mode: string) {
    mode == "bypass" || mode == "yolo"
  }

  /** i is the first rule whose pattern matches the target. */
  ghost predicate FirstMatch(rules: seq<Rule>, target: string, i: nat) {
    i < |rules| && PatternMatches(rules[i].pattern, target) &&
    forall j :: 0 <= j < i ==> !PatternMatches(rules[j].pattern, target)
  }

  ghost predicate NoMatch(rules: seq<Rule>, target: string) {
    forall j :: 0 <= j < |rules| ==> !PatternMatches(rules[j].pattern, target)
  }

  /** d is the decision the policy prescribes for the target. */
  ghost predicate Decides(policy: Policy, target: string, d: Decision) {
    if Bypasses(policy.mode) then d == Decision(Allow, "", "Bypass mode enabled")
    else
      (NoMatch(policy.rules, target) ==> d == Decision(policy.defaultLevel, "", "")) &&
      (forall i: nat :: FirstMatch(policy.rules, target, i) ==>
         d == Decision(policy.rules[i].level, policy.rules[i].pattern, policy.rules[i].description))
  }

  function Kept(rule: Rule, pattern: string): seq<Rule> {
    if rule.pattern == pattern then [] else [rule]
  }

  function Without(rules: seq<Rule>, pattern: string): seq<Rule> {
    if rules == [] then []
    else Kept(rules[0], pattern) + Without(rules[1..], pattern)
  }

  lemma {:induction false} WithoutSnoc(rules: seq<Rule>, rule: Rule, pattern: string)
    ensures Without(rules + [rule], pattern) == Without(rules, pattern) + Kept(rule, pattern)
    decreases |rules|
  {
    if rules == [] {
      assert [rule][1..] == [];
    } else {
      assert (rules + [rule])[1..] == rules[1..] + [rule];
      WithoutSnoc(rules[1..], rule, pattern);
      Regroup(Kept(rules[0], pattern), Without(rules[1..], pattern), Kept(rule, pattern));
    }
  }

  function WithMode(policy: Policy, mode: string): Policy {
    policy.(mode := mode, defaultLevel := if Bypasses(mode) then Allow else policy.defaultLevel)
  }

  const DEFAULT_RULES: seq<Rule> := [
    Rule("**/.git/**", Deny, "Git internal files"),
    Rule("**/node_modules/**", Ask, "Dependencies"),
    Rule("/etc/**", Deny, "System configuration"),
    Rule("/usr/**", Deny, "System files"),
    Rule("/boot/**", Deny, "Boot files"),
    Rule("/dev/**", Deny, "Device files")
  ]

  class PermissionManager {
    var rules: seq<Rule>
    var defaultLevel: Level
    var mode: string

    ghost function Value(): Policy
      reads this
    {
      Policy(rules, defaultLevel, mode)
    }

    constructor ()
      ensures Value() == Policy([], Ask, "default")
    {
      rules, defaultLevel, mode := [], Ask, "default";
    }

    method AddRule(rule: Rule)
      modifies this
      ensures Value() == old(Value()).(rules := old(rules) + [rule])
    {
      rules := rules + [rule];
    }

    method RemoveRule(pattern: string)
      modifies this
      ensures Value() == old(Value()).(rules := Without(old(rules), pattern))
    {
      var kept := [];
      for i := 0 to |rules|
        invariant Value() == old(Value()) && kept == Without(rules[..i], pattern)
      {
        assert rules[..i + 1] == rules[..i] + [rules[i]];
        WithoutSnoc(rules[..i], rules[i], pattern);
        if rules[i].pattern != pattern {
          kept := kept + [rules[i]];
        }
      }
      assert rules[..|rules|] == rules;
      rules := kept;
    }

    method SetMode(m: string)
      modifies this
      ensures Value() == WithMode(old(Value()), m)
    {
      mode := m;
      if m == "bypass" || m == "yolo" {
        defaultLevel := Allow;
      }
    }

    method LoadDefaults()
      modifies this
      ensures Value() == old(Value()).(rules := old(rules) + DEFAULT_RULES)
    {
      AddRule(Rule("**/.git/**", Deny, "Git internal files"));
      AddRule(Rule("**/node_modules/**", Ask, "Dependencies"));
      AddRule(Rule("/etc/**", Deny, "System configuration"));
      AddRule(Rule("/usr/**", Deny, "System files"));
      AddRule(Rule("/boot/**", Deny, "Boot files"));
      AddRule(Rule("/dev/**", Deny, "Device files"));
    }

    method Check(target: string) returns (d: Decision)
      ensures Decides(Value(), target, d)
    {
      d := Decision(defaultLevel, "", "");
      if mode == "bypass" || mode == "yolo" {
        d := Decision(Allow, "", "Bypass mode enabled");
        return;
      }
      for i := 0 to |rules|
        invariant forall j :: 0 <= j < i ==> !PatternMatches(rules[j].pattern, target)
      {
        var matched := MatchPattern(rules[i].pattern, target);
        if matched {
          d := Decision(rules[i].level, rules[i].pattern, rules[i].description);
          return;
        }
      }
    }
  }

  /** Every policy decides every target, in one way. */
  lemma DecisionIsUnique(policy: Policy, target: string, d: Decision, e: Decision)
    requires Decides(policy, target, d) && Decides(policy, target, e)
    ensures d == e
  {
    if !NoMatch(policy.rules, target) {
      var i := FindFirstMatch(policy.rules, target);
    }
  }

  lemma {:induction false} FindFirstMatch(rules: seq<Rule>, target: string) returns (i: nat)
    requires !NoMatch(rules, target)
    ensures FirstMatch(rules, target, i)
  {
    i := 0;
    while !PatternMatches(rules[i].pattern, target)
      invariant i < |rules|
      invariant forall j :: 0 <= j < i ==> !PatternMatches(rules[j].pattern, target)
      decreases |rules| - i
    {
      i := i + 1;
    }
  }

  // ---------- removing a rule ----------

  lemma {:induction false} WithoutMembers(rules: seq<Rule>, pattern: string)
    ensures forall r :: r in Without(rules, pattern) <==> r in rules && r.pattern != pattern
  {
    if rules != [] {
      WithoutMembers(rules[1..], pattern);
    }
  }

  lemma {:induction false} WithoutFirstMatch(rules: seq<Rule>, pattern: string, target: string, i: nat) returns (k: nat)
    requires FirstMatch(rules, target, i) && rules[i].pattern != pattern
    ensures FirstMatch(Without(rules, pattern), target, k) && Without(rules, pattern)[k] == rules[i]
  {
    if i == 0 {
      return 0;
    }
    k := WithoutFirstMatch(rules[1..], pattern, target, i - 1);
    var rest := Without(rules[1..], pattern);
    if rules[0].pattern != pattern {
      assert Without(rules, pattern) == [rules[0]] + rest;
      k := k + 1;
    } else {
      assert Without(rules, pattern) == rest;
    }
  }

  lemma WithoutNoMatch(rules: seq<Rule>, pattern: string, target: string)
    requires NoMatch(rules, target)
    ensures NoMatch(Without(rules, pattern), target)
  {
    WithoutMembers(rules, pattern);
    var kept := Without(rules, pattern);
    forall j | 0 <= j < |kept| ensures !PatternMatches(kept[j].pattern, target) {
      assert kept[j] in rules;
    }
  }

  lemma FirstMatchIsUnique(rules: seq<Rule>, target: string, i: nat, j: nat)
    requires FirstMatch(rules, target, i) && FirstMatch(rules, target, j)
    ensures i == j && !NoMatch(rules, target)
  {}

  /** What is decided by the first match, or by none. */
  lemma FirstMatchDecides(policy: Policy, target: string, i: nat, d: Decision)
    requires !Bypasses(policy.mode) && FirstMatch(policy.rules, target, i)
    ensures Decides(policy, target, d) <==>
            d == Decision(policy.rules[i].level, policy.rules[i].pattern, policy.rules[i].description)
  {
    forall j: nat | FirstMatch(policy.rules, target, j) ensures i == j {
      FirstMatchIsUnique(policy.rules, target, i, j);
    }
  }

  /** remove_rule changes no decision that was not made by a removed rule. */
  lemma RemoveRuleKeepsOtherDecisions(policy: Policy, pattern: string, target: string, d: Decision)
    requires Decides(policy, target, d)
    requires forall i: nat :: FirstMatch(policy.rules, target, i) ==> policy.rules[i].pattern != pattern
    ensures Decides(policy.(rules := Without(policy.rules, pattern)), target, d)
  {
    if Bypasses(policy.mode) {
    } else if NoMatch(policy.rules, target) {
      WithoutNoMatch(policy.rules, pattern, target);
    } else {
      var i := FindFirstMatch(policy.rules, target);
      var k := WithoutFirstMatch(policy.rules, pattern, target, i);
      FirstMatchDecides(policy, target, i, d);
      FirstMatchDecides(policy.(rules := Without(policy.rules, pattern)), target, k, d);
    }
  }

  // ---------- modes ----------

  /**
   Leaving a bypass mode leaves its default behind. The detour changes the decision exactly for the
   unmatched targets of a manager whose default was not Allow: they become allowed.
   */
  lemma BypassOutlivesItsMode(policy: Policy, bypass: string, m: string, target: string, d: Decision, e: Decision)
    requires Bypasses(bypass) && !Bypasses(m)
    requires Decides(WithMode(WithMode(policy, bypass), m), target, d)
    requires Decides(WithMode(policy, m), target, e)
    ensures d == e <==> policy.defaultLevel == Allow || !NoMatch(policy.rules, target)
    ensures NoMatch(policy.rules, target) ==> d.level == Allow && e.level == policy.defaultLevel
  {
    if !NoMatch(policy.rules, target) {
      var i := FindFirstMatch(policy.rules, target);
      assert d.matchedRule == e.matchedRule == policy.rules[i].pattern;
    }
  }

  // ---------- the default rules ----------

  predicate PlainText(w: string) {
    '*' !in w && '?' !in w
  }

  /** t is w itself or something strictly below w. */
  predicate AtOrUnder(w: string, t: string) {
    t == w || (w + "/" <= t && |t| > |w| + 1)
  }

  /** A plain path followed by a trailing ** matches the path and everything strictly below it. */
  lemma {:induction false} MatchUnder(w: string, t: string)
    requires PlainText(w)
    ensures Match(w + "/**", t) <==> AtOrUnder(w, t)
    decreases |w|
  {
    var p := w + "/**";
    if w == "" {
      assert p == "/**" && Rest(p) == "**";
      assert w + "/" == "/";
      assert TrailingRun(p) by { assert p[3..] == ""; }
      if |t| > 1 {
        assert Rest("**") == "";
        assert Match("", t[1..][|t| - 1..]);
        assert Match("**", t[1..]);
      } else if |t| == 1 {
        assert t[1..] == "" && !Match("**", "");
      }
    } else {
      assert Rest(p) == w[1..] + "/**";
      if |w| > 1 { assert p[1] == w[1]; } else { assert p[1] == '/'; }
      assert !TrailingRun(p);
      if t != "" {
        MatchUnder(w[1..], t[1..]);
        assert w + "/" == [w[0]] + (w[1..] + "/");
        assert t == [t[0]] + t[1..];
      }
    }
  }

  /** Somewhere in t, w or something strictly below w: "**" reads any string, not only whole directories. */
  ghost predicate Contains(w: string, t: string) {
    exists k :: 0 <= k <= |t| && AtOrUnder(w, t[k..])
  }

  lemma MatchAnywhere(w: string, t: string)
    requires PlainText(w) && w != "" && w[0] != '/'
    ensures Match("**/" + w + "/**", t) <==> Contains(w, t)
  {
    var p := "**/" + w + "/**";
    assert p[2..] == "/" + (w + "/**");
    assert (w + "/**")[0] == w[0];
    assert p[2..][1..] == w + "/**";
    assert SkipSlashes(w + "/**") == w + "/**";
    assert SkipSlashes(p[2..]) == SkipSlashes(p[2..][1..]);
    assert Rest(p) == w + "/**";
    forall k | 0 <= k <= |t| ensures Match(w + "/**", t[k..]) <==> AtOrUnder(w, t[k..]) {
      MatchUnder(w, t[k..]);
    }
    if t == "" {
      assert t[0..] == "";
      assert !AtOrUnder(w, "");
    }
  }

  ghost predicate SystemPath(t: string) {
    AtOrUnder("/etc", t) || AtOrUnder("/usr", t) || AtOrUnder("/boot", t) || AtOrUnder("/dev", t)
  }

  lemma GitRuleMatches(t: string)
    ensures PatternMatches(DEFAULT_RULES[0].pattern, t) <==> Contains(".git", t)
  {
    assert PlainText(".git");
    assert "**/.git/**" == "**/" + ".git" + "/**";
    AnywhereRule("**/.git/**", ".git", t);
  }

  lemma ModulesPattern()
    ensures "**/node_modules/**" == "**/" + "node_modules" + "/**" && PlainText("node_modules")
  {}

  lemma ModulesRuleMatches(t: string)
    ensures PatternMatches(DEFAULT_RULES[1].pattern, t) <==> Contains("node_modules", t)
  {
    ModulesPattern();
    AnywhereRule("**/node_modules/**", "node_modules", t);
  }

  lemma SystemRulesMatch(t: string)
    ensures SystemRuleMatches(t) <==> SystemPath(t)
  {
    UnderRule("/etc/**", "/etc", t);
    UnderRule("/usr/**", "/usr", t);
    UnderRule("/boot/**", "/boot", t);
    UnderRule("/dev/**", "/dev", t);
  }

  lemma AnywhereRule(p: string, w: string, t: string)
    requires PlainText(w) && w != "" && w[0] != '/' && p == "**/" + w + "/**"
    ensures PatternMatches(p, t) <==> Contains(w, t)
  {
    MatchAnywhere(w, t);
  }

  lemma UnderRule(p: string, w: string, t: string)
    requires PlainText(w) && w != "" && p == w + "/**"
    ensures PatternMatches(p, t) <==> AtOrUnder(w, t)
  {
    MatchUnder(w, t);
    assert p[0] == w[0];
  }

  /** One of the last four default rules matches. */
  predicate SystemRuleMatches(t: string) {
    PatternMatches(DEFAULT_RULES[2].pattern, t) || PatternMatches(DEFAULT_RULES[3].pattern, t) ||
    PatternMatches(DEFAULT_RULES[4].pattern, t) || PatternMatches(DEFAULT_RULES[5].pattern, t)
  }

  /** The first of the default rules to match, and what it decides. */
  lemma DefaultLevel(t: string, d: Decision)
    requires Decides(Policy(DEFAULT_RULES, Ask, "default"), t, d)
    ensures d.level == if PatternMatches(DEFAULT_RULES[0].pattern, t) then Deny
                       else if PatternMatches(DEFAULT_RULES[1].pattern, t) then Ask
                       else if SystemRuleMatches(t) then Deny
                       else Ask
  {
    var policy := Policy(DEFAULT_RULES, Ask, "default");
    if PatternMatches(DEFAULT_RULES[0].pattern, t) {
      FirstMatchDecides(policy, t, 0, d);
    } else if PatternMatches(DEFAULT_RULES[1].pattern, t) {
      FirstMatchDecides(policy, t, 1, d);
    } else if SystemRuleMatches(t) {
      var i := FindFirstMatch(DEFAULT_RULES, t);
      assert i != 0 && i != 1;
      SystemRulesDeny(i);
      FirstMatchDecides(policy, t, i, d);
    } else {
      NoDefaultMatches(t);
    }
  }

  lemma SystemRulesDeny(i: nat)
    requires 2 <= i < |DEFAULT_RULES|
    ensures DEFAULT_RULES[i].level == Deny
  {
    assert i == 2 || i == 3 || i == 4 || i == 5;
  }

  lemma NoDefaultMatches(t: string)
    requires !PatternMatches(DEFAULT_RULES[0].pattern, t) && !PatternMatches(DEFAULT_RULES[1].pattern, t)
    requires !SystemRuleMatches(t)
    ensures NoMatch(DEFAULT_RULES, t)
  {
    forall j | 0 <= j < |DEFAULT_RULES| ensures !PatternMatches(DEFAULT_RULES[j].pattern, t) {
      assert j == 0 || j == 1 || j == 2 || j == 3 || j == 4 || j == 5;
    }
  }

  /**
   The default rules in default mode, exactly: git paths are denied, then
   node_modules asks even below a system directory, then system paths are
   denied, and everything else asks. Nothing is allowed.
   */
  lemma DefaultDecisions(t: string, d: Decision)
    requires Decides(Policy(DEFAULT_RULES, Ask, "default"), t, d)
    ensures d.level == Deny <==> Contains(".git", t) || (!Contains("node_modules", t) && SystemPath(t))
    ensures d.level == Ask <==> d.level != Deny
  {
    GitRuleMatches(t);
    ModulesRuleMatches(t);
    SystemRulesMatch(t);
    DefaultLevel(t, d);
  }

  lemma ContainsAtEnd(a: string, w: string)
    ensures Contains(w, a + w)
  {
    assert (a + w)[|a|..] == w;
    assert AtOrUnder(w, (a + w)[|a|..]);
  }

  lemma ContainsAbove(a: string, w: string, b: string)
    requires b != ""
    ensures Contains(w, a + (w + "/") + b)
  {
    var t := a + (w + "/") + b;
    assert t[|a|..] == w + "/" + b;
    assert AtOrUnder(w, t[|a|..]);
  }

  lemma GitIsDenied(t: string, d: Decision)
    requires Contains(".git", t) && Decides(Policy(DEFAULT_RULES, Ask, "default"), t, d)
    ensures d.level == Deny
  {
    DefaultDecisions(t, d);
  }

  /** The targets the defaults are written for. */
  lemma DefaultsDeny(a: string, b: string, d: Decision, e: Decision)
    requires b != ""
    requires Decides(Policy(DEFAULT_RULES, Ask, "default"), a + ".git", d)
    requires Decides(Policy(DEFAULT_RULES, Ask, "default"), a + ".git/" + b, e)
    ensures d.level == Deny && e.level == Deny
  {
    ContainsAtEnd(a, ".git");
    GitIsDenied(a + ".git", d);
    assert ".git" + "/" == ".git/";
    ContainsAbove(a, ".git", b);
    GitIsDenied(a + ".git/" + b, e);
  }
}
