/**
 The recursive glob matcher of the permission manager, against the language its
 tokens denote: ** (with the slashes behind it) reads anything, * reads anything
 without a slash, ? reads one character that is no slash, and any other
 character reads itself.
 */
module Glob {
  import opened Wrappers

  datatype Token = AnyPath | Segment | One | Literal(c: char)

  predicate Star(tok: Token) {
    tok.AnyPath? || tok.Segment?
  }

  predicate NoSlash(s: string) {
    '/' !in s
  }

  function SkipSlashes(p: string): (r: string)
    ensures |r| <= |p|
    ensures r == "" || r[0] != '/'
  {
    if p != "" && p[0] == '/' then SkipSlashes(p[1..]) else p
  }

  predicate StarStar(p: string) {
    |p| >= 2 && p[0] == '*' && p[1] == '*'
  }

  /** The token a pattern starts with, and the pattern behind it. */
  function Head(p: string): Token
    requires p != ""
  {
    if StarStar(p) then AnyPath
    else if p[0] == '*' then Segment
    else if p[0] == '?' then One
    else Literal(p[0])
  }

  function Rest(p: string): (r: string)
    requires p != ""
    ensures |r| < |p|
  {
    if StarStar(p) then SkipSlashes(p[2..]) else p[1..]
  }

  // ---------- the language of a pattern ----------

  predicate Accepts(tok: Token, piece: string) {
    match tok
    case AnyPath => true
    case Segment => NoSlash(piece)
    case One => |piece| == 1 && piece[0] != '/'
    case Literal(c) => piece == [c]
  }

  /** The tokens of p down to its suffix r read one piece each. */
  ghost predicate Reads(p: string, r: string, pieces: seq<string>)
    decreases |pieces|
  {
    if pieces == [] then p == r
    else p != "" && Accepts(Head(p), pieces[0]) && Reads(Rest(p), r, pieces[1..])
  }

  function Concat(pieces: seq<string>): string {
    if pieces == [] then "" else pieces[0] + Concat(pieces[1..])
  }

  /** t is in the language of p: every token reads its piece of t. */
  ghost predicate Denotes(p: string, t: string) {
    exists pieces :: Reads(p, "", pieces) && Concat(pieces) == t
  }

  /** A run of "/" "**" groups, the only thing the code lets match at the end of the text. */
  predicate TrailingRun(p: string) {
    p == "" || (|p| >= 3 && p[0] == '/' && p[1] == '*' && p[2] == '*' && TrailingRun(p[3..]))
  }

  ghost predicate LastNonEmpty(pieces: seq<string>) {
    pieces == [] || pieces[|pieces| - 1] != ""
  }

  /** Some tokens read the text, the last of them a non-empty piece, and a trailing run is left over. */
  ghost predicate Parses(p: string, t: string, r: string, pieces: seq<string>) {
    TrailingRun(r) && Reads(p, r, pieces) && Concat(pieces) == t && LastNonEmpty(pieces)
  }

  // ---------- the matcher ----------

  /** What the matcher computes, branch by branch. */
  predicate Match(p: string, t: string)
    decreases |p|, 0
  {
    if p == "" || t == "" then t == "" && TrailingRun(p)
    else if StarStar(p) then SomeSuffix(Rest(p), t)
    else if p[0] == '*' then SomeSplit(Rest(p), t)
    else
      (p[0] == t[0] || (p[0] == '?' && t[0] != '/')) && Match(Rest(p), t[1..])
  }

  predicate SomeSuffix(r: string, t: string)
    decreases |r|, 1
  {
    exists k :: 0 <= k <= |t| && Match(r, t[k..])
  }

  /** As above, behind a front without a slash. */
  predicate SomeSplit(r: string, t: string)
    decreases |r|, 1
  {
    exists k :: 0 <= k <= |t| && NoSlash(t[..k]) && Match(r, t[k..])
  }

  lemma {:induction false} SkipSlashesStep(p: string, i: nat)
    requires i < |p| && p[i] == '/'
    ensures SkipSlashes(p[i..]) == SkipSlashes(p[i + 1..])
  {
    assert p[i..][1..] == p[i + 1..];
  }

  lemma OneCharacter(p: string, t: string, pi: nat, ti: nat)
    requires pi < |p| && ti < |t| && p[pi] != '*'
    ensures Match(p[pi..], t[ti..]) ==
            ((p[pi] == t[ti] || (p[pi] == '?' && t[ti] != '/')) && Match(p[pi + 1..], t[ti + 1..]))
  {
    assert p[pi..][1..] == p[pi + 1..] && t[ti..][1..] == t[ti + 1..];
  }

  /** The code's nested loops: pi and ti run forward, a star tries every position by recursion. */
  method MatchImpl(p: string, t: string, pi0: nat, ti0: nat) returns (r: bool)
    requires pi0 <= |p| && ti0 <= |t|
    ensures r == Match(p[pi0..], t[ti0..])
    decreases |p| - pi0, 1
  {
    var pi, ti := pi0, ti0;
    while pi < |p| && ti < |t|
      invariant pi0 <= pi <= |p| && ti0 <= ti <= |t|
      invariant Match(p[pi..], t[ti..]) == Match(p[pi0..], t[ti0..])
      decreases |p| - pi
    {
      if pi + 1 < |p| && p[pi] == '*' && p[pi + 1] == '*' {
        r := MatchAnyPath(p, t, pi, ti);
        return;
      } else if p[pi] == '*' {
        r := MatchSegment(p, t, pi, ti);
        return;
      }
      OneCharacter(p, t, pi, ti);
      if p[pi] == t[ti] || (p[pi] == '?' && t[ti] != '/') {
        pi, ti := pi + 1, ti + 1;
      } else {
        return false;
      }
    }
    var over := SkipsToEnd(p, pi);
    return over && ti >= |t|;
  }

  /** Behind the text: whether a run of "/" "**" groups leads to the end of the pattern. */
  method SkipsToEnd(p: string, pi0: nat) returns (over: bool)
    requires pi0 <= |p|
    ensures over == TrailingRun(p[pi0..])
  {
    var pi := pi0;
    while pi + 1 < |p| && p[pi] == '/' && p[pi + 1] == '*' && pi + 2 < |p| && p[pi + 2] == '*'
      invariant pi0 <= pi <= |p|
      invariant TrailingRun(p[pi..]) == TrailingRun(p[pi0..])
    {
      assert p[pi..][3..] == p[pi + 3..];
      pi := pi + 3;
    }
    return pi >= |p|;
  }

  /** The ** branch: skip the slashes behind it, then try every position up to the end. */
  method MatchAnyPath(p: string, t: string, pi0: nat, ti: nat) returns (r: bool)
    requires pi0 + 1 < |p| && p[pi0] == '*' && p[pi0 + 1] == '*' && ti < |t|
    ensures r == Match(p[pi0..], t[ti..])
    decreases |p| - pi0, 0
  {
    ghost var q, u := p[pi0..], t[ti..];
    var pi := pi0 + 2;
    assert q[2..] == p[pi..];
    while pi < |p| && p[pi] == '/'
      invariant pi0 + 2 <= pi <= |p|
      invariant SkipSlashes(p[pi..]) == Rest(q)
    {
      SkipSlashesStep(p, pi);
      pi := pi + 1;
    }
    assert p[pi..] == Rest(q);
    for pos := ti to |t| + 1
      invariant forall k :: 0 <= k < pos - ti ==> !Match(Rest(q), u[k..])
    {
      assert u[pos - ti..] == t[pos..];
      r := MatchImpl(p, t, pi, pos);
      if r { return; }
    }
    return false;
  }

  lemma SegmentHit(r: string, t: string, from: nat, j: nat)
    requires from <= j <= |t| && (forall i :: from <= i < j ==> t[i] != '/') && Match(r, t[j..])
    ensures SomeSplit(r, t[from..])
  {
    Slices(t, from, j);
    assert NoSlash(t[from..][..j - from]);
  }

  lemma SplitsSomewhere(r: string, t: string, from: nat) returns (j: nat)
    requires from <= |t| && SomeSplit(r, t[from..])
    ensures from <= j <= |t| && (forall i :: from <= i < j ==> t[i] != '/') && Match(r, t[j..])
  {
    var u := t[from..];
    var k :| 0 <= k <= |u| && NoSlash(u[..k]) && Match(r, u[k..]);
    j := from + k;
    Slices(t, from, j);
    assert forall i :: from <= i < j ==> t[i] == u[..k][i - from];
  }

  /** A star that failed before the next slash can only end there. */
  lemma SegmentEnd(r: string, t: string, from: nat, m: nat)
    requires from <= m <= |t|
    requires forall i :: from <= i < m ==> t[i] != '/' && !Match(r, t[i..])
    requires m < |t| ==> t[m] == '/'
    ensures SomeSplit(r, t[from..]) == Match(r, t[m..])
  {
    if Match(r, t[m..]) {
      SegmentHit(r, t, from, m);
    }
    if SomeSplit(r, t[from..]) {
      var j := SplitsSomewhere(r, t, from);
      assert j == m;
    }
  }

  /** The * branch: try every position up to the next slash, then the slash itself. */
  method MatchSegment(p: string, t: string, pi0: nat, ti0: nat) returns (r: bool)
    requires pi0 < |p| && p[pi0] == '*' && !StarStar(p[pi0..]) && ti0 < |t|
    ensures r == Match(p[pi0..], t[ti0..])
    decreases |p| - pi0, 0
  {
    var pi, ti := pi0 + 1, ti0;
    ghost var q, rest := p[pi0..], p[pi..];
    assert rest == Rest(q);
    while ti < |t| && t[ti] != '/'
      invariant ti0 <= ti <= |t|
      invariant forall i :: ti0 <= i < ti ==> t[i] != '/' && !Match(rest, t[i..])
    {
      r := MatchImpl(p, t, pi, ti);
      if r {
        SegmentHit(rest, t, ti0, ti);
        return;
      }
      ti := ti + 1;
    }
    SegmentEnd(rest, t, ti0, ti);
    r := MatchImpl(p, t, pi, ti);
  }

  /** The public entry: the two bare stars match everything, also texts with slashes. */
  predicate PatternMatches(p: string, t: string) {
    p == "*" || p == "**" || Match(p, t)
  }

  method MatchPattern(pattern: string, text: string) returns (r: bool)
    ensures r == PatternMatches(pattern, text)
    ensures pattern == "*" || pattern == "**" ==> r
  {
    if pattern == "*" || pattern == "**" { return true; }
    r := MatchImpl(pattern, text, 0, 0);
    assert pattern[0..] == pattern && text[0..] == text;
  }
}
