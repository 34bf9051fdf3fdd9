/**
 Substring search as std::string::find does it, and the split, join and
 replace_all loops of the string utilities.
 */
module Strings {
  import opened Wrappers

  predicate OccursAt(s: string, w: string, i: int) {
    0 <= i && i + |w| <= |s| && s[i..i + |w|] == w
  }

  /** std::string::find(w, from): the first occurrence at or after from. */
  function Find(s: string, w: string, from: nat): (r: Option<nat>)
    ensures r.Some? ==> from <= r.value && r.value + |w| <= |s|
    decreases |s| - from
  {
    if from + |w| > |s| then None
    else if OccursAt(s, w, from) then Some(from)
    else Find(s, w, from + 1)
  }

  /** Find reports an occurrence, and there is none before it. */
  lemma {:induction false} FindFirst(s: string, w: string, from: nat)
    ensures Find(s, w, from).Some? ==> OccursAt(s, w, Find(s, w, from).value)
    ensures Find(s, w, from).Some? ==> forall i :: from <= i < Find(s, w, from).value ==> !OccursAt(s, w, i)
    ensures Find(s, w, from).None? ==> forall i :: from <= i ==> !OccursAt(s, w, i)
    decreases |s| - from
  {
    if from + |w| <= |s| && !OccursAt(s, w, from) {
      FindFirst(s, w, from + 1);
    }
  }

  /** Any position with those two properties is the one Find reports. */
  lemma FindIs(s: string, w: string, from: nat, i: nat)
    requires from <= i && OccursAt(s, w, i)
    requires forall j :: from <= j < i ==> !OccursAt(s, w, j)
    ensures Find(s, w, from) == Some(i)
  {
    FindFirst(s, w, from);
  }

  /** Where a word occurs, its beginning occurs. */
  lemma OccursPrefix(s: string, w: string, k: nat, i: nat)
    requires OccursAt(s, w, i) && k <= |w|
    ensures OccursAt(s, w[..k], i)
  {
    assert s[i..i + |w|][..k] == s[i..i + k];
  }

  lemma OccursInSuffix(s: string, w: string, start: nat, i: nat)
    requires start <= |s|
    ensures OccursAt(s[start..], w, i) <==> OccursAt(s, w, start + i)
  {
    if start + i + |w| <= |s| {
      assert s[start..][i..i + |w|] == s[start + i..start + i + |w|];
    }
  }

  /** Searching from an offset is searching the suffix. */
  lemma FindInSuffix(s: string, w: string, start: nat)
    requires start <= |s|
    ensures Find(s[start..], w, 0) ==
            match Find(s, w, start) case None => None case Some(p) => Some(p - start)
  {
    forall i: nat ensures OccursAt(s[start..], w, i) <==> OccursAt(s, w, start + i) {
      OccursInSuffix(s, w, start, i);
    }
    FindFirst(s, w, start);
    FindFirst(s[start..], w, 0);
    match Find(s, w, start)
    case None =>
    case Some(p) =>
      assert OccursAt(s, w, start + (p - start));
      FindIs(s[start..], w, 0, p - start);
  }

  /** One character that does not fit is enough. */
  lemma Mismatch(s: string, w: string, i: nat, k: nat)
    requires k < |w| && (i + k < |s| ==> s[i + k] != w[k])
    ensures !OccursAt(s, w, i)
  {
    if i + |w| <= |s| { assert s[i..i + |w|][k] == s[i + k]; }
  }

  /** A position in a suffix that begins at k, in the whole text. */
  function MovedBy(p: Option<nat>, k: nat): Option<nat> {
    match p
    case None => None
    case Some(i) => Some(k + i)
  }

  /** The search in a suffix, from an offset, is the search from where that stands in the whole text. */
  lemma FindMoved(s: string, rest: string, w: string, k: nat, c: nat, d: nat)
    requires k <= |s| && rest == s[k..] && d == k + c <= |s|
    ensures Find(s, w, d) == MovedBy(Find(rest, w, c), k)
  {
    FindInSuffix(s, w, d);
    FindInSuffix(rest, w, c);
    Slices(s, k, d);
  }

  /** A search that finds nothing in front of k finds in the rest what it finds at all. */
  lemma FindSkips(s: string, rest: string, w: string, k: nat)
    requires k <= |s| && rest == s[k..] && forall i :: 0 <= i < k ==> !OccursAt(s, w, i)
    ensures Find(s, w, 0) == MovedBy(Find(rest, w, 0), k)
  {
    FindFirst(s, w, 0);
    FindFirst(s, w, k);
    if Find(s, w, k).Some? {
      FindIs(s, w, 0, Find(s, w, k).value);
    }
    FindMoved(s, rest, w, k, 0, k);
  }

  /** What stands behind the occurrence of w at i. */
  function Behind(s: string, w: string, i: nat): (rest: string)
    requires i + |w| <= |s|
    ensures |rest| == |s| - i - |w|
  {
    s[i + |w|..]
  }

  /** Around an occurrence in a suffix stands what stands around it in the whole text. */
  lemma AroundInSuffix(s: string, w: string, start: nat, p: nat)
    requires start <= p && p + |w| <= |s|
    ensures s[start..][..p - start] == s[start..p]
    ensures Behind(s[start..], w, p - start) == Behind(s, w, p)
  {
    Slices(s, start, p);
    Slices(s, start, p + |w|);
  }

  // ---------- split and join ----------

  predicate Free(p: string, d: string) {
    Find(p, d, 0).None?
  }

  /** The pieces between successive leftmost occurrences of the delimiter. */
  function Split(s: string, d: string): (parts: seq<string>)
    requires d != ""
    ensures |parts| > 0
    decreases |s|
  {
    match Find(s, d, 0)
    case None => [s]
    case Some(i) => [s[..i]] + Split(Behind(s, d, i), d)
  }

  function Join(parts: seq<string>, d: string): string {
    if |parts| == 0 then ""
    else if |parts| == 1 then parts[0]
    else parts[0] + d + Join(parts[1..], d)
  }

  lemma SplitHit(s: string, d: string, i: nat, front: string, rest: string)
    requires d != "" && Find(s, d, 0) == Some(i) && front == s[..i] && rest == Behind(s, d, i)
    ensures Split(s, d) == [front] + Split(rest, d)
  {}

  lemma SplitSuffix(s: string, d: string, start: nat, p: nat)
    requires d != "" && start <= |s| && Find(s, d, start) == Some(p)
    ensures Split(s[start..], d) == [s[start..p]] + Split(Behind(s, d, p), d)
  {
    FindInSuffix(s, d, start);
    AroundInSuffix(s, d, start, p);
    SplitHit(s[start..], d, p - start, s[start..p], Behind(s, d, p));
  }

  /** One turn of the loop: the next piece, and the rest behind the delimiter. */
  lemma SplitStep(s: string, d: string, start: nat, p: nat, parts: seq<string>)
    requires d != "" && start <= |s| && Find(s, d, start) == Some(p)
    ensures (parts + [s[start..p]]) + Split(Behind(s, d, p), d) == parts + Split(s[start..], d)
  {
    SplitSuffix(s, d, start, p);
    Regroup(parts, [s[start..p]], Split(Behind(s, d, p), d));
  }

  method SplitString(s: string, delim: string) returns (parts: seq<string>)
    requires delim != ""
    ensures parts == Split(s, delim)
  {
    parts := [];
    var start := 0;
    var pos := Find(s, delim, start);
    ghost var rest := s;
    while pos.Some?
      invariant start <= |s| && pos == Find(s, delim, start) && rest == s[start..]
      invariant parts + Split(rest, delim) == Split(s, delim)
      decreases |s| - start
    {
      SplitStep(s, delim, start, pos.value, parts);
      rest := Behind(s, delim, pos.value);
      parts := parts + [s[start..pos.value]];
      start := pos.value + |delim|;
      pos := Find(s, delim, start);
    }
    FindInSuffix(s, delim, start);
    parts := parts + [s[start..]];
  }

  lemma JoinCons(p: string, ps: seq<string>, d: string)
    requires |ps| > 0
    ensures Join([p] + ps, d) == p + d + Join(ps, d)
  {
    assert ([p] + ps)[1..] == ps;
  }

  lemma {:induction false} JoinSnoc(ps: seq<string>, p: string, d: string)
    requires |ps| > 0
    ensures Join(ps + [p], d) == Join(ps, d) + d + p
  {
    assert (ps + [p])[1..] == ps[1..] + [p];
    if |ps| > 1 {
      JoinSnoc(ps[1..], p, d);
    }
  }

  /** The parts stand in order, with the delimiter between any two. */
  lemma {:induction false} JoinConcat(a: seq<string>, b: seq<string>, d: string)
    requires a != [] && b != []
    ensures Join(a + b, d) == Join(a, d) + d + Join(b, d)
    decreases |a|
  {
    if |a| == 1 {
      assert a == [a[0]];
      JoinCons(a[0], b, d);
    } else {
      JoinConcat(a[1..], b, d);
      assert a + b == [a[0]] + (a[1..] + b);
      JoinCons(a[0], a[1..] + b, d);
      Glue(a[0] + d, Join(a[1..], d), d, Join(b, d));
    }
  }

  method JoinStrings(parts: seq<string>, delim: string) returns (s: string)
    ensures s == Join(parts, delim)
    ensures (parts == [] ==> s == "") && (|parts| == 1 ==> s == parts[0])
  {
    s := "";
    for i := 0 to |parts|
      invariant s == Join(parts[..i], delim)
    {
      assert parts[..i + 1] == parts[..i] + [parts[i]];
      if i > 0 {
        JoinSnoc(parts[..i], parts[i], delim);
        s := s + delim;
      }
      s := s + parts[i];
    }
    assert parts[..|parts|] == parts;
  }

  lemma FindBounds(s: string, d: string, i: nat)
    requires Find(s, d, 0) == Some(i)
    ensures i + |d| <= |s| && s == s[..i] + d + Behind(s, d, i)
    ensures Free(s[..i], d) || d == ""
  {
    FindFirst(s, d, 0);
    FindFirst(s[..i], d, 0);
    if d != "" && Find(s[..i], d, 0).Some? {
      var j := Find(s[..i], d, 0).value;
      assert s[..i][j..j + |d|] == s[j..j + |d|];
      assert OccursAt(s, d, j);
    }
  }

  /** join undoes split, and no piece contains the delimiter. */
  lemma {:induction false} JoinSplit(s: string, d: string)
    requires d != ""
    ensures Join(Split(s, d), d) == s
    ensures forall k :: 0 <= k < |Split(s, d)| ==> Free(Split(s, d)[k], d)
    decreases |s|
  {
    match Find(s, d, 0)
    case None =>
    case Some(i) =>
      FindBounds(s, d, i);
      JoinSplit(Behind(s, d, i), d);
      SplitHit(s, d, i, s[..i], Behind(s, d, i));
      JoinCons(s[..i], Split(Behind(s, d, i), d), d);
  }

  // ---------- borders: when a word can overlap itself ----------

  ghost predicate Border(w: string, k: nat) {
    0 < k < |w| && w[..k] == w[|w| - k..]
  }

  /** No proper prefix of w is also a suffix of w. */
  ghost predicate Unbordered(w: string) {
    forall k: nat :: !Border(w, k)
  }

  /** Two occurrences closer than |w| make a border. */
  lemma OverlapIsBorder(s: string, w: string, i: nat, j: nat)
    requires OccursAt(s, w, i) && OccursAt(s, w, j) && i < j < i + |w|
    ensures Border(w, i + |w| - j)
  {
    var k := i + |w| - j;
    assert w[..k] == s[j..j + |w|][..k] == s[j..i + |w|];
    assert w[|w| - k..] == s[i..i + |w|][|w| - k..] == s[j..i + |w|];
  }

  /** An unbordered delimiter after a free piece is found right after it. */
  lemma FindAfterFree(p: string, d: string, rest: string)
    requires d != "" && Unbordered(d) && Free(p, d)
    ensures Find(p + d + rest, d, 0) == Some(|p|)
  {
    var s := p + d + rest;
    FindFirst(p, d, 0);
    assert s[|p|..|p| + |d|] == d;
    forall i: nat | i < |p| ensures !OccursAt(s, d, i) {
      if OccursAt(s, d, i) {
        if i + |d| <= |p| {
          assert s[i..i + |d|] == p[i..i + |d|];
          assert OccursAt(p, d, i);
        } else {
          OverlapIsBorder(s, d, i, |p|);
        }
      }
    }
    FindIs(s, d, 0, |p|);
  }

  lemma SplitCons(p: string, d: string, rest: string)
    requires d != "" && Unbordered(d) && Free(p, d)
    ensures Split(p + d + rest, d) == [p] + Split(rest, d)
  {
    var s := p + d + rest;
    FindAfterFree(p, d, rest);
    assert s[..|p|] == p && Behind(s, d, |p|) == rest;
    SplitHit(s, d, |p|, p, rest);
  }

  lemma {:induction false} SplitJoin(ps: seq<string>, d: string)
    requires d != "" && Unbordered(d) && |ps| > 0
    requires forall k :: 0 <= k < |ps| ==> Free(ps[k], d)
    ensures Split(Join(ps, d), d) == ps
    decreases |ps|
  {
    if |ps| > 1 {
      SplitJoin(ps[1..], d);
      SplitCons(ps[0], d, Join(ps[1..], d));
      assert [ps[0]] + ps[1..] == ps;
    } else {
      assert ps == [ps[0]];
    }
  }

  /** The pieces that defeat split when the delimiter has a border. */
  lemma BorderedDelimiterFails(d: string, k: nat)
    requires Border(d, k)
    ensures var ps := [d[..|d| - k], ""];
            (forall i :: 0 <= i < |ps| ==> Free(ps[i], d)) && Split(Join(ps, d), d) != ps
  {
    var p := d[..|d| - k];
    var s := Join([p, ""], d);
    assert [p, ""][1..] == [""];
    assert Join([""], d) == "";
    assert s == p + d + "";
    assert s == p + d;
    assert s[0..|d|] == p + d[..k] == d;
    FindIs(s, d, 0, 0);
    assert Split(s, d)[0] == s[..0] == "";
  }

  ghost predicate SplitUndoesJoin(d: string)
    requires d != ""
  {
    forall ps: seq<string> :: |ps| > 0 && (forall k :: 0 <= k < |ps| ==> Free(ps[k], d)) ==>
                                Split(Join(ps, d), d) == ps
  }

  /** split undoes join for every list of delimiter-free pieces exactly when the delimiter has no border. */
  lemma SplitUndoesJoinIff(d: string)
    requires d != ""
    ensures SplitUndoesJoin(d) <==> Unbordered(d)
  {
    if Unbordered(d) {
      forall ps: seq<string> | |ps| > 0 && (forall k :: 0 <= k < |ps| ==> Free(ps[k], d))
        ensures Split(Join(ps, d), d) == ps
      {
        SplitJoin(ps, d);
      }
    } else {
      var k: nat :| Border(d, k);
      BorderedDelimiterFails(d, k);
    }
  }

  lemma SingleCharacterIsUnbordered(c: char)
    ensures Unbordered([c])
  {}

  // ---------- replace_all ----------

  /** Replace the leftmost occurrence, then go on behind it. */
  function Replaced(s: string, from: string, to: string): string
    requires from != ""
    decreases |s|
  {
    match Find(s, from, 0)
    case None => s
    case Some(i) => s[..i] + to + Replaced(Behind(s, from, i), from, to)
  }

  lemma ReplacedHit(s: string, from: string, to: string, i: nat, front: string, rest: string)
    requires from != "" && Find(s, from, 0) == Some(i) && front == s[..i] && rest == Behind(s, from, i)
    ensures Replaced(s, from, to) == front + to + Replaced(rest, from, to)
  {}

  /** Replacing is cutting at from and gluing with to, also when to contains from. */
  lemma {:induction false} ReplaceIsSplitJoin(s: string, from: string, to: string)
    requires from != ""
    ensures Replaced(s, from, to) == Join(Split(s, from), to)
    decreases |s|
  {
    match Find(s, from, 0)
    case None =>
    case Some(i) =>
      ReplaceIsSplitJoin(Behind(s, from, i), from, to);
      ReplacedHit(s, from, to, i, s[..i], Behind(s, from, i));
      SplitHit(s, from, i, s[..i], Behind(s, from, i));
      JoinCons(s[..i], Split(Behind(s, from, i), from), to);
  }

  lemma ReplacedSuffix(s: string, from: string, to: string, pos: nat, p: nat)
    requires from != "" && pos <= |s| && Find(s, from, pos) == Some(p)
    ensures Replaced(s[pos..], from, to) == s[pos..p] + to + Replaced(Behind(s, from, p), from, to)
  {
    FindInSuffix(s, from, pos);
    AroundInSuffix(s, from, pos, p);
    ReplacedHit(s[pos..], from, to, p - pos, s[pos..p], Behind(s, from, p));
  }

  /** One turn of the loop: what is done and what is left still make the same text. */
  lemma ReplaceStep(s: string, from: string, to: string, pos: nat, p: nat)
    requires from != "" && pos <= |s| && Find(s, from, pos) == Some(p)
    ensures s[..pos] + Replaced(s[pos..], from, to) ==
            s[..p] + to + Replaced(Behind(s, from, p), from, to)
  {
    ReplacedSuffix(s, from, to, pos, p);
    Reassemble(s, pos, p);
    Glue(s[..pos], s[pos..p], to, Replaced(Behind(s, from, p), from, to));
  }

  /** The in-place loop: s grows or shrinks under the search position. */
  method ReplaceAll(s0: string, from: string, to: string) returns (s: string)
    ensures from == "" ==> s == s0
    ensures from != "" ==> s == Replaced(s0, from, to)
  {
    s := s0;
    if from == "" { return; }
    var pos: nat := 0;
    var hit := Find(s, from, pos);
    ghost var done, rest := "", s;
    while hit.Some?
      invariant pos <= |s| && hit == Find(s, from, pos) && done == s[..pos] && rest == s[pos..]
      invariant done + Replaced(rest, from, to) == Replaced(s0, from, to)
      decreases |s| - pos
    {
      ReplaceStep(s, from, to, pos, hit.value);
      done, rest := s[..hit.value] + to, Behind(s, from, hit.value);
      Cut(done, rest);
      s := s[..hit.value] + to + s[hit.value + |from|..];
      pos := hit.value + |to|;
      hit := Find(s, from, pos);
    }
    FindInSuffix(s, from, pos);
    assert s == s[..pos] + s[pos..];
  }
}
