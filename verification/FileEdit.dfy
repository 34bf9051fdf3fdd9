/** The edit tool: unique-match replacement, the fold over several edits, and the one-hunk diff. */
module FileEdit {
  import opened Wrappers
  import opened Strings

  // ---------- counting matches ----------

  /** Where an occurrence of w at p ends. */
  function End(w: string, p: nat): nat {
    p + |w|
  }

  /** Occurrences found left to right, each search starting behind the last hit. */
  function Count(s: string, w: string, from: nat): nat
    requires w != ""
    decreases |s| - from
  {
    match Find(s, w, from)
    case None => 0
    case Some(p) => 1 + Count(s, w, End(w, p))
  }

  lemma CountHit(s: string, w: string, from: nat, p: nat)
    requires w != "" && Find(s, w, from) == Some(p)
    ensures Count(s, w, from) == 1 + Count(s, w, End(w, p))
  {}

  /** Increasing positions of occurrences of w at or after from, no two of them overlapping. */
  ghost predicate Disjoint(s: string, w: string, from: nat, ps: seq<nat>) {
    (forall i :: 0 <= i < |ps| ==> from <= ps[i] && OccursAt(s, w, ps[i])) &&
    (forall i, j :: 0 <= i < j < |ps| ==> ps[i] + |w| <= ps[j])
  }

  /** The greedy positions themselves are disjoint. */
  lemma {:induction false} GreedyPositions(s: string, w: string, from: nat) returns (ps: seq<nat>)
    requires w != ""
    ensures Disjoint(s, w, from, ps) && |ps| == Count(s, w, from)
    decreases |s| - from
  {
    match Find(s, w, from)
    case None => ps := [];
    case Some(p) =>
      FindFirst(s, w, from);
      var rest := GreedyPositions(s, w, End(w, p));
      ps := [p] + rest;
  }

  /** A search from before an occurrence finds it or an earlier one. */
  lemma FindEarlier(s: string, w: string, from: nat, q: nat) returns (p: nat)
    requires from <= q && OccursAt(s, w, q)
    ensures Find(s, w, from) == Some(p) && p <= q && OccursAt(s, w, p)
  {
    FindFirst(s, w, from);
    p := Find(s, w, from).value;
  }

  /** Starting later never finds more. */
  lemma {:induction false} CountMonotone(s: string, w: string, a: nat, b: nat)
    requires w != "" && a <= b
    ensures Count(s, w, b) <= Count(s, w, a)
    decreases |s| - a
  {
    match Find(s, w, b)
    case None =>
    case Some(q) =>
      FindFirst(s, w, b);
      var p := FindEarlier(s, w, a, q);
      CountMonotone(s, w, End(w, p), End(w, q));
      CountHit(s, w, a, p);
      CountHit(s, w, b, q);
  }

  lemma RestIsDisjoint(s: string, w: string, from: nat, ps: seq<nat>)
    requires Disjoint(s, w, from, ps) && ps != []
    ensures Disjoint(s, w, End(w, ps[0]), ps[1..])
  {
    var rest := ps[1..];
    forall i | 0 <= i < |rest| ensures End(w, ps[0]) <= rest[i] && OccursAt(s, w, rest[i]) {
      assert rest[i] == ps[i + 1];
    }
    forall i, j | 0 <= i < j < |rest| ensures rest[i] + |w| <= rest[j] {
      assert rest[i] == ps[i + 1] && rest[j] == ps[j + 1];
    }
  }

  /** No choice of disjoint occurrences has more members than the greedy count. */
  lemma {:induction false} GreedyIsOptimal(s: string, w: string, from: nat, ps: seq<nat>)
    requires w != "" && Disjoint(s, w, from, ps)
    ensures |ps| <= Count(s, w, from)
    decreases |ps|
  {
    if ps != [] {
      var q := ps[0];
      var p := FindEarlier(s, w, from, q);
      RestIsDisjoint(s, w, from, ps);
      GreedyIsOptimal(s, w, End(w, q), ps[1..]);
      CountMonotone(s, w, End(w, p), End(w, q));
      CountHit(s, w, from, p);
    }
  }

  /** n is the largest number of pairwise non-overlapping occurrences. */
  ghost predicate MostDisjoint(s: string, w: string, n: nat) {
    (exists ps :: Disjoint(s, w, 0, ps) && |ps| == n) && forall ps :: Disjoint(s, w, 0, ps) ==> |ps| <= n
  }

  lemma CountIsMaximum(s: string, w: string)
    requires w != ""
    ensures MostDisjoint(s, w, Count(s, w, 0))
  {
    var ps := GreedyPositions(s, w, 0);
    forall ps | Disjoint(s, w, 0, ps) ensures |ps| <= Count(s, w, 0) {
      GreedyIsOptimal(s, w, 0, ps);
    }
  }

  /** Two occurrences that do not overlap. */
  ghost predicate TwoApart(s: string, w: string) {
    exists i, j :: OccursAt(s, w, i) && OccursAt(s, w, j) && i + |w| <= j
  }

  /** What no match, one and several mean. */
  lemma CountMeans(s: string, w: string)
    requires w != ""
    ensures Count(s, w, 0) == 0 <==> forall i :: !OccursAt(s, w, i)
    ensures Count(s, w, 0) > 1 <==> TwoApart(s, w)
  {
    FindFirst(s, w, 0);
    var ps := GreedyPositions(s, w, 0);
    if |ps| > 1 {
      assert OccursAt(s, w, ps[0]) && OccursAt(s, w, ps[1]) && ps[0] + |w| <= ps[1];
    }
    if TwoApart(s, w) {
      var i, j :| OccursAt(s, w, i) && OccursAt(s, w, j) && i + |w| <= j;
      GreedyIsOptimal(s, w, 0, [i, j]);
    }
  }

  // ---------- one replacement ----------

  /** The text with the first occurrence of w exchanged for u. */
  function Replace1(s: string, w: string, u: string): string
    requires Find(s, w, 0).Some?
  {
    var p := Find(s, w, 0).value;
    s[..p] + u + Behind(s, w, p)
  }

  /** What apply_replacement returns. */
  function Apply(content: string, w: string, u: string): Option<string> {
    if w == "" || Count(content, w, 0) == 0 then None
    else if Count(content, w, 0) == 1 then Some(Replace1(content, w, u))
    else if w == u then Some(content)
    else None
  }

  method CountMatches(content: string, oldString: string) returns (matchCount: nat)
    requires oldString != ""
    ensures matchCount == Count(content, oldString, 0)
  {
    matchCount := 0;
    var pos := Find(content, oldString, 0);
    ghost var from: nat := 0;
    while pos.Some?
      invariant pos == Find(content, oldString, from) && from <= |content|
      invariant matchCount + Count(content, oldString, from) == Count(content, oldString, 0)
      decreases |content| - from
    {
      CountHit(content, oldString, from, pos.value);
      matchCount := matchCount + 1;
      from := End(oldString, pos.value);
      pos := Find(content, oldString, pos.value + |oldString|);
    }
  }

  method ApplyReplacement(content: string, oldString: string, newString: string, count0: nat)
    returns (result: Option<string>, matchCount: nat)
    ensures result == Apply(content, oldString, newString)
    ensures matchCount == if oldString == "" then count0 else Count(content, oldString, 0)
    ensures result.Some? <==> oldString != "" && (matchCount == 1 || (matchCount > 1 && oldString == newString))
    ensures result.Some? && matchCount > 1 ==> result == Some(content)
  {
    if oldString == "" { return None, count0; }
    matchCount := CountMatches(content, oldString);
    if matchCount == 0 { return None, 0; }
    if matchCount > 1 {
      return if oldString == newString then Some(content) else None, matchCount;
    }
    var p := Find(content, oldString, 0).value;
    result := Some(content[..p] + newString + content[p + |oldString|..]);
  }

  /** A single match: the text around it stays, and nothing before it matches. */
  lemma ApplySingle(content: string, w: string, u: string) returns (pre: string, post: string)
    requires w != "" && Count(content, w, 0) == 1
    ensures content == pre + w + post && Apply(content, w, u) == Some(pre + u + post)
    ensures forall i :: 0 <= i < |pre| ==> !OccursAt(content, w, i)
  {
    FindFirst(content, w, 0);
    var p := Find(content, w, 0).value;
    pre, post := content[..p], content[p + |w|..];
    assert content[p..p + |w|] == w;
  }

  /** An edit is made exactly when its text occurs and not twice apart; asked for the same text, it changes nothing. */
  lemma AppliesIff(content: string, w: string, u: string)
    ensures Apply(content, w, u).Some? <==>
            w != "" && (exists i :: OccursAt(content, w, i)) && (TwoApart(content, w) ==> w == u)
    ensures Apply(content, w, u).Some? && w == u ==> Apply(content, w, u) == Some(content)
  {
    if w != "" {
      CountMeans(content, w);
      if Count(content, w, 0) == 1 {
        var pre, post := ApplySingle(content, w, u);
      }
    }
  }

  // ---------- is a single match unique? ----------

  ghost predicate OccursOnce(s: string, w: string, p: nat) {
    OccursAt(s, w, p) && forall i :: OccursAt(s, w, i) ==> i == p
  }

  /** With count 1 every other occurrence overlaps the first one. */
  lemma OthersOverlap(s: string, w: string, p: nat, i: nat)
    requires w != "" && Count(s, w, 0) == 1 && Find(s, w, 0) == Some(p) && OccursAt(s, w, i)
    ensures p <= i < p + |w|
  {
    FindFirst(s, w, 0);
    FindFirst(s, w, p + |w|);
  }

  ghost predicate CountOneMeansUnique(w: string)
    requires w != ""
  {
    forall s :: Count(s, w, 0) == 1 ==> exists p: nat :: OccursOnce(s, w, p)
  }

  lemma SecondCopy(w: string, k: nat)
    requires Border(w, k)
    ensures OccursAt(w + w[k..], w, |w| - k)
  {
    var m := |w| - k;
    Extend(w, w[k..], m, m);
    assert w[m..] + w[k..] == w[..k] + w[k..];
    Reassemble(w, k, |w|);
    assert w[k..|w|] == w[k..];
    assert w[..|w|] == w;
    var s := w + w[k..];
    assert s[m..] == w;
    assert s[m..m + |w|] == s[m..];
  }

  lemma OverlappingCopies(w: string, k: nat)
    requires Border(w, k)
    ensures var s := w + w[k..];
            Count(s, w, 0) == 1 && OccursAt(s, w, 0) && OccursAt(s, w, |w| - k)
  {
    SecondCopy(w, k);
    var s := w + w[k..];
    assert s[0..|w|] == w;
    FindIs(s, w, 0, 0);
    assert Find(s, w, |w|).None?;
    assert Count(s, w, |w|) == 0;
  }

  /** "Count 1" means "occurs exactly once" for every text exactly when old_string cannot overlap itself. */
  lemma CountOneMeansUniqueIff(w: string)
    requires w != ""
    ensures CountOneMeansUnique(w) <==> Unbordered(w)
  {
    if Unbordered(w) {
      forall s | Count(s, w, 0) == 1 ensures exists p: nat :: OccursOnce(s, w, p) {
        FindFirst(s, w, 0);
        var p := Find(s, w, 0).value;
        forall i: nat | OccursAt(s, w, i) ensures i == p {
          OthersOverlap(s, w, p, i);
          if p < i { OverlapIsBorder(s, w, p, i); }
        }
        assert OccursOnce(s, w, p);
      }
    } else {
      var k: nat :| Border(w, k);
      OverlappingCopies(w, k);
      var s := w + w[k..];
      forall p: nat ensures !OccursOnce(s, w, p) {}
    }
  }

  // ---------- several edits ----------

  datatype Edit = Edit(oldString: string, newString: string)

  datatype EditError = NoEdits | EmptyOldString | NotFound(oldString: string) | NotUnique(count: nat)

  datatype EditResult = Edited(content: string) | Failed(error: EditError)

  /** The edits one after the other, each on the text the one before left. */
  function Composed(content: string, edits: seq<Edit>): Option<string>
    decreases |edits|
  {
    if edits == [] then Some(content)
    else
      match Apply(content, edits[0].oldString, edits[0].newString)
      case None => None
      case Some(c) => Composed(c, edits[1..])
  }

  lemma {:induction false} ComposedSnoc(content: string, edits: seq<Edit>, e: Edit)
    ensures Composed(content, edits + [e]) ==
            match Composed(content, edits) case None => None case Some(c) => Apply(c, e.oldString, e.newString)
    decreases |edits|
  {
    if edits == [] {
      assert [e][1..] == [];
    } else {
      assert (edits + [e])[1..] == edits[1..] + [e];
      var step := Apply(content, edits[0].oldString, edits[0].newString);
      if step.Some? {
        ComposedSnoc(step.value, edits[1..], e);
      }
    }
  }

  lemma {:induction false} ComposedFails(content: string, edits: seq<Edit>, i: nat)
    requires i <= |edits| && Composed(content, edits[..i]) == None
    ensures Composed(content, edits) == None
    decreases |edits| - i
  {
    if i < |edits| {
      ComposedSnoc(content, edits[..i], edits[i]);
      assert edits[..i + 1] == edits[..i] + [edits[i]];
      ComposedFails(content, edits, i + 1);
    } else {
      assert edits[..i] == edits;
    }
  }

  /** The error says why the edit cannot be made on the text. */
  ghost predicate Refuses(text: string, e: Edit, error: EditError) {
    match error
    case NoEdits => false
    case EmptyOldString => e.oldString == ""
    case NotFound(w) => w == e.oldString != "" && forall i :: !OccursAt(text, w, i)
    case NotUnique(n) =>
      e.oldString != "" && e.oldString != e.newString &&
      TwoApart(text, e.oldString) && MostDisjoint(text, e.oldString, n)
  }

  lemma RefusesCount(text: string, e: Edit, n: nat)
    requires e.oldString != "" && n == Count(text, e.oldString, 0)
    requires Apply(text, e.oldString, e.newString).None?
    ensures Refuses(text, e, if n == 0 then NotFound(e.oldString) else NotUnique(n))
  {
    CountMeans(text, e.oldString);
    CountIsMaximum(text, e.oldString);
  }

  /** All edits or none: the first one that fails gives the error and no content. */
  method MultiEdit(content: string, edits: seq<Edit>) returns (result: EditResult, ghost failedAt: nat)
    ensures edits == [] ==> result == Failed(NoEdits)
    ensures result.Edited? ==> Composed(content, edits) == Some(result.content)
    ensures result.Failed? && edits != [] ==>
              failedAt < |edits| && Composed(content, edits[..failedAt]).Some? && Composed(content, edits) == None &&
              Refuses(Composed(content, edits[..failedAt]).value, edits[failedAt], result.error)
  {
    if edits == [] { return Failed(NoEdits), 0; }
    var current := content;
    for i := 0 to |edits|
      invariant Composed(content, edits[..i]) == Some(current)
    {
      ComposedSnoc(content, edits[..i], edits[i]);
      assert edits[..i + 1] == edits[..i] + [edits[i]];
      var oldStr := edits[i].oldString;
      if oldStr == "" {
        ComposedFails(content, edits, i + 1);
        return Failed(EmptyOldString), i;
      }
      var step, matchCount := ApplyReplacement(current, oldStr, edits[i].newString, 0);
      if step.None? {
        ComposedFails(content, edits, i + 1);
        RefusesCount(current, edits[i], matchCount);
        return Failed(if matchCount == 0 then NotFound(oldStr) else NotUnique(matchCount)), i;
      }
      current := step.value;
    }
    assert edits[..|edits|] == edits;
    return Edited(current), 0;
  }

  function Growth(edits: seq<Edit>): int {
    if edits == [] then 0
    else |edits[0].newString| - |edits[0].oldString| + Growth(edits[1..])
  }

  /** The length of the result does not depend on where the matches were. */
  lemma {:induction false} ComposedLength(content: string, edits: seq<Edit>)
    requires Composed(content, edits).Some?
    ensures |Composed(content, edits).value| == |content| + Growth(edits)
    decreases |edits|
  {
    if edits != [] {
      var c := Apply(content, edits[0].oldString, edits[0].newString).value;
      ComposedLength(c, edits[1..]);
    }
  }

  lemma OnceMeansCountOne(s: string, w: string, p: nat)
    requires w != "" && OccursOnce(s, w, p)
    ensures Count(s, w, 0) == 1 && Find(s, w, 0) == Some(p)
  {
    FindFirst(s, w, 0);
    FindFirst(s, w, p + |w|);
    assert Find(s, w, p + |w|).None?;
  }

  lemma ApplyOnce(a: string, w: string, c: string, u: string)
    requires w != "" && OccursOnce(a + w + c, w, |a|)
    ensures Apply(a + w + c, w, u) == Some(a + u + c)
  {
    OnceMeansCountOne(a + w + c, w, |a|);
    var s := a + w + c;
    assert s[..|a|] == a && s[|a| + |w|..] == c;
  }

  lemma GroupFive(a: string, x: string, b: string, y: string, c: string)
    ensures a + x + b + y + c == a + x + (b + y + c)
  {}

  lemma FrontEditFirst(a: string, b: string, c: string, e: Edit, f: Edit)
    requires e.oldString != "" && f.oldString != ""
    requires OccursOnce(a + e.oldString + (b + f.oldString + c), e.oldString, |a|)
    requires OccursOnce(a + e.newString + b + f.oldString + c, f.oldString, |a + e.newString + b|)
    ensures Composed(a + e.oldString + b + f.oldString + c, [e, f]) == Some(a + e.newString + b + f.newString + c)
  {
    GroupFive(a, e.oldString, b, f.oldString, c);
    GroupFive(a, e.newString, b, f.oldString, c);
    ApplyOnce(a, e.oldString, b + f.oldString + c, e.newString);
    ApplyOnce(a + e.newString + b, f.oldString, c, f.newString);
    ComposedTwo(a + e.oldString + b + f.oldString + c, e, f,
                a + e.newString + b + f.oldString + c, a + e.newString + b + f.newString + c);
  }

  lemma BackEditFirst(a: string, b: string, c: string, e: Edit, f: Edit)
    requires e.oldString != "" && f.oldString != ""
    requires OccursOnce(a + e.oldString + b + f.oldString + c, f.oldString, |a + e.oldString + b|)
    requires OccursOnce(a + e.oldString + (b + f.newString + c), e.oldString, |a|)
    ensures Composed(a + e.oldString + b + f.oldString + c, [f, e]) == Some(a + e.newString + b + f.newString + c)
  {
    GroupFive(a, e.oldString, b, f.newString, c);
    GroupFive(a, e.newString, b, f.newString, c);
    ApplyOnce(a + e.oldString + b, f.oldString, c, f.newString);
    ApplyOnce(a, e.oldString, b + f.newString + c, e.newString);
    ComposedTwo(a + e.oldString + b + f.oldString + c, f, e,
                a + e.oldString + b + f.newString + c, a + e.newString + b + f.newString + c);
  }

  /** Two edits at disjoint places, each unique before and after the other, commute. */
  lemma DisjointEditsCommute(a: string, b: string, c: string, e: Edit, f: Edit)
    requires e.oldString != "" && f.oldString != ""
    requires OccursOnce(a + e.oldString + (b + f.oldString + c), e.oldString, |a|)
    requires OccursOnce(a + e.oldString + b + f.oldString + c, f.oldString, |a + e.oldString + b|)
    requires OccursOnce(a + e.newString + b + f.oldString + c, f.oldString, |a + e.newString + b|)
    requires OccursOnce(a + e.oldString + (b + f.newString + c), e.oldString, |a|)
    ensures var s := a + e.oldString + b + f.oldString + c;
            Composed(s, [e, f]) == Composed(s, [f, e]) == Some(a + e.newString + b + f.newString + c)
  {
    FrontEditFirst(a, b, c, e, f);
    BackEditFirst(a, b, c, e, f);
  }

  lemma ComposedTwo(s: string, e: Edit, f: Edit, mid: string, end: string)
    requires Apply(s, e.oldString, e.newString) == Some(mid) && Apply(mid, f.oldString, f.newString) == Some(end)
    ensures Composed(s, [e, f]) == Some(end)
  {
    assert [e, f][1..] == [f];
    assert [f][1..] == [];
    assert Composed(mid, [f]) == Composed(end, []);
  }

  // ---------- the prompt's promise: every edit is matched against the original ----------

  /** Taking out a word d places earlier and putting u there gives the same text as at its own place. */
  predicate Slides(w: string, u: string, d: nat)
    requires d <= |w|
  {
    w[..d] + u == u + w[|w| - d..]
  }

  /** An edit of l + old + r exchanges this very occurrence, or makes the same text of another one. */
  ghost predicate HitsAt(text: string, e: Edit, q: nat)
    requires e.oldString != ""
  {
    e.oldString == e.newString ||
    (Count(text, e.oldString, 0) == 1 &&
     var p := Find(text, e.oldString, 0).value;
     p <= q <= p + |e.oldString| && Slides(e.oldString, e.newString, q - p))
  }

  /** Two occurrences that overlap, the second d places behind the first: what is around them. */
  lemma OverlapParts(l: string, w: string, r: string, p: nat)
    requires OccursAt(l + w + r, w, p) && p <= |l| < p + |w|
    ensures var d := |l| - p;
            d <= |r| + |w| && l == l[..p] + w[..d] && (l + w + r)[p + |w|..] == w[|w| - d..] + r
  {
    var s, d := l + w + r, |l| - p;
    assert s[p..p + |w|] == w;
    assert w[..d] == s[p..p + |w|][..d] == s[p..|l|] == l[p..];
    assert s[|l|..|l| + |w|] == w;
    assert s[p + |w|..|l| + |w|] == w[|w| - d..];
    assert s[|l| + |w|..] == r;
    Reassemble(s, p + |w|, |l| + |w|);
  }

  lemma Enclosed(front: string, m: string, n: string, r: string)
    requires |m| == |n|
    ensures front + m + r == front + n + r <==> m == n
  {
    var k := |front| + |m|;
    assert (front + m + r)[|front|..k] == m;
    assert (front + n + r)[|front|..k] == n;
  }

  lemma GroupMiddle(front: string, x: string, y: string, r: string)
    ensures front + x + (y + r) == front + (x + y) + r
    ensures (front + x) + y + r == front + (x + y) + r
  {}

  lemma SlidesIff(front: string, x: string, u: string, y: string, r: string)
    requires |x| == |y|
    ensures front + u + (y + r) == (front + x) + u + r <==> x + u == u + y
  {
    GroupMiddle(front, u, y, r);
    GroupMiddle(front, x, u, r);
    Enclosed(front, x + u, u + y, r);
  }

  lemma {:induction false} OccurrenceIsCounted(s: string, w: string, q: nat)
    requires w != "" && OccursAt(s, w, q)
    ensures Count(s, w, 0) >= 1
  {
    FindFirst(s, w, 0);
  }

  lemma ReplacedAtIff(l: string, w: string, r: string, u: string, p: nat)
    requires OccursAt(l + w + r, w, p) && p <= |l| < p + |w|
    ensures var s := l + w + r; s[..p] + u + Behind(s, w, p) == l + u + r <==> Slides(w, u, |l| - p)
  {
    var s, d := l + w + r, |l| - p;
    OverlapParts(l, w, r, p);
    assert s[..p] == l[..p];
    SlidesIff(l[..p], w[..d], u, w[|w| - d..], r);
  }

  /** Exchanging a text for itself changes nothing, however often it occurs. */
  lemma ApplySame(s: string, w: string, q: nat)
    requires w != "" && OccursAt(s, w, q)
    ensures Apply(s, w, w) == Some(s)
  {
    OccurrenceIsCounted(s, w, q);
    if Count(s, w, 0) == 1 {
      FindFirst(s, w, 0);
      FindBounds(s, w, Find(s, w, 0).value);
    }
  }

  lemma PlantedOccurs(l: string, w: string, r: string)
    ensures OccursAt(l + w + r, w, |l|)
  {
    assert (l + w + r)[|l|..|l| + |w|] == w;
  }

  lemma Replace1Is(s: string, w: string, u: string, p: nat)
    requires Find(s, w, 0) == Some(p)
    ensures Replace1(s, w, u) == s[..p] + u + Behind(s, w, p)
  {}

  /** With one match in s, what is left to decide is where it is. */
  lemma SingleMatchIff(l: string, r: string, e: Edit, s: string)
    requires e.oldString != "" && s == l + e.oldString + r && Count(s, e.oldString, 0) == 1
    requires e.oldString != e.newString
    ensures Replace1(s, e.oldString, e.newString) == l + e.newString + r <==> HitsAt(s, e, |l|)
  {
    var w := e.oldString;
    PlantedOccurs(l, w, r);
    FindFirst(s, w, 0);
    var p := Find(s, w, 0).value;
    OthersOverlap(s, w, p, |l|);
    Replace1Is(s, w, e.newString, p);
    ReplacedAtIff(l, w, r, e.newString, p);
  }

  /** Exactly when apply_replacement exchanges the occurrence between l and r. */
  lemma ApplyAtIff(l: string, r: string, e: Edit, s: string)
    requires e.oldString != "" && s == l + e.oldString + r
    ensures Apply(s, e.oldString, e.newString) == Some(l + e.newString + r) <==> HitsAt(s, e, |l|)
  {
    PlantedOccurs(l, e.oldString, r);
    OccurrenceIsCounted(s, e.oldString, |l|);
    if e.oldString == e.newString {
      ApplySame(s, e.oldString, |l|);
    } else if Count(s, e.oldString, 0) == 1 {
      SingleMatchIff(l, r, e, s);
    }
  }

  /** A word without a border can only be hit where it stands, and only if it stands nowhere else. */
  lemma UnborderedHitsIff(text: string, e: Edit, q: nat)
    requires e.oldString != "" && Unbordered(e.oldString) && OccursAt(text, e.oldString, q)
    ensures HitsAt(text, e, q) <==> e.oldString == e.newString || OccursOnce(text, e.oldString, q)
  {
    var w := e.oldString;
    if Count(text, w, 0) == 1 {
      CountOneMeansUniqueIff(w);
      var p: nat :| OccursOnce(text, w, p);
      FindFirst(text, w, 0);
      assert w[..0] + e.newString == e.newString + w[|w|..];
    }
    if OccursOnce(text, w, q) {
      OnceMeansCountOne(text, w, q);
      assert w[..0] + e.newString == e.newString + w[|w|..];
    }
  }

  /**
   Two edits at disjoint places of the original, the first one in front: they give what both would
   give on the original exactly when the second one hits its place in what the first one left.
   */
  lemma PromiseKeptIff(a: string, b: string, c: string, e: Edit, f: Edit)
    requires e.oldString != "" && f.oldString != ""
    requires OccursOnce(a + e.oldString + (b + f.oldString + c), e.oldString, |a|)
    ensures var mid := a + e.newString + b + f.oldString + c;
            Composed(a + e.oldString + b + f.oldString + c, [e, f]) == Some(a + e.newString + b + f.newString + c)
            <==> HitsAt(mid, f, |a + e.newString + b|)
  {
    var s, mid := a + e.oldString + b + f.oldString + c, a + e.newString + b + f.oldString + c;
    assert s == a + e.oldString + (b + f.oldString + c);
    assert mid == a + e.newString + (b + f.oldString + c);
    ApplyOnce(a, e.oldString, b + f.oldString + c, e.newString);
    ApplyAtIff(a + e.newString + b, c, f, mid);
    ComposedPair(s, e, f, mid);
  }

  /** The same for a first edit that stands behind the second one. */
  lemma PromiseKeptBackwardsIff(a: string, b: string, c: string, e: Edit, f: Edit)
    requires e.oldString != "" && f.oldString != ""
    requires OccursOnce(a + f.oldString + b + e.oldString + c, e.oldString, |a + f.oldString + b|)
    ensures var mid := a + f.oldString + (b + e.newString + c);
            Composed(a + f.oldString + b + e.oldString + c, [e, f]) == Some(a + f.newString + (b + e.newString + c))
            <==> HitsAt(mid, f, |a|)
  {
    var s, mid := a + f.oldString + b + e.oldString + c, a + f.oldString + (b + e.newString + c);
    assert mid == a + f.oldString + b + e.newString + c;
    ApplyOnce(a + f.oldString + b, e.oldString, c, e.newString);
    ApplyAtIff(a, b + e.newString + c, f, mid);
    ComposedPair(s, e, f, mid);
  }

  /** For an old string without a border: exactly when it is still unique in what the first edit left. */
  lemma PromiseKeptIfStillUnique(a: string, b: string, c: string, e: Edit, f: Edit)
    requires e.oldString != "" && f.oldString != "" && Unbordered(f.oldString)
    requires OccursOnce(a + e.oldString + (b + f.oldString + c), e.oldString, |a|)
    ensures var mid := a + e.newString + b + f.oldString + c;
            Composed(a + e.oldString + b + f.oldString + c, [e, f]) == Some(a + e.newString + b + f.newString + c)
            <==> f.oldString == f.newString || OccursOnce(mid, f.oldString, |a + e.newString + b|)
  {
    PromiseKeptIff(a, b, c, e, f);
    var mid, l := a + e.newString + b + f.oldString + c, a + e.newString + b;
    assert mid[|l|..|l| + |f.oldString|] == f.oldString;
    UnborderedHitsIff(mid, f, |l|);
  }

  lemma ComposedPair(s: string, e: Edit, f: Edit, mid: string)
    requires Apply(s, e.oldString, e.newString) == Some(mid)
    ensures Composed(s, [e, f]) == Apply(mid, f.oldString, f.newString)
  {
    ComposedSnoc(s, [e], f);
    assert [e] + [f] == [e, f];
    ComposedSnoc(s, [], e);
    assert [] + [e] == [e];
  }

  // ---------- the promise for any list of edits ----------

  /** A text with a place for each edit, in any order. */
  datatype Piece = Plain(text: string) | Place(edit: nat)

  /** The text in which the first n edits have been made, each at its place. */
  function Rendered(ps: seq<Piece>, edits: seq<Edit>, n: nat): string {
    if ps == [] then "" else Shown(ps[0], edits, n) + Rendered(ps[1..], edits, n)
  }

  function Shown(piece: Piece, edits: seq<Edit>, n: nat): string {
    match piece
    case Plain(text) => text
    case Place(i) =>
      if i >= |edits| then "" else if i < n then edits[i].newString else edits[i].oldString
  }

  lemma {:induction false} RenderedConcat(ps: seq<Piece>, qs: seq<Piece>, edits: seq<Edit>, n: nat)
    ensures Rendered(ps + qs, edits, n) == Rendered(ps, edits, n) + Rendered(qs, edits, n)
    decreases |ps|
  {
    if ps == [] {
      assert ps + qs == qs;
    } else {
      assert (ps + qs)[1..] == ps[1..] + qs;
      RenderedConcat(ps[1..], qs, edits, n);
      Regroup(Shown(ps[0], edits, n), Rendered(ps[1..], edits, n), Rendered(qs, edits, n));
    }
  }

  /** An edit that has no place here changes nothing here. */
  lemma {:induction false} RenderedElsewhere(ps: seq<Piece>, edits: seq<Edit>, n: nat)
    requires Place(n) !in ps
    ensures Rendered(ps, edits, n) == Rendered(ps, edits, n + 1)
    decreases |ps|
  {
    if ps != [] {
      RenderedElsewhere(ps[1..], edits, n);
    }
  }

  /** The n-th edit stands between front and back, and nowhere else. */
  ghost predicate PlacedAt(ps: seq<Piece>, n: nat, k: nat) {
    k < |ps| && ps[k] == Place(n) && Place(n) !in ps[..k] && Place(n) !in ps[k + 1..]
  }

  lemma RenderedAround(ps: seq<Piece>, edits: seq<Edit>, n: nat, k: nat)
    requires n < |edits| && PlacedAt(ps, n, k)
    ensures var l, r := Rendered(ps[..k], edits, n), Rendered(ps[k + 1..], edits, n);
            Rendered(ps, edits, n) == l + edits[n].oldString + r &&
            Rendered(ps, edits, n + 1) == l + edits[n].newString + r
  {
    RenderedAt(ps, edits, n, k, n);
    RenderedAt(ps, edits, n, k, n + 1);
    RenderedElsewhere(ps[..k], edits, n);
    RenderedElsewhere(ps[k + 1..], edits, n);
  }

  lemma RenderedAt(ps: seq<Piece>, edits: seq<Edit>, n: nat, k: nat, m: nat)
    requires n < |edits| && PlacedAt(ps, n, k)
    ensures Rendered(ps, edits, m) ==
            Rendered(ps[..k], edits, m) + Shown(Place(n), edits, m) + Rendered(ps[k + 1..], edits, m)
  {
    var front, back := ps[..k], ps[k + 1..];
    assert ps == front + ([Place(n)] + back);
    assert ([Place(n)] + back)[1..] == back;
    RenderedConcat(front, [Place(n)] + back, edits, m);
    Regroup(Rendered(front, edits, m), Shown(Place(n), edits, m), Rendered(back, edits, m));
  }

  /** The n-th edit has its effect exactly at its place in the text with the earlier ones made. */
  ghost predicate HitsPlace(ps: seq<Piece>, edits: seq<Edit>, n: nat, k: nat)
    requires n < |edits|
  {
    k < |ps| && edits[n].oldString != "" &&
    HitsAt(Rendered(ps, edits, n), edits[n], |Rendered(ps[..k], edits, n)|)
  }

  lemma EditStepIff(ps: seq<Piece>, edits: seq<Edit>, n: nat, k: nat)
    requires n < |edits| && PlacedAt(ps, n, k)
    ensures Apply(Rendered(ps, edits, n), edits[n].oldString, edits[n].newString) == Some(Rendered(ps, edits, n + 1))
            <==> HitsPlace(ps, edits, n, k)
  {
    RenderedAround(ps, edits, n, k);
    if edits[n].oldString != "" {
      ApplyAtIff(Rendered(ps[..k], edits, n), Rendered(ps[k + 1..], edits, n), edits[n], Rendered(ps, edits, n));
    }
  }

  /** After the first n edits the text is the promised one. */
  ghost predicate KeptAfter(ps: seq<Piece>, edits: seq<Edit>, n: nat)
    requires n <= |edits|
  {
    Composed(Rendered(ps, edits, 0), edits[..n]) == Some(Rendered(ps, edits, n))
  }

  lemma KeptStepIff(ps: seq<Piece>, edits: seq<Edit>, n: nat, k: nat)
    requires n < |edits| && PlacedAt(ps, n, k) && KeptAfter(ps, edits, n)
    ensures KeptAfter(ps, edits, n + 1) <==> HitsPlace(ps, edits, n, k)
  {
    ComposedSnoc(Rendered(ps, edits, 0), edits[..n], edits[n]);
    assert edits[..n + 1] == edits[..n] + [edits[n]];
    EditStepIff(ps, edits, n, k);
  }

  ghost predicate AllKept(ps: seq<Piece>, edits: seq<Edit>, m: nat)
    requires m <= |edits|
  {
    forall n :: 0 <= n <= m ==> KeptAfter(ps, edits, n)
  }

  ghost predicate AllHit(ps: seq<Piece>, edits: seq<Edit>, places: seq<nat>, m: nat)
    requires m <= |edits| == |places|
  {
    forall n :: 0 <= n < m ==> HitsPlace(ps, edits, n, places[n])
  }

  lemma KeptFromTheStart(ps: seq<Piece>, edits: seq<Edit>)
    ensures AllKept(ps, edits, 0)
  {
    assert edits[..0] == [];
  }

  lemma OneMoreKept(ps: seq<Piece>, edits: seq<Edit>, places: seq<nat>, n: nat, m: nat)
    requires n < |edits| == |places| && m == n + 1
    ensures AllKept(ps, edits, m) <==> AllKept(ps, edits, n) && KeptAfter(ps, edits, m)
    ensures AllHit(ps, edits, places, m) <==> AllHit(ps, edits, places, n) && HitsPlace(ps, edits, n, places[n])
  {}

  /**
   Any list of edits, each with a place of its own in the original, in any order: every one of
   them has the effect it would have on the original exactly when each hits its place in the
   text with the earlier ones made.
   */
  lemma {:induction false} AllPromisesKeptIff(ps: seq<Piece>, edits: seq<Edit>, places: seq<nat>, m: nat)
    requires m <= |edits| == |places|
    requires forall n :: 0 <= n < |edits| ==> PlacedAt(ps, n, places[n])
    ensures AllKept(ps, edits, m) <==> AllHit(ps, edits, places, m)
    decreases m
  {
    if m == 0 {
      KeptFromTheStart(ps, edits);
    } else {
      var n := m - 1;
      AllPromisesKeptIff(ps, edits, places, n);
      OneMoreKept(ps, edits, places, n, m);
      if AllKept(ps, edits, n) {
        assert KeptAfter(ps, edits, n);
        KeptStepIff(ps, edits, n, places[n]);
      }
    }
  }

  /** So multi_edit then returns the text the prompt promises. */
  lemma PromisedTextIsReturned(ps: seq<Piece>, edits: seq<Edit>, places: seq<nat>)
    requires |places| == |edits|
    requires forall n :: 0 <= n < |edits| ==> PlacedAt(ps, n, places[n])
    requires AllHit(ps, edits, places, |edits|)
    ensures Composed(Rendered(ps, edits, 0), edits) == Some(Rendered(ps, edits, |edits|))
  {
    AllPromisesKeptIff(ps, edits, places, |edits|);
    assert KeptAfter(ps, edits, |edits|);
    assert edits[..|edits|] == edits;
  }

  // ---------- edits the original has no place for ----------

  /** An occurrence that the original does not have reaches into the new text, or across its place. */
  lemma NewOccurrencesTouchTheEdit(a: string, w: string, u: string, c: string, v: string, i: nat)
    requires v != "" && (forall j :: !OccursAt(a + w + c, v, j)) && OccursAt(a + u + c, v, i)
    ensures i < |a + u| && |a| < i + |v|
  {
    var s, mid := a + w + c, a + u + c;
    if i + |v| <= |a| {
      assert s[i..i + |v|] == a[i..i + |v|] == mid[i..i + |v|];
      assert OccursAt(s, v, i);
    }
    if i >= |a + u| {
      var k := i - |a + u|;
      assert c[k..k + |v|] == mid[i..i + |v|];
      assert s[|a + w| + k..|a + w| + k + |v|] == c[k..k + |v|];
      assert OccursAt(s, v, |a + w| + k);
    }
  }

  /** An edit that would fail on the original succeeds only at what the edit before it wrote. */
  lemma LateEditNeedsNewText(a: string, c: string, e: Edit, f: Edit)
    requires e.oldString != "" && OccursOnce(a + e.oldString + c, e.oldString, |a|)
    requires forall j :: !OccursAt(a + e.oldString + c, f.oldString, j)
    requires Composed(a + e.oldString + c, [e, f]).Some?
    ensures exists i: nat :: OccursAt(a + e.newString + c, f.oldString, i) &&
                             i < |a + e.newString| && |a| < i + |f.oldString|
  {
    var mid := a + e.newString + c;
    ApplyOnce(a, e.oldString, c, e.newString);
    ComposedPair(a + e.oldString + c, e, f, mid);
    FindFirst(mid, f.oldString, 0);
    var i := Find(mid, f.oldString, 0).value;
    NewOccurrencesTouchTheEdit(a, e.oldString, e.newString, c, f.oldString, i);
  }

  lemma SingleLetter(c: char, u: string)
    ensures Apply([c], [c], u) == Some(u)
  {
    FindIs([c], [c], 0, 0);
    assert Find([c], [c], 1).None?;
    assert Count([c], [c], 1) == 0;
    assert Replace1([c], [c], u) == u;
  }

  /**
   The prompt promises edits matched against the original file; the code matches the second
   against what the first left.
   */
  lemma EditsSeeEarlierEdits()
    ensures Composed("a", [Edit("a", "b"), Edit("b", "c")]) == Some("c") && Apply("a", "b", "c") == None
  {
    SingleLetter('a', "b");
    SingleLetter('b', "c");
    assert !OccursAt("a", "b", 0);
    assert Count("a", "b", 0) == 0;
    ComposedTwo("a", Edit("a", "b"), Edit("b", "c"), "b", "c");
  }
}
