/**
 What the glob matcher accepts, exactly, and for which patterns that is the
 language of the pattern.
 */
module GlobTheory {
  import opened Glob

  // ---------- the matcher accepts exactly the parses ----------

  lemma ConcatCons(piece: string, pieces: seq<string>)
    ensures Concat([piece] + pieces) == piece + Concat(pieces)
    ensures piece != "" || pieces != [] ==> LastNonEmpty(pieces) ==> LastNonEmpty([piece] + pieces)
  {
    assert ([piece] + pieces)[1..] == pieces;
  }

  lemma ReadsCons(p: string, r: string, piece: string, pieces: seq<string>)
    requires p != "" && Accepts(Head(p), piece) && Reads(Rest(p), r, pieces)
    ensures Reads(p, r, [piece] + pieces)
  {
    assert ([piece] + pieces)[1..] == pieces;
  }

  lemma NothingLeft(pieces: seq<string>)
    requires Reads("", "", pieces)
    ensures pieces == []
  {}

  lemma FirstPiece(p: string, t: string) returns (k: nat)
    requires p != "" && t != "" && Match(p, t)
    ensures k <= |t| && Accepts(Head(p), t[..k]) && Match(Rest(p), t[k..])
  {
    if StarStar(p) {
      k :| 0 <= k <= |t| && Match(Rest(p), t[k..]);
    } else if p[0] == '*' {
      k :| 0 <= k <= |t| && NoSlash(t[..k]) && Match(Rest(p), t[k..]);
    } else {
      k := 1;
    }
  }

  /** A successful match splits the text into pieces the tokens read. */
  lemma {:induction false} MatchParses(p: string, t: string) returns (r: string, pieces: seq<string>)
    requires Match(p, t)
    ensures Parses(p, t, r, pieces)
    decreases |p|
  {
    if p == "" || t == "" {
      return p, [];
    }
    var k := FirstPiece(p, t);
    r, pieces := MatchParses(Rest(p), t[k..]);
    ConcatCons(t[..k], pieces);
    ReadsCons(p, r, t[..k], pieces);
    assert t[..k] + t[k..] == t;
    pieces := [t[..k]] + pieces;
  }

  /** Every parse is found by the matcher. */
  lemma {:induction false} ParsesMatch(p: string, t: string, r: string, pieces: seq<string>)
    requires Parses(p, t, r, pieces)
    ensures Match(p, t)
    decreases |p|
  {
    if pieces != [] {
      LastInConcat(pieces);
      var k, more := |pieces[0]|, pieces[1..];
      assert t[k..] == Concat(more) && t[..k] == pieces[0];
      assert more != [] ==> more[|more| - 1] == pieces[|pieces| - 1];
      ParsesMatch(Rest(p), t[k..], r, more);
      assert Match(Rest(p), t[k..]);
    }
  }

  lemma {:induction false} LastInConcat(pieces: seq<string>)
    requires pieces != []
    ensures |Concat(pieces)| >= |pieces[|pieces| - 1]|
  {
    if |pieces| > 1 {
      LastInConcat(pieces[1..]);
    }
  }

  /** The matcher, exactly, for every pattern and every text. */
  lemma MatchIff(p: string, t: string)
    ensures Match(p, t) <==> exists r, pieces :: Parses(p, t, r, pieces)
  {
    if Match(p, t) {
      var r, pieces := MatchParses(p, t);
    }
    if r, pieces :| Parses(p, t, r, pieces) {
      ParsesMatch(p, t, r, pieces);
    }
  }

  // ---------- what the tokens are ----------

  function Repeated(w: string, n: nat): string {
    if n == 0 then "" else w + Repeated(w, n - 1)
  }

  /** The slashes behind "**", however many, belong to its token; of every other character each is its own. */
  lemma StarsTakeSlashes(n: nat, q: string)
    requires q == "" || q[0] != '/'
    ensures var p := "**" + (Repeated("/", n) + q);
            p != "" && Head(p) == AnyPath && Rest(p) == q
  {
    SlashesAreSkipped(n, q);
    assert ("**" + (Repeated("/", n) + q))[2..] == Repeated("/", n) + q;
  }

  lemma {:induction false} SlashesAreSkipped(n: nat, q: string)
    requires q == "" || q[0] != '/'
    ensures SkipSlashes(Repeated("/", n) + q) == q
    decreases n
  {
    if n == 0 {
      assert Repeated("/", n) + q == q;
    } else {
      SlashesAreSkipped(n - 1, q);
      assert (Repeated("/", n) + q)[1..] == Repeated("/", n - 1) + q;
    }
  }

  lemma OtherTokens(c: char, q: string)
    requires c == '*' ==> q == "" || q[0] != '*'
    ensures var p := [c] + q;
            Rest(p) == q && Head(p) == if c == '*' then Segment else if c == '?' then One else Literal(c)
  {
    assert ([c] + q)[1..] == q;
  }

  /** What may be left over at the end of the text: a slash and two stars, any number of times. */
  lemma {:induction false} RunIsRepetition(p: string)
    ensures TrailingRun(p) <==> exists n: nat :: p == Repeated("/**", n)
    decreases |p|
  {
    if p == "" {
      assert p == Repeated("/**", 0);
    } else {
      if |p| >= 3 {
        RunIsRepetition(p[3..]);
        assert p == p[..3] + p[3..];
      }
      if TrailingRun(p) {
        var n: nat :| p[3..] == Repeated("/**", n);
        assert p[..3] == "/**";
        assert p == Repeated("/**", n + 1);
      }
      if n: nat :| p == Repeated("/**", n) {
        assert n > 0 && p == "/**" + Repeated("/**", n - 1);
        assert p[3..] == Repeated("/**", n - 1) && p[0] == '/' && p[1] == '*' && p[2] == '*';
      }
    }
  }

  /** Alone, the matcher takes "*" for any text without a slash and "**" for any text, but none that is empty. */
  lemma BareStars(t: string)
    ensures Match("*", t) <==> t != "" && NoSlash(t)
    ensures Match("**", t) <==> t != ""
  {
    assert Rest("*") == "" && Rest("**") == "";
    assert t[..|t|] == t && t[|t|..] == "";
    if t != "" {
      assert Match("", t[|t|..]);
    }
  }

  /** Where the public entry says something else than the matcher. */
  lemma EntryDiffersIff(p: string, t: string)
    ensures PatternMatches(p, t) != Match(p, t) <==>
            (p == "*" && (t == "" || '/' in t)) || (p == "**" && t == "")
  {
    BareStars(t);
  }

  // ---------- when that is the language of the pattern ----------

  /** The last token of the pattern is a star. */
  predicate EndsInStar(p: string)
    decreases |p|
  {
    p != "" && if Rest(p) == "" then Star(Head(p)) else EndsInStar(Rest(p))
  }

  /** The number of tokens that read exactly one character. */
  function Width(p: string): nat
    decreases |p|
  {
    if p == "" then 0 else (if Star(Head(p)) then 0 else 1) + Width(Rest(p))
  }

  lemma {:induction false} ReadsKeepsEnd(p: string, r: string, pieces: seq<string>)
    requires Reads(p, r, pieces) && r != ""
    ensures EndsInStar(p) == EndsInStar(r)
    decreases |pieces|
  {
    if pieces != [] {
      ReadsKeepsEnd(Rest(p), r, pieces[1..]);
      assert Rest(p) != "";
    }
  }

  lemma {:induction false} AfterRun(p: string)
    requires TrailingRun(p)
    ensures EndsInStar("**" + p) && Width("**" + p) == 0
    decreases |p|
  {
    var q := "**" + p;
    assert q[2..] == p;
    if p != "" {
      assert SkipSlashes(p) == p[1..] == "**" + p[3..];
      AfterRun(p[3..]);
    }
  }

  /** A trailing run is one slash and stars. */
  lemma RunEndsInStar(r: string)
    requires TrailingRun(r) && r != ""
    ensures EndsInStar(r) && Width(r) == 1 && Rest(r) == "**" + r[3..]
  {
    assert r[1..] == "**" + r[3..];
    AfterRun(r[3..]);
  }

  /** A pattern whose last token is no star reads a non-empty last piece. */
  lemma {:induction false} PlainEnd(p: string, pieces: seq<string>)
    requires Reads(p, "", pieces) && !EndsInStar(p)
    ensures LastNonEmpty(pieces)
    decreases |pieces|
  {
    if pieces != [] && Rest(p) != "" {
      PlainEnd(Rest(p), pieces[1..]);
    } else if pieces != [] {
      NothingLeft(pieces[1..]);
    }
  }

  /** For a pattern whose last token is no star the matcher decides the language. */
  lemma PlainPatternsAgree(p: string, t: string)
    requires !EndsInStar(p)
    ensures Match(p, t) <==> Denotes(p, t)
  {
    if Match(p, t) {
      var r, pieces := MatchParses(p, t);
      if r != "" {
        ReadsKeepsEnd(p, r, pieces);
        RunEndsInStar(r);
      }
      assert Reads(p, "", pieces);
    }
    if pieces :| Reads(p, "", pieces) && Concat(pieces) == t {
      PlainEnd(p, pieces);
      ParsesMatch(p, t, "", pieces);
    }
  }

  // ---------- witnesses for the patterns that end in a star ----------

  lemma {:induction false} ReadsWidth(p: string, r: string, pieces: seq<string>)
    requires Reads(p, r, pieces)
    ensures |Concat(pieces)| >= Width(p) - Width(r)
    decreases |pieces|
  {
    if pieces != [] {
      ReadsWidth(Rest(p), r, pieces[1..]);
    }
  }

  /** With a star at the end and a non-empty last piece there is one character more. */
  lemma {:induction false} StarEndWidth(p: string, pieces: seq<string>)
    requires Reads(p, "", pieces) && EndsInStar(p) && LastNonEmpty(pieces)
    ensures |Concat(pieces)| > Width(p)
    decreases |pieces|
  {
    ReadsWidth(Rest(p), "", pieces[1..]);
    if Rest(p) != "" {
      assert pieces[1..] != [];
      StarEndWidth(Rest(p), pieces[1..]);
    } else {
      NothingLeft(pieces[1..]);
    }
  }

  function Least(tok: Token): string {
    match tok
    case AnyPath => ""
    case Segment => ""
    case One => "x"
    case Literal(c) => [c]
  }

  /** The shortest reading of p: stars read nothing. */
  lemma {:induction false} ShortestReading(p: string) returns (pieces: seq<string>)
    ensures Reads(p, "", pieces) && |Concat(pieces)| == Width(p)
    decreases |p|
  {
    if p == "" {
      return [];
    }
    pieces := ShortestReading(Rest(p));
    ReadsCons(p, "", Least(Head(p)), pieces);
    ConcatCons(Least(Head(p)), pieces);
    pieces := [Least(Head(p))] + pieces;
  }

  /** As short as a text of the given width can be, or one character longer with an 'x' at the end. */
  predicate Short(t: string, width: int) {
    |t| == width || (t != "" && |t| == width + 1 && t[|t| - 1] == 'x')
  }

  function ShortPiece(tok: Token, last: bool): string {
    if last && Star(tok) then "x" else Least(tok)
  }

  lemma ShortInFront(tok: Token, t: string, width: int, last: bool)
    requires Short(t, width) && (last ==> t == "" && width == 0)
    ensures Short(ShortPiece(tok, last) + t, (if Star(tok) then 0 else 1) + width)
    ensures last ==> ShortPiece(tok, last) != ""
  {}

  /**
   From a reading of p down to r, a reading of the same tokens that is as short
   as possible but keeps a non-empty last piece.
   */
  lemma {:induction false} ShortReading(p: string, r: string, prev: seq<string>) returns (pieces: seq<string>)
    requires Reads(p, r, prev)
    ensures Reads(p, r, pieces) && LastNonEmpty(pieces) && |pieces| == |prev|
    ensures Short(Concat(pieces), Width(p) - Width(r))
    decreases |prev|
  {
    if prev == [] {
      return [];
    }
    var more := ShortReading(Rest(p), r, prev[1..]);
    var piece := ShortPiece(Head(p), more == []);
    ShortInFront(Head(p), Concat(more), Width(Rest(p)) - Width(r), more == []);
    ReadsCons(p, r, piece, more);
    ConcatCons(piece, more);
    pieces := [piece] + more;
  }

  /** A full reading passes every token boundary: it splits at r. */
  lemma {:induction false} SplitReading(p: string, r: string, pre: seq<string>, full: seq<string>)
    returns (post: seq<string>)
    requires Reads(p, r, pre) && Reads(p, "", full)
    ensures Reads(r, "", post)
    ensures |Concat(post)| <= |Concat(full)| - (Width(p) - Width(r))
    ensures |Concat(post)| <= |Concat(full)| && Concat(full)[|Concat(full)| - |Concat(post)|..] == Concat(post)
    decreases |pre|
  {
    if pre == [] {
      return full;
    }
    post := SplitReading(Rest(p), r, pre[1..], full[1..]);
    assert Concat(full) == full[0] + Concat(full[1..]);
  }

  /** A run read with a single character reads the slash. */
  lemma RunReadsSlash(r: string, pieces: seq<string>)
    requires TrailingRun(r) && r != "" && Reads(r, "", pieces) && |Concat(pieces)| <= 1
    ensures Concat(pieces) == "/"
  {
    RunEndsInStar(r);
    assert pieces != [];
    assert pieces[0] == ['/'];
  }

  /** The shortest text a run is left over from is too short for the language, or ends in the wrong letter. */
  lemma ShortTextIsNotDenoted(p: string, r: string, short: seq<string>)
    requires Reads(p, r, short) && TrailingRun(r) && r != ""
    requires Short(Concat(short), Width(p) - Width(r))
    ensures !Denotes(p, Concat(short))
  {
    RunEndsInStar(r);
    if full :| Reads(p, "", full) && Concat(full) == Concat(short) {
      var post := SplitReading(p, r, short, full);
      ReadsWidth(r, "", post);
      RunReadsSlash(r, post);
      assert false;
    }
  }

  lemma RunIsLeft(p: string, t: string, r: string, pieces: seq<string>)
    requires EndsInStar(p) && Parses(p, t, r, pieces) && |t| == Width(p)
    ensures r != ""
  {
    if r == "" {
      StarEndWidth(p, pieces);
      assert false;
    }
  }

  /** A star at the end: some text tells the matcher from the language. */
  lemma StarPatternsDiffer(p: string) returns (t: string)
    requires EndsInStar(p)
    ensures Match(p, t) != Denotes(p, t)
  {
    var least := ShortestReading(p);
    t := Concat(least);
    assert Denotes(p, t);
    if Match(p, t) {
      var r, pieces := MatchParses(p, t);
      RunIsLeft(p, t, r, pieces);
      var short := ShortReading(p, r, pieces);
      t := Concat(short);
      ParsesMatch(p, t, r, short);
      ShortTextIsNotDenoted(p, r, short);
    }
  }

  ghost predicate DecidesLanguage(p: string) {
    forall t :: PatternMatches(p, t) <==> Denotes(p, t)
  }

  /** The matcher decides the language of exactly the patterns whose last token is no star, and of "**". */
  lemma DecidesLanguageIff(p: string)
    ensures DecidesLanguage(p) <==> (p == "**" || !EndsInStar(p))
  {
    if p == "**" {
      forall t ensures Denotes(p, t) {
        assert Reads(p, "", [t]) by { assert [t][1..] == []; assert Rest(p) == ""; }
        assert Concat([t]) == t;
      }
    } else if p == "*" {
      if pieces :| Reads(p, "", pieces) && Concat(pieces) == "/" {
        assert Rest(p) == "";
        NothingLeft(pieces[1..]);
        assert Concat(pieces) == pieces[0];
      }
      assert !Denotes(p, "/");
    } else if EndsInStar(p) {
      var t := StarPatternsDiffer(p);
      assert PatternMatches(p, t) != Denotes(p, t);
    } else {
      forall t ensures PatternMatches(p, t) <==> Denotes(p, t) {
        PlainPatternsAgree(p, t);
      }
    }
  }

  /** Not ending in the character * is not enough: slashes behind a final ** belong to it. */
  lemma SlashBehindStarsCounterexample()
    ensures Denotes("**/", "") && !PatternMatches("**/", "")
  {
    assert Rest("**/") == "";
    assert Reads("**/", "", [""]) by { assert [""][1..] == []; }
    assert Concat([""]) == "";
  }
}
