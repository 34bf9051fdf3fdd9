/** The one-hunk line diff the edit tool reports. */
module Diff {
  import opened Wrappers
  import opened Strings
  import opened Decimal

  /** Exchange the removed lines behind the first at lines for the added ones. */
  datatype Hunk = Hunk(at: nat, removed: seq<string>, added: seq<string>)

  function Patched(before: seq<string>, h: Hunk): seq<string>
    requires h.at + |h.removed| <= |before|
  {
    before[..h.at] + h.added + before[h.at + |h.removed|..]
  }

  ghost predicate Turns(h: Hunk, before: seq<string>, after: seq<string>) {
    h.at + |h.removed| <= |before| &&
    before[h.at..h.at + |h.removed|] == h.removed &&
    after == Patched(before, h)
  }

  /** The j-th line from the end. */
  function Back(lines: seq<string>, j: nat): string
    requires j < |lines|
  {
    lines[|lines| - 1 - j]
  }

  ghost predicate SameFront(before: seq<string>, after: seq<string>, p: nat) {
    p <= |before| && p <= |after| && forall i :: 0 <= i < p ==> before[i] == after[i]
  }

  ghost predicate SameBack(before: seq<string>, after: seq<string>, s: nat) {
    s <= |before| && s <= |after| && forall j: nat :: j < s ==> Back(before, j) == Back(after, j)
  }

  /** p lines at the front and then s lines at the back agree, each as many as possible without overlap. */
  ghost predicate Trimmed(before: seq<string>, after: seq<string>, p: nat, s: nat) {
    p + s <= |before| && p + s <= |after| &&
    SameFront(before, after, p) && SameBack(before, after, s) &&
    (p == |before| || p == |after| || before[p] != after[p]) &&
    (p + s == |before| || p + s == |after| || Back(before, s) != Back(after, s))
  }

  /** The front goes first, so there is only one way to trim. */
  lemma TrimmedIsUnique(before: seq<string>, after: seq<string>, p: nat, s: nat, q: nat, r: nat)
    requires Trimmed(before, after, p, s) && Trimmed(before, after, q, r)
    ensures p == q && s == r
  {}

  function HunkOf(before: seq<string>, after: seq<string>, p: nat, s: nat): Hunk
    requires p + s <= |before| && p + s <= |after|
  {
    Hunk(p, before[p..|before| - s], after[p..|after| - s])
  }

  lemma SameBackSlices(before: seq<string>, after: seq<string>, s: nat)
    requires SameBack(before, after, s)
    ensures before[|before| - s..] == after[|after| - s..]
  {
    var a, b := before[|before| - s..], after[|after| - s..];
    forall i | 0 <= i < s ensures a[i] == b[i] {
      assert Back(before, s - 1 - i) == Back(after, s - 1 - i);
    }
  }

  lemma SameFrontSlices(before: seq<string>, after: seq<string>, p: nat)
    requires SameFront(before, after, p)
    ensures before[..p] == after[..p]
  {}

  lemma PatchedIs(before: seq<string>, h: Hunk, back: seq<string>)
    requires h.at + |h.removed| <= |before| && back == before[h.at + |h.removed|..]
    ensures Patched(before, h) == before[..h.at] + h.added + back
  {}

  /** The trimmed hunk turns the old lines into the new ones. */
  lemma HunkTurns(before: seq<string>, after: seq<string>, p: nat, s: nat)
    requires Trimmed(before, after, p, s)
    ensures Turns(HunkOf(before, after, p, s), before, after)
  {
    var k, m := |before| - s, |after| - s;
    SameBackSlices(before, after, s);
    SameFrontSlices(before, after, p);
    PatchedIs(before, HunkOf(before, after, p, s), before[k..]);
    Reassemble(after, p, m);
    assert after[..m] + after[m..] == after;
  }

  /** A hunk keeps the lines in front of it and behind it. */
  lemma HunkKeepsEnds(h: Hunk, before: seq<string>, after: seq<string>)
    requires Turns(h, before, after)
    ensures |after| == |before| - |h.removed| + |h.added|
    ensures SameFront(before, after, h.at)
    ensures SameBack(before, after, |before| - h.at - |h.removed|)
  {
    var k := h.at + |h.removed|;
    forall j: nat | j < |before| - k ensures Back(before, j) == Back(after, j) {
      assert before[k..][|before| - k - 1 - j] == Back(before, j);
    }
  }

  /** No other single hunk removes or adds fewer lines. */
  lemma HunkIsMinimal(before: seq<string>, after: seq<string>, p: nat, s: nat, h: Hunk)
    requires Trimmed(before, after, p, s) && Turns(h, before, after)
    ensures |h.removed| >= |before| - s - p && |h.added| >= |after| - s - p
  {
    HunkKeepsEnds(h, before, after);
    var q, r := h.at, |before| - h.at - |h.removed|;
    assert q <= p;
    assert q + r <= p + s;
  }

  // ---------- the report ----------

  function Comma(count: nat): string {
    if count != 1 then "," + ToString(count) else ""
  }

  function HunkHeader(h: Hunk): string {
    "@@ -" + ToString(h.at + 1) + Comma(|h.removed|) + " +" + ToString(h.at + 1) + Comma(|h.added|) + " @@"
  }

  function Signed(sign: char, lines: seq<string>): seq<string> {
    if lines == [] then [] else [[sign] + lines[0]] + Signed(sign, lines[1..])
  }

  function DiffLines(path: string, h: Hunk): seq<string> {
    ["--- " + path, "+++ " + path, HunkHeader(h)] + Signed('-', h.removed) + Signed('+', h.added)
  }

  /** Every line with its line feed. */
  function Unlines(lines: seq<string>): string {
    if lines == [] then "" else lines[0] + "\n" + Unlines(lines[1..])
  }

  lemma {:induction false} UnlinesConcat(a: seq<string>, b: seq<string>)
    ensures Unlines(a + b) == Unlines(a) + Unlines(b)
    decreases |a|
  {
    if a == [] {
      assert a + b == b;
    } else {
      UnlinesConcat(a[1..], b);
      assert (a + b)[1..] == a[1..] + b;
      Regroup(a[0] + "\n", Unlines(a[1..]), Unlines(b));
    }
  }

  lemma {:induction false} SignedSnoc(sign: char, lines: seq<string>, l: string)
    ensures Signed(sign, lines + [l]) == Signed(sign, lines) + [[sign] + l]
    decreases |lines|
  {
    if lines == [] {
      assert [l][1..] == [];
    } else {
      SignedSnoc(sign, lines[1..], l);
      assert (lines + [l])[1..] == lines[1..] + [l];
    }
  }

  // ---------- what the report is good for ----------

  /** Applying the reported hunk to the old text's lines gives the new text. */
  lemma DiffReproducesNewContent(oldContent: string, newContent: string, p: nat, s: nat)
    requires Trimmed(Split(oldContent, "\n"), Split(newContent, "\n"), p, s)
    ensures var before, after := Split(oldContent, "\n"), Split(newContent, "\n");
            Join(Patched(before, HunkOf(before, after, p, s)), "\n") == newContent
  {
    var before, after := Split(oldContent, "\n"), Split(newContent, "\n");
    HunkTurns(before, after, p, s);
    assert Patched(before, HunkOf(before, after, p, s)) == after;
    JoinSplit(newContent, "\n");
  }

  lemma FreeOfCharacter(s: string, c: char)
    ensures Free(s, [c]) <==> c !in s
  {
    FindFirst(s, [c], 0);
    forall i | 0 <= i < |s| ensures OccursAt(s, [c], i) <==> s[i] == c {
      assert s[i..i + 1] == [s[i]];
    }
  }

  ghost predicate OneLiners(lines: seq<string>) {
    forall k :: 0 <= k < |lines| ==> '\n' !in lines[k]
  }

  lemma {:induction false} UnlinesIsJoin(lines: seq<string>)
    ensures Unlines(lines) == Join(lines + [""], "\n")
    decreases |lines|
  {
    if lines != [] {
      UnlinesIsJoin(lines[1..]);
      assert lines + [""] == [lines[0]] + (lines[1..] + [""]);
      JoinCons(lines[0], lines[1..] + [""], "\n");
    }
  }

  lemma {:induction false} SignedOneLiners(sign: char, lines: seq<string>)
    requires sign != '\n' && OneLiners(lines)
    ensures OneLiners(Signed(sign, lines))
    decreases |lines|
  {
    if lines != [] {
      SignedOneLiners(sign, lines[1..]);
    }
  }

  lemma HeaderIsOneLine(h: Hunk)
    ensures '\n' !in HunkHeader(h)
  {
    assert '\n' !in ToString(h.at + 1) && '\n' !in Comma(|h.removed|) && '\n' !in Comma(|h.added|);
  }

  /** The report splits back into its lines: nothing in the texts can fake one. */
  lemma ReportSplitsBack(path: string, h: Hunk)
    requires '\n' !in path && OneLiners(h.removed) && OneLiners(h.added)
    ensures Split(Unlines(DiffLines(path, h)), "\n") == DiffLines(path, h) + [""]
  {
    SignedOneLiners('-', h.removed);
    SignedOneLiners('+', h.added);
    HeaderIsOneLine(h);
    var lines := DiffLines(path, h);
    assert OneLiners(lines);
    UnlinesIsJoin(lines);
    var all := lines + [""];
    forall k | 0 <= k < |all| ensures Free(all[k], "\n") { FreeOfCharacter(all[k], '\n'); }
    SingleCharacterIsUnbordered('\n');
    SplitJoin(all, "\n");
  }

  /** The lines of any text are one-liners, so every report of GenerateDiff splits back. */
  lemma SplitLinesAreOneLiners(content: string)
    ensures OneLiners(Split(content, "\n"))
  {
    JoinSplit(content, "\n");
    var lines := Split(content, "\n");
    forall k | 0 <= k < |lines| ensures '\n' !in lines[k] { FreeOfCharacter(lines[k], '\n'); }
  }

  // ---------- reading a report ----------

  datatype Range = Range(start: nat, count: nat)

  datatype Report = Report(
    oldName: string, newName: string, oldStart: nat, newStart: nat, removed: seq<string>, added: seq<string>)

  predicate IsNumber(s: string) {
    s != "" && forall k :: 0 <= k < |s| ==> Digit(s[k])
  }

  /** The first line's number and, only if it is not one, the number of lines. */
  function RangeOf(parts: seq<string>): Option<Range>
    requires parts != []
  {
    if !IsNumber(parts[0]) then None
    else if |parts| == 1 then Some(Range(Value(parts[0]), 1))
    else if |parts| == 2 && IsNumber(parts[1]) && Value(parts[1]) != 1 then
      Some(Range(Value(parts[0]), Value(parts[1])))
    else None
  }

  function ReadRange(sign: char, field: string): Option<Range> {
    if field == "" || field[0] != sign then None else RangeOf(Split(field[1..], ","))
  }

  datatype Header = Header(minus: Range, plus: Range)

  function ReadFields(fields: seq<string>): Option<Header> {
    if |fields| != 4 || fields[0] != "@@" || fields[3] != "@@" then None
    else
      var a, b := ReadRange('-', fields[1]), ReadRange('+', fields[2]);
      if a.Some? && b.Some? then Some(Header(a.value, b.value)) else None
  }

  /** The line behind the mark it must begin with. */
  function ReadMarked(mark: string, line: string): Option<string> {
    if mark <= line then Some(line[|mark|..]) else None
  }

  function ReadAllMarked(mark: string, lines: seq<string>): Option<seq<string>> {
    if lines == [] then Some([])
    else
      var first, rest := ReadMarked(mark, lines[0]), ReadAllMarked(mark, lines[1..]);
      if first.Some? && rest.Some? then Some([first.value] + rest.value) else None
  }

  /** As many lines marked '-' and then '+' as the header says, and nothing behind them. */
  function ReadBody(oldName: string, newName: string, h: Header, body: seq<string>): Option<Report> {
    var a, b := h.minus.count, h.plus.count;
    if |body| != a + b + 1 || body[|body| - 1] != "" then None
    else
      var removed, added := ReadAllMarked("-", body[..a]), ReadAllMarked("+", body[a..a + b]);
      if removed.None? || added.None? then None
      else Some(Report(oldName, newName, h.minus.start, h.plus.start, removed.value, added.value))
  }

  function ReadLines(a: string, b: string, c: string, body: seq<string>): Option<Report> {
    var oldName, newName, header := ReadMarked("--- ", a), ReadMarked("+++ ", b), ReadFields(Split(c, " "));
    if oldName.None? || newName.None? || header.None? then None
    else ReadBody(oldName.value, newName.value, header.value, body)
  }

  /** Reads a report of one hunk from its text alone. */
  function ReadReport(text: string): Option<Report> {
    var lines := Split(text, "\n");
    if |lines| < 3 then None else ReadLines(lines[0], lines[1], lines[2], lines[3..])
  }

  lemma SplitOne(a: string)
    requires ',' !in a
    ensures Split(a, ",") == [a]
  {
    FreeOfCharacter(a, ',');
  }

  lemma SplitTwo(a: string, b: string)
    requires ',' !in a && ',' !in b
    ensures Split(a + "," + b, ",") == [a, b]
  {
    FreeOfCharacter(a, ',');
    SingleCharacterIsUnbordered(',');
    SplitCons(a, ",", b);
    SplitOne(b);
  }

  lemma RangeFields(n: string, c: string)
    requires IsNumber(n) && IsNumber(c)
    ensures Split(n, ",") == [n] && Split(n + ("," + c), ",") == [n, c]
  {
    SplitOne(n);
    SplitTwo(n, c);
    assert n + ("," + c) == n + "," + c;
  }

  lemma RangeReadsBack(sign: char, start: nat, count: nat)
    ensures ReadRange(sign, [sign] + (ToString(start) + Comma(count))) == Some(Range(start, count))
  {
    var field := ToString(start) + Comma(count);
    assert ([sign] + field)[1..] == field;
    RangeFields(ToString(start), ToString(count));
    assert count == 1 ==> field == ToString(start);
    ValueOfToString(start);
    ValueOfToString(count);
  }

  /** The header's four fields. */
  lemma HeaderFields(h: Hunk, a: string, b: string)
    requires a == ['-'] + (ToString(h.at + 1) + Comma(|h.removed|))
    requires b == ['+'] + (ToString(h.at + 1) + Comma(|h.added|))
    ensures Split(HunkHeader(h), " ") == ["@@", a, b, "@@"]
  {
    HeaderIsJoin(ToString(h.at + 1), Comma(|h.removed|), Comma(|h.added|));
    assert ' ' !in a && ' ' !in b;
    SplitFour("@@", a, b, "@@");
  }

  lemma HeaderIsJoin(n: string, x: string, y: string)
    ensures "@@ -" + n + x + " +" + n + y + " @@" == Join(["@@", ['-'] + (n + x), ['+'] + (n + y), "@@"], " ")
  {
    Regroup("@@ -", n, x);
    Regroup("@@ -" + n + x + " +", n, y);
    JoinFour("@@", ['-'] + (n + x), ['+'] + (n + y), "@@", " ");
    HeaderPieces(n + x, n + y);
  }

  lemma HeaderPieces(a: string, b: string)
    ensures "@@ -" + a + " +" + b + " @@" == "@@" + " " + (['-'] + a + " " + (['+'] + b + " " + "@@"))
  {
    assert "@@" + " " + ['-'] == "@@ -" && " " + ['+'] == " +" && " " + "@@" == " @@";
    Regroup(['+'], b, " @@");
    Regroup(['-'], a, " " + (['+'] + b + " @@"));
  }

  lemma SplitFour(a: string, b: string, c: string, d: string)
    requires ' ' !in a && ' ' !in b && ' ' !in c && ' ' !in d
    ensures Split(Join([a, b, c, d], " "), " ") == [a, b, c, d]
  {
    var fields := [a, b, c, d];
    forall k | 0 <= k < |fields| ensures Free(fields[k], " ") { FreeOfCharacter(fields[k], ' '); }
    SingleCharacterIsUnbordered(' ');
    SplitJoin(fields, " ");
  }

  lemma JoinFour(a: string, b: string, c: string, e: string, d: string)
    ensures Join([a, b, c, e], d) == a + d + (b + d + (c + d + e))
  {
    assert [a, b, c, e] == [a] + ([b] + ([c] + [e]));
    JoinCons(c, [e], d);
    JoinCons(b, [c] + [e], d);
    JoinCons(a, [b] + ([c] + [e]), d);
  }

  lemma {:induction false} MarkedReadBack(sign: char, lines: seq<string>)
    ensures |Signed(sign, lines)| == |lines| && ReadAllMarked([sign], Signed(sign, lines)) == Some(lines)
    decreases |lines|
  {
    if lines != [] {
      MarkedReadBack(sign, lines[1..]);
      var first := [sign] + lines[0];
      assert [sign] <= first && first[1..] == lines[0];
      assert Signed(sign, lines)[1..] == Signed(sign, lines[1..]);
      assert lines == [lines[0]] + lines[1..];
    }
  }

  lemma BodyReadsBack(path: string, h: Hunk, a: Range, b: Range)
    requires a.count == |h.removed| && b.count == |h.added|
    ensures ReadBody(path, path, Header(a, b), Signed('-', h.removed) + Signed('+', h.added) + [""]) ==
            Some(Report(path, path, a.start, b.start, h.removed, h.added))
  {
    MarkedReadBack('-', h.removed);
    MarkedReadBack('+', h.added);
    var minus, plus := Signed('-', h.removed), Signed('+', h.added);
    var body := minus + plus + [""];
    assert body[..a.count] == minus && body[a.count..a.count + b.count] == plus;
  }

  lemma NamesReadBack(path: string)
    ensures ReadMarked("--- ", "--- " + path) == Some(path) && ReadMarked("+++ ", "+++ " + path) == Some(path)
  {
    assert ("--- " + path)[..4] == "--- " && ("+++ " + path)[..4] == "+++ ";
    assert ("--- " + path)[4..] == path && ("+++ " + path)[4..] == path;
  }

  lemma HeaderReadsBack(h: Hunk)
    ensures ReadFields(Split(HunkHeader(h), " ")) ==
            Some(Header(Range(h.at + 1, |h.removed|), Range(h.at + 1, |h.added|)))
  {
    var a, b := ToString(h.at + 1) + Comma(|h.removed|), ToString(h.at + 1) + Comma(|h.added|);
    HeaderFields(h, ['-'] + a, ['+'] + b);
    RangeReadsBack('-', h.at + 1, |h.removed|);
    RangeReadsBack('+', h.at + 1, |h.added|);
  }

  /** What reading a printed hunk gives. */
  function ReportOf(path: string, h: Hunk): Report {
    Report(path, path, h.at + 1, h.at + 1, h.removed, h.added)
  }

  lemma LinesReadBack(path: string, h: Hunk)
    ensures ReadLines("--- " + path, "+++ " + path, HunkHeader(h),
                      Signed('-', h.removed) + Signed('+', h.added) + [""]) == Some(ReportOf(path, h))
  {
    HeaderReadsBack(h);
    NamesReadBack(path);
    BodyReadsBack(path, h, Range(h.at + 1, |h.removed|), Range(h.at + 1, |h.added|));
  }

  lemma ThreeLines(a: string, b: string, c: string, d: seq<string>, e: seq<string>, f: seq<string>)
    ensures [a, b, c] + d + e + f == [a, b, c] + (d + e + f)
    ensures ([a, b, c] + (d + e + f))[3..] == d + e + f
  {}

  lemma ReportReadsBack(path: string, h: Hunk)
    requires '\n' !in path && OneLiners(h.removed) && OneLiners(h.added)
    ensures ReadReport(Unlines(DiffLines(path, h))) == Some(ReportOf(path, h))
  {
    ReportSplitsBack(path, h);
    ThreeLines("--- " + path, "+++ " + path, HunkHeader(h), Signed('-', h.removed), Signed('+', h.added), [""]);
    LinesReadBack(path, h);
  }

  /** A name that is read is a piece of one line. */
  lemma NamesAreOneLiners(text: string)
    requires ReadReport(text).Some?
    ensures '\n' !in ReadReport(text).value.oldName
  {
    SplitLinesAreOneLiners(text);
    var lines := Split(text, "\n");
    assert '\n' !in lines[0];
  }

  /** Reading a printed hunk gives back the path, the line numbers and the lines, unless the path has a line feed. */
  lemma ReportReadsBackIff(path: string, h: Hunk)
    requires OneLiners(h.removed) && OneLiners(h.added)
    ensures (ReadReport(Unlines(DiffLines(path, h))) == Some(ReportOf(path, h))) <==> '\n' !in path
  {
    if '\n' !in path {
      ReportReadsBack(path, h);
    } else if ReadReport(Unlines(DiffLines(path, h))).Some? {
      NamesAreOneLiners(Unlines(DiffLines(path, h)));
    }
  }

  /** The lines with count of them from line number start on exchanged for others. */
  function Exchanged(lines: seq<string>, start: nat, count: nat, others: seq<string>): seq<string>
    requires 0 < start && start - 1 + count <= |lines|
  {
    lines[..start - 1] + others + lines[start - 1 + count..]
  }

  /** Following the report forwards and backwards. */
  ghost predicate Explains(r: Report, before: seq<string>, after: seq<string>) {
    0 < r.oldStart && r.oldStart - 1 + |r.removed| <= |before| &&
    0 < r.newStart && r.newStart - 1 + |r.added| <= |after| &&
    Exchanged(before, r.oldStart, |r.removed|, r.added) == after &&
    Exchanged(after, r.newStart, |r.added|, r.removed) == before
  }

  lemma HunkExplains(before: seq<string>, after: seq<string>, p: nat, s: nat, path: string)
    requires Trimmed(before, after, p, s)
    ensures Explains(ReportOf(path, HunkOf(before, after, p, s)), before, after)
  {
    HunkTurns(before, after, p, s);
    assert Trimmed(after, before, p, s);
    HunkTurns(after, before, p, s);
  }

  /** The text reads as a report on the path whose hunk turns the lines of one text into those of the other. */
  ghost predicate ReadsAs(text: string, path: string, oldContent: string, newContent: string) {
    var read := ReadReport(text);
    read.Some? && read.value.oldName == path == read.value.newName &&
    Explains(read.value, Split(oldContent, "\n"), Split(newContent, "\n"))
  }

  lemma HunkOneLiners(before: seq<string>, after: seq<string>, p: nat, s: nat)
    requires p + s <= |before| && p + s <= |after| && OneLiners(before) && OneLiners(after)
    ensures OneLiners(HunkOf(before, after, p, s).removed) && OneLiners(HunkOf(before, after, p, s).added)
  {}

  lemma DiffReadsAs(path: string, oldContent: string, newContent: string, p: nat, s: nat, h: Hunk)
    requires '\n' !in path && Trimmed(Split(oldContent, "\n"), Split(newContent, "\n"), p, s)
    requires h == HunkOf(Split(oldContent, "\n"), Split(newContent, "\n"), p, s)
    ensures ReadsAs(Unlines(DiffLines(path, h)), path, oldContent, newContent)
  {
    SplitLinesAreOneLiners(oldContent);
    SplitLinesAreOneLiners(newContent);
    HunkOneLiners(Split(oldContent, "\n"), Split(newContent, "\n"), p, s);
    ReportReadsBack(path, h);
    HunkExplains(Split(oldContent, "\n"), Split(newContent, "\n"), p, s, path);
  }

  // ---------- generate_diff ----------

  method CommonPrefix(before: seq<string>, after: seq<string>) returns (prefix: nat)
    ensures SameFront(before, after, prefix)
    ensures prefix == |before| || prefix == |after| || before[prefix] != after[prefix]
  {
    prefix := 0;
    while prefix < |before| && prefix < |after| && before[prefix] == after[prefix]
      invariant SameFront(before, after, prefix)
    {
      prefix := prefix + 1;
    }
  }

  method CommonSuffix(before: seq<string>, after: seq<string>, prefix: nat) returns (suffix: nat)
    requires prefix <= |before| && prefix <= |after|
    ensures prefix + suffix <= |before| && prefix + suffix <= |after| && SameBack(before, after, suffix)
    ensures prefix + suffix == |before| || prefix + suffix == |after| || Back(before, suffix) != Back(after, suffix)
  {
    suffix := 0;
    while suffix < |before| - prefix && suffix < |after| - prefix &&
          before[|before| - 1 - suffix] == after[|after| - 1 - suffix]
      invariant prefix + suffix <= |before| && prefix + suffix <= |after|
      invariant SameBack(before, after, suffix)
    {
      suffix := suffix + 1;
    }
  }

  /** One line of output for every line of the range, the sign in front. */
  method PrintLines(sign: char, lines: seq<string>, from: nat, to: nat) returns (out: string)
    requires from <= to <= |lines|
    ensures out == Unlines(Signed(sign, lines[from..to]))
  {
    out := "";
    for i := from to to
      invariant out == Unlines(Signed(sign, lines[from..i]))
    {
      assert lines[from..i + 1] == lines[from..i] + [lines[i]];
      SignedSnoc(sign, lines[from..i], lines[i]);
      UnlinesConcat(Signed(sign, lines[from..i]), [[sign] + lines[i]]);
      out := out + ([sign] + lines[i] + "\n");
    }
  }

  method GenerateDiff(oldContent: string, newContent: string, path: string) returns (text: string)
    ensures var before, after := Split(oldContent, "\n"), Split(newContent, "\n");
            exists p: nat, s: nat ::
              Trimmed(before, after, p, s) && text == Unlines(DiffLines(path, HunkOf(before, after, p, s)))
    ensures '\n' !in path ==> ReadsAs(text, path, oldContent, newContent)
  {
    var oldLines := SplitString(oldContent, "\n");
    var newLines := SplitString(newContent, "\n");
    var prefix := CommonPrefix(oldLines, newLines);
    var suffix := CommonSuffix(oldLines, newLines, prefix);
    text := PrintHunk(path, oldLines, newLines, prefix, suffix);
    assert Trimmed(oldLines, newLines, prefix, suffix);
    if '\n' !in path {
      DiffReadsAs(path, oldContent, newContent, prefix, suffix, HunkOf(oldLines, newLines, prefix, suffix));
    }
  }

  method PrintHunk(path: string, oldLines: seq<string>, newLines: seq<string>, prefix: nat, suffix: nat)
    returns (text: string)
    requires prefix + suffix <= |oldLines| && prefix + suffix <= |newLines|
    ensures text == Unlines(DiffLines(path, HunkOf(oldLines, newLines, prefix, suffix)))
  {
    ghost var h := HunkOf(oldLines, newLines, prefix, suffix);
    var header := PrintHeader(prefix, |oldLines| - prefix - suffix, |newLines| - prefix - suffix);
    var minus := PrintLines('-', oldLines, prefix, |oldLines| - suffix);
    var plus := PrintLines('+', newLines, prefix, |newLines| - suffix);
    text := "--- " + path + "\n" + ("+++ " + path + "\n") + (header + "\n") + minus + plus;
    UnlinesFive("--- " + path, "+++ " + path, HunkHeader(h), Signed('-', h.removed), Signed('+', h.added));
  }

  lemma UnlinesFive(a: string, b: string, c: string, ds: seq<string>, es: seq<string>)
    ensures Unlines([a, b, c] + ds + es) == a + "\n" + (b + "\n") + (c + "\n") + Unlines(ds) + Unlines(es)
  {
    UnlinesThree(a, b, c);
    UnlinesConcat([a, b, c], ds);
    UnlinesConcat([a, b, c] + ds, es);
  }

  method PrintHeader(prefix: nat, oldCount: nat, newCount: nat) returns (out: string)
    ensures forall h: Hunk :: h.at == prefix && |h.removed| == oldCount && |h.added| == newCount ==>
                                out == HunkHeader(h)
  {
    out := "@@ -" + ToString(prefix + 1);
    if oldCount != 1 { out := out + ("," + ToString(oldCount)); }
    out := out + " +" + ToString(prefix + 1);
    if newCount != 1 { out := out + ("," + ToString(newCount)); }
    out := out + " @@";
  }

  lemma UnlinesThree(a: string, b: string, c: string)
    ensures Unlines([a, b, c]) == a + "\n" + (b + "\n") + (c + "\n")
  {
    assert [a, b, c][1..] == [b, c] && [b, c][1..] == [c] && [c][1..] == [];
    assert Unlines([c]) == c + "\n";
    assert Unlines([b, c]) == b + "\n" + (c + "\n");
    Regroup(a + "\n", b + "\n", c + "\n");
  }
}
