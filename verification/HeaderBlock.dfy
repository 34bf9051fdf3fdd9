/**
 Whole header blocks, as the base protocol defines them, and what the
 clients' search makes of them.
 */
module HeaderBlocks {
  import opened Wrappers
  import opened Strings
  import opened Decimal
  import opened Framing

  /** A line of a header: not empty, and without carriage returns. */
  predicate FieldLine(l: string) {
    l != "" && '\r' !in l
  }

  ghost predicate FieldLines(lines: seq<string>) {
    lines != [] && forall i :: 0 <= i < |lines| ==> FieldLine(lines[i])
  }

  /** The lines, each ended by a line break, and an empty line behind them. */
  function Block(lines: seq<string>): string {
    if lines == [] then "\r\n" else lines[0] + "\r\n" + Block(lines[1..])
  }

  /** What the first line that names the content length says behind the name. */
  function Announced(lines: seq<string>): Option<Parsed> {
    if lines == [] then None
    else
      match Find(lines[0], NAME, 0)
      case Some(c) => Some(Stoi(Behind(lines[0], NAME, c)))
      case None => Announced(lines[1..])
  }

  // ---------- one line and what follows ----------

  /** The buffer b is the line l, a line break and the rest, which begins at k. */
  ghost predicate Leads(b: string, l: string, rest: string, k: nat) {
    k == |l| + 2 && k <= |b| && b[..|l|] == l && b[|l|] == '\r' && b[|l| + 1] == '\n' && b[k..] == rest
  }

  lemma LineLeads(l: string, rest: string)
    ensures Leads(l + "\r\n" + rest, l, rest, |l| + 2)
  {
    var b := l + "\r\n" + rest;
    assert b[..|l|] == l && b[|l| + 2..] == rest;
  }

  lemma LineCharacters(b: string, l: string, rest: string, k: nat)
    requires Leads(b, l, rest, k)
    ensures forall i :: 0 <= i < |l| ==> b[i] == l[i]
    ensures forall i :: 0 <= i < |rest| ==> rest[i] == b[k + i]
  {
    forall i | 0 <= i < |l| ensures b[i] == l[i] { assert b[i] == b[..|l|][i]; }
  }

  lemma NoLineEndInside(b: string, w: string, n: nat)
    requires w != "" && w[0] == '\r' && n <= |b| && forall i :: 0 <= i < n ==> b[i] != '\r'
    ensures forall i :: 0 <= i < n ==> !OccursAt(b, w, i)
  {
    forall i | 0 <= i < n ensures !OccursAt(b, w, i) { Mismatch(b, w, i, 0); }
  }

  /** The line break behind a line is the first one from anywhere inside. */
  lemma FindLineEnd(b: string, l: string, rest: string, k: nat, c: nat)
    requires Leads(b, l, rest, k) && '\r' !in l && c <= |l|
    ensures Find(b, "\r\n", c) == Some(|l|)
  {
    LineCharacters(b, l, rest, k);
    NoLineEndInside(b, "\r\n", |l|);
    assert b[|l|..|l| + 2] == "\r\n";
    FindIs(b, "\r\n", c, |l|);
  }

  lemma NoBreakInFront(b: string, n: nat)
    requires n + 2 < |b| && (forall i :: 0 <= i < n ==> b[i] != '\r') && b[n + 1] == '\n' && b[n + 2] != '\r'
    ensures forall i :: 0 <= i < n + 2 ==> !OccursAt(b, BREAK, i)
  {
    NoLineEndInside(b, BREAK, n);
    Mismatch(b, BREAK, n, 2);
    Mismatch(b, BREAK, n + 1, 0);
  }

  /** The empty line is not found in front of a rest that does not begin with one. */
  lemma FindBreakBehind(b: string, l: string, rest: string, k: nat)
    requires Leads(b, l, rest, k) && '\r' !in l && rest != "" && rest[0] != '\r'
    ensures Find(b, BREAK, 0) == MovedBy(Find(rest, BREAK, 0), k)
  {
    LineCharacters(b, l, rest, k);
    NoBreakInFront(b, |l|);
    FindSkips(b, rest, BREAK, k);
  }

  lemma FindBreakHere(b: string, l: string, rest: string, k: nat)
    requires Leads(b, l, rest, k) && '\r' !in l && |rest| >= 2 && rest[0] == '\r' && rest[1] == '\n'
    ensures Find(b, BREAK, 0) == Some(|l|)
  {
    LineCharacters(b, l, rest, k);
    NoLineEndInside(b, BREAK, |l|);
    assert b[|l|..|l| + 4] == BREAK;
    FindIs(b, BREAK, 0, |l|);
  }

  lemma NameSpansNoLineEnd(b: string, l: string, rest: string, k: nat, i: nat)
    requires Leads(b, l, rest, k) && i < k && i + |NAME| > |l|
    ensures !OccursAt(b, NAME, i)
  {
    assert '\r' !in NAME && '\n' !in NAME;
    Mismatch(b, NAME, i, (if i <= |l| then |l| else |l| + 1) - i);
  }

  lemma NameInLine(b: string, l: string, rest: string, k: nat, i: nat)
    requires Leads(b, l, rest, k) && i + |NAME| <= |l|
    ensures OccursAt(b, NAME, i) <==> OccursAt(l, NAME, i)
  {
    assert b[..|l|][i..i + |NAME|] == b[i..i + |NAME|];
  }

  lemma NoNameInFront(b: string, l: string, rest: string, k: nat)
    requires Leads(b, l, rest, k) && Find(l, NAME, 0).None?
    ensures forall i :: 0 <= i < k ==> !OccursAt(b, NAME, i)
  {
    FindFirst(l, NAME, 0);
    forall i | 0 <= i < k ensures !OccursAt(b, NAME, i) {
      if i + |NAME| <= |l| { NameInLine(b, l, rest, k, i); } else { NameSpansNoLineEnd(b, l, rest, k, i); }
    }
  }

  /** The name is found in a line or behind it, never across its end. */
  lemma FindNameBehind(b: string, l: string, rest: string, k: nat)
    requires Leads(b, l, rest, k) && Find(l, NAME, 0).None?
    ensures Find(b, NAME, 0) == MovedBy(Find(rest, NAME, 0), k)
  {
    NoNameInFront(b, l, rest, k);
    FindSkips(b, rest, NAME, k);
  }

  lemma FindNameHere(b: string, l: string, rest: string, k: nat, c: nat)
    requires Leads(b, l, rest, k) && Find(l, NAME, 0) == Some(c)
    ensures Find(b, NAME, 0) == Some(c)
  {
    assert l + b[|l|..] == b;
    FindStable(l, b[|l|..], NAME, 0);
  }

  // ---------- the scan of a line and what follows ----------

  function Moved(scan: Scan, k: nat): Scan {
    match scan
    case Length(start, n) => Length(k + start, n)
    case _ => scan
  }

  lemma SameValueText(b: string, rest: string, k: nat, c: nat, e: nat, c': nat, e': nat)
    requires k <= |b| && rest == b[k..] && c + |NAME| <= e <= |rest| && c' == k + c && e' == k + e
    ensures ValueText(rest, c, e) == ValueText(b, c', e')
  {}

  lemma ScanIs(b: string, h: nat, c: nat, e: nat)
    requires Find(b, BREAK, 0) == Some(h) && Find(b, NAME, 0) == Some(c) && c < h && Find(b, "\r\n", c) == Some(e)
    requires c + |NAME| <= e <= |b|
    ensures ScanHeader(b) == ReadHeader(b, h, c, e)
  {}

  lemma LineEndMoves(b: string, rest: string, k: nat, c: nat, h: nat, c': nat) returns (e: nat, e': nat)
    requires k <= |b| && c' == k + c && rest == b[k..]
    requires Find(rest, BREAK, 0) == Some(h) && Find(rest, NAME, 0) == Some(c) && c < h
    ensures Find(rest, "\r\n", c) == Some(e) && c + |NAME| <= e <= |rest|
    ensures c' <= |b| && e' == k + e && Find(b, "\r\n", c') == Some(e')
  {
    HeaderEndsLine(rest, c, h);
    e := Find(rest, "\r\n", c).value;
    NameFits(rest, c, e);
    FindMoved(b, rest, "\r\n", k, c, c');
    e' := k + e;
  }

  lemma ScanMoves(b: string, rest: string, k: nat, h: nat, c: nat, h': nat, c': nat)
    requires k <= |b| && rest == b[k..] && c < h && h' == k + h && c' == k + c
    requires Find(rest, BREAK, 0) == Some(h) && Find(b, BREAK, 0) == Some(h')
    requires Find(rest, NAME, 0) == Some(c) && Find(b, NAME, 0) == Some(c')
    ensures ScanHeader(b) == Moved(ScanHeader(rest), k)
  {
    var e, e' := LineEndMoves(b, rest, k, c, h, c');
    SameValueText(b, rest, k, c, e, c', e');
    ScanIs(b, h', c', e');
    ScanIs(rest, h, c, e);
  }

  lemma NoScan(b: string)
    requires Find(b, BREAK, 0).None? || Find(b, NAME, 0).None? || Find(b, NAME, 0).value >= Find(b, BREAK, 0).value
    ensures ScanHeader(b) == NoHeader
  {}

  lemma ScanMovesAll(b: string, rest: string, k: nat, h: Option<nat>, c: Option<nat>, h': Option<nat>, c': Option<nat>)
    requires k <= |b| && rest == b[k..] && h' == MovedBy(h, k) && c' == MovedBy(c, k)
    requires Find(rest, BREAK, 0) == h && Find(b, BREAK, 0) == h' && Find(rest, NAME, 0) == c && Find(b, NAME, 0) == c'
    ensures ScanHeader(b) == Moved(ScanHeader(rest), k)
  {
    if h.Some? && c.Some? && c.value < h.value {
      ScanMoves(b, rest, k, h.value, c.value, h'.value, c'.value);
    } else {
      NoScan(b);
      NoScan(rest);
    }
  }

  /** A line without the name changes only where the content starts. */
  lemma ScanSkipsLine(b: string, l: string, rest: string, k: nat)
    requires Leads(b, l, rest, k) && FieldLine(l) && Find(l, NAME, 0).None? && rest != "" && rest[0] != '\r'
    ensures ScanHeader(b) == Moved(ScanHeader(rest), k)
  {
    FindBreakBehind(b, l, rest, k);
    FindNameBehind(b, l, rest, k);
    ScanMovesAll(b, rest, k, Find(rest, BREAK, 0), Find(rest, NAME, 0), Find(b, BREAK, 0), Find(b, NAME, 0));
  }

  /** The first line with the name decides. */
  lemma ScanReadsLine(b: string, l: string, rest: string, k: nat, c: nat, h: nat)
    requires Leads(b, l, rest, k) && FieldLine(l) && Find(l, NAME, 0) == Some(c)
    requires Find(b, BREAK, 0) == Some(h) && h >= |l|
    ensures ScanHeader(b) == Told(Stoi(Behind(l, NAME, c)), h + 4)
  {
    FindNameHere(b, l, rest, k, c);
    FindLineEnd(b, l, rest, k, c);
    ScanIs(b, h, c, |l|);
    assert b[..|l|][c + |NAME|..] == b[c + |NAME|..|l|];
  }

  // ---------- the scan of a block ----------

  lemma BlockLeads(lines: seq<string>, x: string)
    requires lines != []
    ensures Leads(Block(lines) + x, lines[0], Block(lines[1..]) + x, |lines[0]| + 2)
  {
    LineLeads(lines[0], Block(lines[1..]) + x);
    Regroup(lines[0] + "\r\n", Block(lines[1..]), x);
  }

  lemma BlockBegins(lines: seq<string>, x: string)
    requires FieldLines(lines)
    ensures Block(lines) + x != "" && (Block(lines) + x)[0] != '\r'
  {
    BlockLeads(lines, x);
    LineCharacters(Block(lines) + x, lines[0], Block(lines[1..]) + x, |lines[0]| + 2);
  }

  lemma EmptyBlockBegins(x: string)
    ensures var b := Block([]) + x; |b| >= 2 && b[0] == '\r' && b[1] == '\n'
  {}

  lemma {:induction false} BlockLength(lines: seq<string>)
    requires FieldLines(lines)
    ensures |Block(lines)| == |lines[0]| + 2 + |Block(lines[1..])| && |Block(lines)| >= 4
  {
    if |lines| > 1 { BlockLength(lines[1..]); }
  }

  /** The empty line that ends the block is the first one. */
  lemma {:induction false} BlockEnd(lines: seq<string>, x: string, h: nat)
    requires FieldLines(lines) && h + 4 == |Block(lines)|
    ensures Find(Block(lines) + x, BREAK, 0) == Some(h)
    decreases |lines|
  {
    var l, rest := lines[0], lines[1..];
    var b, k := Block(lines) + x, |l| + 2;
    BlockLength(lines);
    BlockLeads(lines, x);
    if rest == [] {
      EmptyBlockBegins(x);
      FindBreakHere(b, l, Block(rest) + x, k);
    } else {
      BlockLength(rest);
      BlockEnd(rest, x, h - k);
      BlockBegins(rest, x);
      FindBreakBehind(b, l, Block(rest) + x, k);
    }
  }

  lemma NameInFirstLine(lines: seq<string>, x: string, c: nat)
    requires FieldLines(lines) && Find(lines[0], NAME, 0) == Some(c)
    ensures ScanHeader(Block(lines) + x) == Told(Stoi(Behind(lines[0], NAME, c)), |Block(lines)|)
  {
    BlockLength(lines);
    BlockLeads(lines, x);
    BlockEnd(lines, x, |Block(lines)| - 4);
    ScanReadsLine(Block(lines) + x, lines[0], Block(lines[1..]) + x, |lines[0]| + 2, c, |Block(lines)| - 4);
  }

  lemma LastLineWithoutName(lines: seq<string>, x: string)
    requires FieldLines(lines) && |lines| == 1 && Find(lines[0], NAME, 0).None?
    ensures ScanHeader(Block(lines) + x) == NoHeader
  {
    var b, l, k := Block(lines) + x, lines[0], |lines[0]| + 2;
    BlockLeads(lines, x);
    EmptyBlockBegins(x);
    FindBreakHere(b, l, Block([]) + x, k);
    FindNameBehind(b, l, Block([]) + x, k);
    NoScan(b);
  }

  /**
   What the search finds in any header block, whatever follows it: the number behind the first
   mention of the name, with the content behind the empty line; nothing if no line has the name.
   */
  lemma {:induction false} ScanBlock(lines: seq<string>, x: string)
    requires FieldLines(lines)
    ensures ScanHeader(Block(lines) + x) ==
            match Announced(lines) case None => NoHeader case Some(value) => Told(value, |Block(lines)|)
    decreases |lines|
  {
    var l, rest := lines[0], lines[1..];
    if Find(l, NAME, 0).Some? {
      NameInFirstLine(lines, x, Find(l, NAME, 0).value);
    } else if rest == [] {
      LastLineWithoutName(lines, x);
    } else {
      ScanBlock(rest, x);
      BlockBegins(rest, x);
      BlockLeads(lines, x);
      BlockLength(lines);
      ScanSkipsLine(Block(lines) + x, l, Block(rest) + x, |l| + 2);
    }
  }

  // ---------- what is taken behind a block ----------

  /** One attempt on a header that says n, with y behind it. */
  function Take(tr: Transport, header: string, n: int, y: string): Step {
    if n >= 0 then
      if (if tr == Lsp then |y| else AsInt(|y|)) >= n && n <= |y| then Deliver(y[..n], y[n..]) else Wait
    else if tr == Mcp && AsInt(|y|) < n then Wait
    else if |header| + n >= 0 then Deliver(y, header[|header| + n..] + y)
    else if tr == Lsp then Wait
    else Throw(SubstrOutOfRange)
  }

  lemma CutBehind(header: string, y: string, n: nat, b: string, end: nat)
    requires b == header + y && end == |header| + n && n <= |y|
    ensures b[|header|..end] == y[..n] && b[end..] == y[n..]
  {}

  lemma TakeForwards(tr: Transport, header: string, n: nat, y: string, b: string, end: nat)
    requires b == header + y && ScanHeader(b) == Length(|header|, n) && end == |header| + n
    ensures Attempt(tr, b) == Take(tr, header, n, y)
  {
    CastNeverGrows(|y|);
    if n <= |y| {
      CutBehind(header, y, n, b, end);
    }
    LspDelivers(b, |header|, n, end);
    if tr == Mcp {
      McpFollows(b, |header|, n, Attempt(Lsp, b));
    }
  }

  lemma TakeBackwards(tr: Transport, header: string, n: int, y: string, b: string, end: int)
    requires b == header + y && ScanHeader(b) == Length(|header|, n) && n < 0 && end == |header| + n
    ensures Attempt(tr, b) == Take(tr, header, n, y)
  {
    assert b[|header|..] == y;
    if end >= 0 {
      assert b[end..] == header[end..] + y;
    }
  }

  /** The two clients on any header block, with anything behind it. */
  lemma BlockTaken(tr: Transport, lines: seq<string>, y: string)
    requires FieldLines(lines)
    ensures Attempt(tr, Block(lines) + y) ==
            match Announced(lines)
            case None => Wait
            case Some(InvalidArgument) => Throw(BadLength)
            case Some(OutOfRange) => Throw(LengthOutOfRange)
            case Some(Number(n)) => Take(tr, Block(lines), n, y)
  {
    ScanBlock(lines, y);
    match Announced(lines)
    case Some(Number(n)) =>
      var header := Block(lines);
      if n >= 0 {
        TakeForwards(tr, header, n, y, header + y, |header| + n);
      } else {
        TakeBackwards(tr, header, n, y, header + y, |header| + n);
      }
    case _ =>
  }

  /**
   Behind any header block a message is delivered, and nothing else taken, exactly when the
   block's first length is the message's.
   */
  lemma LspDeliversIff(lines: seq<string>, m: string, x: string)
    requires FieldLines(lines)
    ensures Attempt(Lsp, Block(lines) + (m + x)) == Deliver(m, x) <==> Announced(lines) == Some(Number(|m|))
  {
    BlockTaken(Lsp, lines, m + x);
    TakesMessageIff(Lsp, Block(lines), m, x);
  }

  /** For the MCP connection the bytes behind the header, cast to int, must also count as enough. */
  lemma McpDeliversIff(lines: seq<string>, m: string, x: string)
    requires FieldLines(lines)
    ensures Attempt(Mcp, Block(lines) + (m + x)) == Deliver(m, x) <==>
            Announced(lines) == Some(Number(|m|)) && AsInt(|m + x|) >= |m|
  {
    BlockTaken(Mcp, lines, m + x);
    TakesMessageIff(Mcp, Block(lines), m, x);
  }

  lemma TakesMessageIff(tr: Transport, header: string, m: string, x: string)
    ensures Take(tr, header, |m|, m + x) == Deliver(m, x) <==> tr == Lsp || AsInt(|m + x|) >= |m|
    ensures forall n: int :: n != |m| ==> Take(tr, header, n, m + x) != Deliver(m, x)
  {
    Cut(m, x);
  }

  /** The LSP client waits for ever on a block without a length, or with one that reaches back before the block. */
  lemma WaitsForeverIff(lines: seq<string>)
    requires FieldLines(lines)
    ensures (forall y :: Attempt(Lsp, Block(lines) + y) == Wait) <==>
            (match Announced(lines) case None => true case Some(Number(n)) => |Block(lines)| + n < 0 case _ => false)
  {
    var header := Block(lines);
    forall y ensures Announced(lines).None? ==> Attempt(Lsp, header + y) == Wait {
      BlockTaken(Lsp, lines, y);
    }
    match Announced(lines)
    case Some(Number(n)) =>
      forall y | |header| + n < 0 ensures Attempt(Lsp, header + y) == Wait { BlockTaken(Lsp, lines, y); }
      BlockTaken(Lsp, lines, seq(if n < 0 then 0 else n, _ => ' '));
    case _ => BlockTaken(Lsp, lines, "");
  }

  // ---------- packets ----------

  /** A header block and a message behind it. */
  datatype Packet = Packet(lines: seq<string>, message: string)

  function Wire(p: Packet): string {
    Block(p.lines) + p.message
  }

  /** The first length in the header is the message's, or too long to be read as one. */
  ghost predicate Sound(p: Packet) {
    FieldLines(p.lines) &&
    Announced(p.lines) == Some(if |p.message| <= INT_MAX then Number(|p.message|) else OutOfRange)
  }

  /** Taking a sound packet's message: exact if it fits in an int, and a thrown error otherwise. */
  lemma PacketRoundTripIff(p: Packet, x: string)
    requires Sound(p)
    ensures Attempt(Lsp, Wire(p) + x) == Deliver(p.message, x) <==> |p.message| <= INT_MAX
    ensures |p.message| > INT_MAX ==> Attempt(Lsp, Wire(p) + x) == Throw(LengthOutOfRange)
  {
    Regroup(Block(p.lines), p.message, x);
    LspDeliversIff(p.lines, p.message, x);
    BlockTaken(Lsp, p.lines, p.message + x);
  }

  lemma McpPacketRoundTripIff(p: Packet, x: string)
    requires Sound(p)
    ensures Attempt(Mcp, Wire(p) + x) == Deliver(p.message, x) <==>
            |p.message| <= INT_MAX && AsInt(|p.message + x|) >= |p.message|
    ensures |p.message| > INT_MAX ==> Attempt(Mcp, Wire(p) + x) == Throw(LengthOutOfRange)
    ensures |p.message + x| <= INT_MAX ==> Attempt(Mcp, Wire(p) + x) == Deliver(p.message, x)
  {
    Regroup(Block(p.lines), p.message, x);
    McpDeliversIff(p.lines, p.message, x);
    BlockTaken(Mcp, p.lines, p.message + x);
    CastNeverGrows(|p.message + x|);
  }

  lemma ScanPacket(p: Packet, x: string)
    requires Sound(p)
    ensures ScanHeader(Wire(p) + x) ==
            if |p.message| <= INT_MAX then Length(|Block(p.lines)|, |p.message|) else Bad(LengthOutOfRange)
  {
    Regroup(Block(p.lines), p.message, x);
    ScanBlock(p.lines, p.message + x);
  }

  /** What the clients send: the packet with the length as its only field. */
  function Plain(m: string): Packet {
    Packet([NAME + ToString(|m|)], m)
  }

  lemma OneLineBlock(l: string)
    ensures Block([l]) == l + BREAK
  {
    assert [l][1..] == [];
    assert l + "\r\n" + "\r\n" == l + BREAK;
  }

  lemma NamedLine(w: string, d: string)
    requires w != "" && '\r' !in w && '\r' !in d
    ensures FieldLine(w + d) && Find(w + d, w, 0) == Some(0) && Behind(w + d, w, 0) == d
  {
    assert (w + d)[0..|w|] == w;
    FindIs(w + d, w, 0, 0);
  }

  lemma FrameIsPacket(m: string)
    ensures Wire(Plain(m)) == Frame(m) && Sound(Plain(m))
  {
    OneLineBlock(NAME + ToString(|m|));
    assert '\r' !in NAME;
    NamedLine(NAME, ToString(|m|));
    StoiOfToString(|m|);
  }

  /**
   Writing a frame and taking it out again: exact for every message that fits in an int, and
   a thrown error for every other.
   */
  lemma FrameRoundTripIff(m: string, x: string)
    ensures Attempt(Lsp, Frame(m) + x) == Deliver(m, x) <==> |m| <= INT_MAX
    ensures |m| > INT_MAX ==> Attempt(Lsp, Frame(m) + x) == Throw(LengthOutOfRange)
  {
    FrameIsPacket(m);
    PacketRoundTripIff(Plain(m), x);
  }

  /**
   The MCP connection reads a written frame back exactly when its length fits in an int and
   the bytes behind the header, cast to int, still count as enough.
   */
  lemma McpFrameRoundTripIff(m: string, x: string)
    ensures Attempt(Mcp, Frame(m) + x) == Deliver(m, x) <==> |m| <= INT_MAX && AsInt(|m + x|) >= |m|
    ensures |m| > INT_MAX ==> Attempt(Mcp, Frame(m) + x) == Throw(LengthOutOfRange)
    ensures |m + x| <= INT_MAX ==> Attempt(Mcp, Frame(m) + x) == Deliver(m, x)
  {
    FrameIsPacket(m);
    McpPacketRoundTripIff(Plain(m), x);
  }
}
