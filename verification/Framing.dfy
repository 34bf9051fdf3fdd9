/**
 Content-Length framing over a pipe, as the LSP client and the MCP stdio
 connection read and write it. A character stands for one byte.
 */
module Framing {
  import opened Wrappers
  import opened Strings
  import opened Decimal

  const NAME := "Content-Length: "
  const BREAK := "\r\n\r\n"

  function Header(m: string): string {
    NAME + ToString(|m|) + BREAK
  }

  function Frame(m: string): string {
    Header(m) + m
  }

  // ---------- scanning the buffer ----------

  datatype Error = BadLength | LengthOutOfRange | SubstrOutOfRange

  /**
   What the header search finds: nothing usable, a length that does not parse, or where the
   content starts and how long it claims to be.
   */
  datatype Scan = NoHeader | Bad(error: Error) | Length(start: nat, n: int)

  lemma LineEndBehindName(b: string, c: nat, e: nat)
    requires OccursAt(b, NAME, c) && c <= e && OccursAt(b, "\r\n", e)
    ensures c + |NAME| <= e
  {
    assert b[e] == b[e..e + 2][0] == '\r';
    assert '\r' !in NAME;
    forall j | c <= j < c + |NAME| ensures b[j] != '\r' {
      assert b[j] == b[c..c + |NAME|][j - c];
    }
  }

  lemma NameFits(b: string, c: nat, e: nat)
    requires Find(b, NAME, 0) == Some(c) && Find(b, "\r\n", c) == Some(e)
    ensures c + |NAME| <= e <= |b|
  {
    FindFirst(b, NAME, 0);
    FindFirst(b, "\r\n", c);
    LineEndBehindName(b, c, e);
  }

  lemma HeaderEndsLine(b: string, c: nat, h: nat)
    requires Find(b, BREAK, 0) == Some(h) && c <= h
    ensures Find(b, "\r\n", c).Some? && Find(b, "\r\n", c).value <= h
  {
    FindFirst(b, BREAK, 0);
    OccursPrefix(b, BREAK, 2, h);
    assert BREAK[..2] == "\r\n";
    FindFirst(b, "\r\n", c);
  }

  /** What stands between the name at c and the line break at e. */
  function ValueText(b: string, c: nat, e: nat): string
    requires c + |NAME| <= e <= |b|
  {
    b[c + |NAME|..e]
  }

  function Told(value: Parsed, start: nat): Scan {
    match value
    case Number(n) => Length(start, n)
    case InvalidArgument => Bad(BadLength)
    case OutOfRange => Bad(LengthOutOfRange)
  }

  /** What the header says, given where it ends, where the name stands and where its line ends. */
  function ReadHeader(b: string, h: nat, c: nat, e: nat): Scan
    requires c + |NAME| <= e <= |b|
  {
    Told(Stoi(ValueText(b, c, e)), h + 4)
  }

  function ScanHeader(b: string): Scan {
    match Find(b, BREAK, 0)
    case None => NoHeader
    case Some(h) =>
      match Find(b, NAME, 0)
      case None => NoHeader
      case Some(c) =>
        if c >= h then NoHeader
        else
          HeaderEndsLine(b, c, h);
          var e := Find(b, "\r\n", c).value;
          NameFits(b, c, e);
          ReadHeader(b, h, c, e)
  }

  /** The searches and the parse both receive loops make on their buffer. */
  method FindHeader(buffer: string) returns (scan: Scan)
    ensures scan == ScanHeader(buffer)
  {
    var headerEnd := Find(buffer, "\r\n\r\n", 0);
    if headerEnd.None? { return NoHeader; }
    var clPos := Find(buffer, "Content-Length: ", 0);
    if clPos.None? || clPos.value >= headerEnd.value { return NoHeader; }
    HeaderEndsLine(buffer, clPos.value, headerEnd.value);
    var clEnd := Find(buffer, "\r\n", clPos.value);
    FindFirst(buffer, NAME, 0);
    FindFirst(buffer, "\r\n", clPos.value);
    LineEndBehindName(buffer, clPos.value, clEnd.value);
    var parsed := Stoi(buffer[clPos.value + 16..clEnd.value]);
    match parsed
    case InvalidArgument => return Bad(BadLength);
    case OutOfRange => return Bad(LengthOutOfRange);
    case Number(n) => return Length(headerEnd.value + 4, n);
  }

  // ---------- taking one message out of the buffer ----------

  datatype Transport = Lsp | Mcp

  datatype Step = Wait | Deliver(message: string, rest: string) | Throw(error: Error)

  /** static_cast<int> of a size. */
  function AsInt(n: int): int {
    (n + 0x8000_0000) % 0x1_0000_0000 - 0x8000_0000
  }

  lemma CastNeverGrows(n: int)
    requires n >= 0
    ensures AsInt(n) <= n && (n <= INT_MAX ==> AsInt(n) == n)
  {}

  /** The int that is the same modulo 2^32. */
  lemma CastIsInt(n: int)
    ensures INT_MIN <= AsInt(n) <= INT_MAX && (n - AsInt(n)) % 0x1_0000_0000 == 0
  {
    var q := (n + 0x8000_0000) / 0x1_0000_0000;
    assert n - AsInt(n) == q * 0x1_0000_0000;
  }

  /**
   One attempt on a buffer. The LSP client adds the length to the content start
   in size_t, so a negative sum is larger than any buffer; the MCP connection
   compares the available bytes as int. A negative length reads to the end.
   */
  function Attempt(tr: Transport, b: string): Step {
    match ScanHeader(b)
    case NoHeader => Wait
    case Bad(error) => Throw(error)
    case Length(start, n) =>
      if start > |b| then Wait
      else
        var end := start + n;
        var message := if n < 0 then b[start..] else b[start..if end <= |b| then end else |b|];
        match tr
        case Lsp => if 0 <= end <= |b| then Deliver(message, b[end..]) else Wait
        case Mcp =>
          if AsInt(|b| - start) < n then Wait
          else if 0 <= end <= |b| then Deliver(message, b[end..])
          else Throw(SubstrOutOfRange)
  }

  lemma ScanStartsInside(b: string)
    requires ScanHeader(b).Length?
    ensures ScanHeader(b).start <= |b|
  {}

  /** lsp_client.cpp: the sum of size_t and int decides. */
  method LspTake(buffer: string) returns (step: Step)
    ensures step == Attempt(Lsp, buffer)
  {
    var scan := FindHeader(buffer);
    if scan.Bad? { return Throw(scan.error); }
    if scan.Length? {
      ScanStartsInside(buffer);
      var end := scan.start + scan.n;
      if 0 <= end <= |buffer| {
        var message := if scan.n < 0 then buffer[scan.start..] else buffer[scan.start..end];
        return Deliver(message, buffer[end..]);
      }
    }
    return Wait;
  }

  /** mcp_transport.cpp: an int comparison decides, and a cut before the buffer throws. */
  method McpTake(buffer: string) returns (step: Step)
    ensures step == Attempt(Mcp, buffer)
  {
    var scan := FindHeader(buffer);
    if scan.Bad? { return Throw(scan.error); }
    if scan.Length? {
      ScanStartsInside(buffer);
      assert AsInt(|buffer| - scan.start) <= |buffer| - scan.start;
      var end := scan.start + scan.n;
      if AsInt(|buffer| - scan.start) >= scan.n {
        if end < 0 { return Throw(SubstrOutOfRange); }
        var message := if scan.n < 0 then buffer[scan.start..] else buffer[scan.start..end];
        return Deliver(message, buffer[end..]);
      }
    }
    return Wait;
  }

  // ---------- the attempt does not depend on later bytes ----------

  lemma FindStable(b: string, x: string, w: string, from: nat)
    requires Find(b, w, from).Some?
    ensures Find(b + x, w, from) == Find(b, w, from)
  {
    FindFirst(b, w, from);
    var p := Find(b, w, from).value;
    assert (b + x)[p..p + |w|] == b[p..p + |w|];
    forall i | from <= i < p ensures !OccursAt(b + x, w, i) {
      assert !OccursAt(b, w, i);
      Extend(b, x, i, i + |w|);
    }
    FindIs(b + x, w, from, p);
  }

  /** Once a header is complete, more bytes do not change what it says. */
  lemma ScanStable(b: string, x: string)
    requires !ScanHeader(b).NoHeader?
    ensures ScanHeader(b + x) == ScanHeader(b)
  {
    FindStable(b, x, BREAK, 0);
    FindStable(b, x, NAME, 0);
    var h, c := Find(b, BREAK, 0).value, Find(b, NAME, 0).value;
    HeaderEndsLine(b, c, h);
    FindStable(b, x, "\r\n", c);
    var e := Find(b, "\r\n", c).value;
    FindFirst(b, NAME, 0);
    FindFirst(b, "\r\n", c);
    LineEndBehindName(b, c, e);
    Extend(b, x, c + |NAME|, e);
  }

  /**
   Within int range or not, what the MCP connection takes by a length that is not negative,
   the LSP client takes too.
   */
  lemma McpDeliversAsLsp(b: string)
    requires Attempt(Mcp, b).Deliver? && ScanHeader(b).n >= 0
    ensures Attempt(Lsp, b) == Attempt(Mcp, b)
  {
    ScanStartsInside(b);
    assert AsInt(|b| - ScanHeader(b).start) <= |b| - ScanHeader(b).start;
  }

  lemma LspDelivers(b: string, start: nat, n: nat, end: nat)
    requires ScanHeader(b) == Length(start, n) && end == start + n
    ensures Attempt(Lsp, b) == if end <= |b| then Deliver(b[start..end], b[end..]) else Wait
  {}

  lemma LspDeliverStable(b: string, x: string)
    requires Attempt(Lsp, b).Deliver? && ScanHeader(b).n >= 0
    ensures Attempt(Lsp, b + x) == Deliver(Attempt(Lsp, b).message, Attempt(Lsp, b).rest + x)
  {
    var start, n := ScanHeader(b).start, ScanHeader(b).n;
    var end: nat := start + n;
    ScanStable(b, x);
    LspDelivers(b, start, n, end);
    LspDelivers(b + x, start, n, end);
    Extend(b, x, start, end);
  }

  /** What is delivered, and what is left of the whole stream, does not depend on where the read stopped. */
  lemma DeliverStable(tr: Transport, b: string, x: string)
    requires Attempt(tr, b).Deliver? && ScanHeader(b).n >= 0
    ensures Attempt(Lsp, b + x) == Deliver(Attempt(tr, b).message, Attempt(tr, b).rest + x)
  {
    if tr == Mcp {
      McpDeliversAsLsp(b);
    }
    LspDeliverStable(b, x);
  }

  /**
   For the LSP client that holds for all later bytes exactly when the length is not negative:
   a negative one takes everything there is, so it depends on where the read stopped.
   */
  lemma LspDeliverStableIff(b: string)
    requires Attempt(Lsp, b).Deliver?
    ensures (forall x :: Attempt(Lsp, b + x) == Deliver(Attempt(Lsp, b).message, Attempt(Lsp, b).rest + x)) <==>
            ScanHeader(b).n >= 0
  {
    if ScanHeader(b).n >= 0 {
      forall x ensures Attempt(Lsp, b + x) == Deliver(Attempt(Lsp, b).message, Attempt(Lsp, b).rest + x) {
        LspDeliverStable(b, x);
      }
    } else {
      TakesEverything(Lsp, b, "x");
    }
  }

  /** With a negative length the message grows with the buffer. */
  lemma TakesEverything(tr: Transport, b: string, x: string)
    requires Attempt(tr, b).Deliver? && ScanHeader(b).n < 0 && x != ""
    ensures Attempt(tr, b + x) != Deliver(Attempt(tr, b).message, Attempt(tr, b).rest + x)
  {
    ScanStable(b, x);
    ScanStartsInside(b);
    var start := ScanHeader(b).start;
    assert |Attempt(tr, b).message| == |b| - start;
    assert Attempt(tr, b + x).Deliver? ==> |Attempt(tr, b + x).message| == |b + x| - start;
  }

  lemma McpWaitsOrFollows(b: string)
    requires ScanHeader(b).Length? && ScanHeader(b).n >= 0
    ensures Attempt(Mcp, b) == if AsInt(|b| - ScanHeader(b).start) < ScanHeader(b).n then Wait else Attempt(Lsp, b)
  {
    ScanStartsInside(b);
    CastNeverGrows(|b| - ScanHeader(b).start);
  }

  lemma LspFollows(b: string, x: string, message: string, rest: string)
    requires Attempt(Mcp, b) == Deliver(message, rest) && ScanHeader(b).n >= 0
    ensures Attempt(Lsp, b + x) == Deliver(message, rest + x)
  {
    DeliverStable(Mcp, b, x);
  }

  lemma SameHeader(b: string, x: string, start: nat, n: int)
    requires ScanHeader(b) == Length(start, n)
    ensures ScanHeader(b + x) == Length(start, n)
  {
    ScanStable(b, x);
  }

  lemma McpFollows(c: string, start: nat, n: nat, step: Step)
    requires ScanHeader(c) == Length(start, n) && Attempt(Lsp, c) == step
    ensures Attempt(Mcp, c) == if AsInt(|c| - start) < n then Wait else step
  {
    McpWaitsOrFollows(c);
  }

  lemma McpKeeps(b: string, c: string, x: string, start: nat, n: nat, message: string, rest: string)
    requires c == b + x && Attempt(Mcp, b) == Deliver(message, rest) && ScanHeader(b) == Length(start, n)
    ensures Attempt(Mcp, c) == if AsInt(|c| - start) < n then Wait else Deliver(message, rest + x)
  {
    SameHeader(b, x, start, n);
    LspFollows(b, x, message, rest);
    McpFollows(c, start, n, Deliver(message, rest + x));
  }

  lemma McpTakesMore(b: string, c: string, x: string, start: nat, n: int, message: string, rest: string)
    requires c == b + x && Attempt(Mcp, b) == Deliver(message, rest) && ScanHeader(b) == Length(start, n)
    requires n < 0 && x != ""
    ensures Attempt(Mcp, c) != Deliver(message, rest + x)
  {
    TakesEverything(Mcp, b, x);
  }

  /**
   For the MCP connection every later byte counts: what it takes from a buffer it takes from
   the longer one c exactly when the length is not negative and the bytes behind the header,
   cast to int, are still enough.
   */
  lemma McpDeliverStableIff(b: string, c: string, x: string, start: nat, n: int, message: string, rest: string)
    requires c == b + x && Attempt(Mcp, b) == Deliver(message, rest) && ScanHeader(b) == Length(start, n)
    ensures Attempt(Mcp, c) == Deliver(message, rest + x) <==> x == "" || (n >= 0 && AsInt(|c| - start) >= n)
  {
    if x == "" {
      assert c == b && rest + x == rest;
    } else if n < 0 {
      McpTakesMore(b, c, x, start, n, message, rest);
    } else {
      McpKeeps(b, c, x, start, n, message, rest);
    }
  }

  /**
   The two transports do the same on a buffer exactly when the cast to int does not matter:
   with a bytes behind the header and length n, it must not hide a complete message, and a
   negative length that reaches before the buffer must look too long.
   */
  lemma McpTakesWhatLspTakesIff(b: string)
    ensures Attempt(Mcp, b) == Attempt(Lsp, b) <==>
            match ScanHeader(b)
            case Length(start, n) =>
              if start + n < 0 then AsInt(|b| - start) < n else |b| - start < n || AsInt(|b| - start) >= n
            case _ => true
  {
    if ScanHeader(b).Length? {
      ScanStartsInside(b);
      CastNeverGrows(|b| - ScanHeader(b).start);
    }
  }
}
