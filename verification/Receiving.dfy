/**
 Streams of packets over a pipe: what any sequence of receive calls takes,
 and what reaches the other end of a connection.
 */
module Receiving {
  import opened Wrappers
  import opened Decimal
  import opened Framing
  import opened HeaderBlocks

  // ---------- runs of receive calls ----------

  /** How a receive call ends. Every ending but Received returns the empty string or throws. */
  datatype Outcome = Received | Closed | Expired | NoData | Threw(error: Error)

  /** The client's buffer and the bytes still in the pipe. */
  datatype Link = Link(buffer: string, unread: string)

  function Stream(l: Link): string {
    l.buffer + l.unread
  }

  /** One receive call: the buffer grows to b, and then either stays or loses one message. */
  ghost predicate Receives(tr: Transport, l: Link, l': Link, out: Option<string>, b: string) {
    b + l'.unread == Stream(l) && |l.buffer| <= |b| &&
    match out
    case None => l'.buffer == b
    case Some(m) => Attempt(tr, b) == Deliver(m, l'.buffer)
  }

  /** Any number of receive calls, the i-th growing the buffer to bs[i]. */
  ghost predicate Run(tr: Transport, ls: seq<Link>, outs: seq<Option<string>>, bs: seq<string>) {
    |ls| == |outs| + 1 && |bs| == |outs| &&
    forall i :: 0 <= i < |outs| ==> Receives(tr, ls[i], ls[i + 1], outs[i], bs[i])
  }

  function Extended(done: seq<string>, out: Option<string>): seq<string> {
    match out
    case None => done
    case Some(m) => done + [m]
  }

  /** What the first n calls returned. */
  function DeliveredBy(outs: seq<Option<string>>, n: nat): seq<string>
    requires n <= |outs|
  {
    if n == 0 then []
    else Extended(DeliveredBy(outs, n - 1), outs[n - 1])
  }

  function Delivered(outs: seq<Option<string>>): seq<string> {
    DeliveredBy(outs, |outs|)
  }

  // ---------- streams of packets ----------

  function Wires(ps: seq<Packet>): string {
    if ps == [] then "" else Wire(ps[0]) + Wires(ps[1..])
  }

  ghost predicate AllSound(ps: seq<Packet>) {
    forall i :: 0 <= i < |ps| ==> Sound(ps[i])
  }

  function Messages(ps: seq<Packet>): (ms: seq<string>)
    ensures |ms| == |ps|
  {
    seq(|ps|, i requires 0 <= i < |ps| => ps[i].message)
  }

  predicate Readable(p: Packet) {
    |p.message| <= INT_MAX
  }

  /** A receive call on a stream of packets takes the first message or nothing. */
  lemma ReceiveOne(tr: Transport, l: Link, l': Link, out: Option<string>, b: string, ps: seq<Packet>)
    requires AllSound(ps) && Receives(tr, l, l', out, b) && Stream(l) == Wires(ps)
    ensures out.None? ==> Stream(l') == Wires(ps)
    ensures out.Some? ==> ps != [] && Readable(ps[0]) && out.value == ps[0].message && Stream(l') == Wires(ps[1..])
  {
    if out.Some? {
      ScanStable(b, l'.unread);
      assert ps != [];
      ScanPacket(ps[0], Wires(ps[1..]));
      DeliverStable(tr, b, l'.unread);
      PacketRoundTripIff(ps[0], Wires(ps[1..]));
    }
  }

  /** The packets behind the first j. */
  function WiresFrom(ps: seq<Packet>, j: nat): string
    requires j <= |ps|
  {
    Wires(ps[j..])
  }

  /** The first messages are delivered, and the packets of the others are still in the stream. */
  ghost predicate Progress(done: seq<string>, l: Link, ps: seq<Packet>) {
    done <= Messages(ps) && Stream(l) == WiresFrom(ps, |done|)
  }

  lemma NextPrefix(done: seq<string>, ps: seq<Packet>, m: string)
    requires done <= Messages(ps) && |done| < |ps| && m == ps[|done|].message
    ensures done + [m] <= Messages(ps) && ps[|done|..][1..] == ps[|done + [m]|..]
  {}

  lemma CallProgress(tr: Transport, l: Link, l': Link, out: Option<string>, b: string, ps: seq<Packet>,
                     done: seq<string>)
    requires AllSound(ps) && Receives(tr, l, l', out, b) && Progress(done, l, ps)
    ensures Progress(Extended(done, out), l', ps)
  {
    ReceiveOne(tr, l, l', out, b, ps[|done|..]);
    if out.Some? {
      NextPrefix(done, ps, out.value);
    }
  }

  /** Whatever was delivered before, the call keeps the progress. */
  ghost predicate Advances(l: Link, l': Link, out: Option<string>, ps: seq<Packet>) {
    forall done :: Progress(done, l, ps) ==> Progress(Extended(done, out), l', ps)
  }

  lemma CallAdvances(tr: Transport, l: Link, l': Link, out: Option<string>, b: string, ps: seq<Packet>)
    requires AllSound(ps) && Receives(tr, l, l', out, b)
    ensures Advances(l, l', out, ps)
  {
    forall done | Progress(done, l, ps) ensures Progress(Extended(done, out), l', ps) {
      CallProgress(tr, l, l', out, b, ps, done);
    }
  }

  lemma AdvanceOnce(l: Link, l': Link, out: Option<string>, ps: seq<Packet>, done: seq<string>)
    requires Advances(l, l', out, ps) && Progress(done, l, ps)
    ensures Progress(Extended(done, out), l', ps)
  {}

  lemma NothingDelivered(l: Link, ps: seq<Packet>)
    requires Stream(l) == Wires(ps)
    ensures Progress([], l, ps)
  {
    assert ps[0..] == ps;
  }

  lemma {:induction false} CallsProgress(ls: seq<Link>, outs: seq<Option<string>>, ps: seq<Packet>, n: nat)
    requires |ls| == |outs| + 1 && forall i :: 0 <= i < |outs| ==> Advances(ls[i], ls[i + 1], outs[i], ps)
    requires Progress([], ls[0], ps) && n <= |outs|
    ensures Progress(DeliveredBy(outs, n), ls[n], ps)
    decreases n
  {
    if n > 0 {
      var i := n - 1;
      CallsProgress(ls, outs, ps, i);
      AdvanceOnce(ls[i], ls[i + 1], outs[i], ps, DeliveredBy(outs, i));
    }
  }

  lemma RunAdvances(tr: Transport, ls: seq<Link>, outs: seq<Option<string>>, bs: seq<string>, ps: seq<Packet>)
    requires AllSound(ps) && Run(tr, ls, outs, bs)
    ensures forall i :: 0 <= i < |outs| ==> Advances(ls[i], ls[i + 1], outs[i], ps)
  {
    forall i | 0 <= i < |outs| ensures Advances(ls[i], ls[i + 1], outs[i], ps) {
      CallAdvances(tr, ls[i], ls[i + 1], outs[i], bs[i], ps);
    }
  }

  /** Whatever the reads: the delivered messages come first, in order, and the rest of the stream is still there. */
  lemma RunDelivers(tr: Transport, ls: seq<Link>, outs: seq<Option<string>>, bs: seq<string>, ps: seq<Packet>)
    requires AllSound(ps) && Run(tr, ls, outs, bs) && Stream(ls[0]) == Wires(ps)
    ensures Progress(Delivered(outs), ls[|outs|], ps)
  {
    RunAdvances(tr, ls, outs, bs, ps);
    NothingDelivered(ls[0], ps);
    CallsProgress(ls, outs, ps, |outs|);
  }

  /** A buffer the LSP client cannot take from, with nothing left to read, means everything was delivered. */
  lemma NothingWaits(ps: seq<Packet>)
    requires AllSound(ps)
    ensures Attempt(Lsp, Wires(ps)) == Wait <==> ps == []
  {
    if ps != [] {
      PacketRoundTripIff(ps[0], Wires(ps[1..]));
    }
  }

  lemma LengthNeverThrows(tr: Transport, b: string)
    requires ScanHeader(b).Length? && ScanHeader(b).n >= 0
    ensures !Attempt(tr, b).Throw?
  {
    ScanStartsInside(b);
    CastNeverGrows(|b| - ScanHeader(b).start);
  }

  /** On a stream of packets neither transport throws before a message that is too long is the first one. */
  lemma NeverThrows(tr: Transport, b: string, x: string, ps: seq<Packet>)
    requires AllSound(ps) && b + x == Wires(ps) && (ps != [] ==> Readable(ps[0]))
    ensures !Attempt(tr, b).Throw?
  {
    if !ScanHeader(b).NoHeader? {
      ScanStable(b, x);
      assert ps != [];
      ScanPacket(ps[0], Wires(ps[1..]));
      LengthNeverThrows(tr, b);
    }
  }

  /**
   A receive call of the LSP client that was not interrupted: it ends without a message only
   by an exception, or with an empty pipe and nothing to take.
   */
  ghost predicate Completes(l: Link, l': Link, out: Option<string>, b: string) {
    Receives(Lsp, l, l', out, b) &&
    (out.None? ==> Attempt(Lsp, l'.buffer).Throw? || (Attempt(Lsp, l'.buffer) == Wait && l'.unread == ""))
  }

  /** Such a call returns a message exactly when one is waiting and not too long. */
  lemma UninterruptedCallReceives(l: Link, l': Link, out: Option<string>, b: string, ps: seq<Packet>)
    requires AllSound(ps) && Completes(l, l', out, b) && Stream(l) == Wires(ps)
    ensures out.Some? <==> ps != [] && Readable(ps[0])
  {
    if out.Some? {
      ReceiveOne(Lsp, l, l', out, b, ps);
    } else if ps != [] && Readable(ps[0]) {
      NeverThrows(Lsp, b, l'.unread, ps);
      assert b + "" == b;
      PacketRoundTripIff(ps[0], Wires(ps[1..]));
    }
  }

  /** Any number of calls, none of them interrupted. */
  ghost predicate CompleteRun(ls: seq<Link>, outs: seq<Option<string>>, bs: seq<string>) {
    |ls| == |outs| + 1 && |bs| == |outs| &&
    forall i :: 0 <= i < |outs| ==> Completes(ls[i], ls[i + 1], outs[i], bs[i])
  }

  /** The number of messages before the first one that is too long. */
  function ReadableCount(ps: seq<Packet>): nat {
    if ps == [] || !Readable(ps[0]) then 0 else 1 + ReadableCount(ps[1..])
  }

  lemma {:induction false} ReadableBound(ps: seq<Packet>)
    ensures ReadableCount(ps) <= |ps|
    ensures forall i :: 0 <= i < ReadableCount(ps) ==> Readable(ps[i])
    ensures ReadableCount(ps) < |ps| ==> !Readable(ps[ReadableCount(ps)])
    ensures ReadableCount(ps) == |ps| <==> forall i :: 0 <= i < |ps| ==> Readable(ps[i])
    decreases |ps|
  {
    if ps != [] && Readable(ps[0]) {
      ReadableBound(ps[1..]);
      assert forall i :: 0 < i < |ps| ==> ps[i] == ps[1..][i - 1];
    }
  }

  function Min(a: nat, b: nat): nat {
    if a <= b then a else b
  }

  /** Behind k messages, the call brings one more exactly when there is a readable one. */
  ghost predicate Counts(l: Link, out: Option<string>, ps: seq<Packet>) {
    forall done :: Progress(done, l, ps) && |done| <= ReadableCount(ps) ==>
                     (out.Some? <==> |done| < ReadableCount(ps))
  }

  lemma CompleteCallCounts(l: Link, l': Link, out: Option<string>, b: string, ps: seq<Packet>)
    requires AllSound(ps) && Completes(l, l', out, b)
    ensures Counts(l, out, ps)
  {
    forall done | Progress(done, l, ps) && |done| <= ReadableCount(ps)
      ensures out.Some? <==> |done| < ReadableCount(ps)
    {
      var j := |done|;
      ReadableBound(ps);
      UninterruptedCallReceives(l, l', out, b, ps[j..]);
      assert j < |ps| ==> ps[j..][0] == ps[j];
    }
  }

  lemma OneMore(outs: seq<Option<string>>, i: nat, n: nat)
    requires i < |outs| && n == i + 1
    ensures |DeliveredBy(outs, n)| == |DeliveredBy(outs, i)| + if outs[i].Some? then 1 else 0
  {}

  lemma {:induction false} CompleteCallsCount(ls: seq<Link>, outs: seq<Option<string>>, ps: seq<Packet>, n: nat)
    requires |ls| == |outs| + 1 && forall i :: 0 <= i < |outs| ==> Advances(ls[i], ls[i + 1], outs[i], ps)
    requires forall i :: 0 <= i < |outs| ==> Counts(ls[i], outs[i], ps)
    requires Progress([], ls[0], ps) && n <= |outs|
    ensures |DeliveredBy(outs, n)| == Min(n, ReadableCount(ps))
    decreases n
  {
    if n > 0 {
      var i := n - 1;
      CompleteCallsCount(ls, outs, ps, i);
      CallsProgress(ls, outs, ps, i);
      OneMore(outs, i, n);
      assert Counts(ls[i], outs[i], ps);
    }
  }

  lemma CompleteRunCounts(ls: seq<Link>, outs: seq<Option<string>>, bs: seq<string>, ps: seq<Packet>)
    requires AllSound(ps) && CompleteRun(ls, outs, bs)
    ensures Run(Lsp, ls, outs, bs) && forall i :: 0 <= i < |outs| ==> Counts(ls[i], outs[i], ps)
  {
    forall i | 0 <= i < |outs| ensures Counts(ls[i], outs[i], ps) {
      CompleteCallCounts(ls[i], ls[i + 1], outs[i], bs[i], ps);
    }
  }

  /**
   k uninterrupted calls deliver exactly the first k messages; all if there are fewer, and none
   from the first that is too long.
   */
  lemma CompleteRunDelivers(ls: seq<Link>, outs: seq<Option<string>>, bs: seq<string>, ps: seq<Packet>)
    requires AllSound(ps) && CompleteRun(ls, outs, bs) && Stream(ls[0]) == Wires(ps)
    ensures Delivered(outs) <= Messages(ps) && |Delivered(outs)| == Min(|outs|, ReadableCount(ps))
  {
    CompleteRunCounts(ls, outs, bs, ps);
    RunAdvances(Lsp, ls, outs, bs, ps);
    NothingDelivered(ls[0], ps);
    CallsProgress(ls, outs, ps, |outs|);
    CompleteCallsCount(ls, outs, ps, |outs|);
  }

  // ---------- from one end to the other ----------

  /** What the operating system holds after each of the sends, all of them successful. */
  ghost predicate Sends(takens: seq<string>, ms: seq<string>) {
    |takens| == |ms| + 1 && takens[0] == "" &&
    forall i :: 0 <= i < |ms| ==> takens[i + 1] == takens[i] + Frame(ms[i])
  }

  function AllPlain(ms: seq<string>): seq<Packet> {
    seq(|ms|, i requires 0 <= i < |ms| => Plain(ms[i]))
  }

  /** One more packet at the end. */
  lemma {:induction false} WiresSnoc(ps: seq<Packet>, p: Packet)
    ensures Wires(ps + [p]) == Wires(ps) + Wire(p)
    decreases |ps|
  {
    if ps == [] {
      assert [p][1..] == [];
    } else {
      assert (ps + [p])[1..] == ps[1..] + [p];
      WiresSnoc(ps[1..], p);
      Regroup(Wire(ps[0]), Wires(ps[1..]), Wire(p));
    }
  }

  /** Successful sends leave the packets of their messages, one behind the other. */
  lemma {:induction false} SendsMakePackets(takens: seq<string>, ms: seq<string>, n: nat)
    requires Sends(takens, ms) && n <= |ms|
    ensures takens[n] == Wires(AllPlain(ms[..n]))
    decreases n
  {
    if n > 0 {
      var i := n - 1;
      SendsMakePackets(takens, ms, i);
      FrameIsPacket(ms[i]);
      assert ms[..n] == ms[..i] + [ms[i]];
      assert AllPlain(ms[..n]) == AllPlain(ms[..i]) + [Plain(ms[i])];
      WiresSnoc(AllPlain(ms[..i]), Plain(ms[i]));
      assert takens[i + 1] == takens[i] + Frame(ms[i]);
    }
  }

  lemma PlainPackets(ms: seq<string>)
    ensures AllSound(AllPlain(ms)) && Messages(AllPlain(ms)) == ms
    ensures (forall i :: 0 <= i < |ms| ==> |ms[i]| <= INT_MAX) ==> ReadableCount(AllPlain(ms)) == |ms|
  {
    forall i | 0 <= i < |ms| ensures Sound(AllPlain(ms)[i]) { FrameIsPacket(ms[i]); }
    ReadableBound(AllPlain(ms));
  }

  /**
   What successful sends wrote, k uninterrupted calls at the other end read: the same
   messages, in the same order.
   */
  lemma SentIsReceived(takens: seq<string>, ms: seq<string>, ls: seq<Link>, outs: seq<Option<string>>, bs: seq<string>)
    requires Sends(takens, ms) && CompleteRun(ls, outs, bs) && ls[0] == Link("", takens[|ms|])
    ensures Delivered(outs) <= ms && |Delivered(outs)| == Min(|outs|, ReadableCount(AllPlain(ms)))
    ensures (forall i :: 0 <= i < |ms| ==> |ms[i]| <= INT_MAX) && |outs| >= |ms| ==> Delivered(outs) == ms
  {
    SendsMakePackets(takens, ms, |ms|);
    assert ms[..|ms|] == ms && "" + takens[|ms|] == takens[|ms|];
    PlainPackets(ms);
    CompleteRunDelivers(ls, outs, bs, AllPlain(ms));
  }
}
