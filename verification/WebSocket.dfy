/**
 WebSocket frames (sections 5.2 and 5.3 of RFC 6455) as the bridge server
 writes them to a socket and reads them back.
 */
module WebSocket {
  import opened Wrappers

  type Bytes = seq<bv8>

  const SIZE_LIMIT: nat := 0x1_0000_0000_0000_0000  // every size_t is below

  // ---------- the frame format ----------

  function Byte(n: nat): bv8 {
    (n % 256) as bv8
  }

  /** n in k bytes, most significant first. */
  function BigEndian(n: nat, k: nat): Bytes {
    if k == 0 then [] else BigEndian(n / 256, k - 1) + [Byte(n)]
  }

  function FromBigEndian(bs: Bytes): nat {
    if bs == [] then 0 else FromBigEndian(bs[..|bs| - 1]) * 256 + bs[|bs| - 1] as nat
  }

  /** The length field: 7 bits, or 16 or 64 bits behind a marker; flag is the mask bit of its first byte. */
  function LengthField(n: nat, flag: bv8): Bytes {
    if n < 126 then [flag | Byte(n)]
    else if n < 65536 then [flag | 126] + BigEndian(n, 2)
    else [flag | 127] + BigEndian(n, 8)
  }

  function Frame(first: bv8, payload: Bytes): Bytes {
    [first] + LengthField(|payload|, 0) + payload
  }

  function Masked(payload: Bytes, key: Bytes): Bytes
    requires |key| == 4
  {
    seq(|payload|, i requires 0 <= i < |payload| => payload[i] ^ key[i % 4])
  }

  /** What a client sends: the payload masked with a 4-byte key. */
  function MaskedFrame(first: bv8, payload: Bytes, key: Bytes): Bytes
    requires |key| == 4
  {
    [first] + LengthField(|payload|, 0x80) + key + Masked(payload, key)
  }

  // ---------- what the reader makes of a byte stream ----------

  function Opcode(b: bv8): bv8 { b & 0x0F }
  predicate Flagged(b: bv8) { b & 0x80 != 0 }
  function Length7(b: bv8): nat { (b & 0x7F) as nat }

  datatype Parsed = Data(payload: Bytes, rest: Bytes) | CloseFrame(rest: Bytes) | TooLong(rest: Bytes) | Incomplete

  /** The number of extension bytes a 7-bit length announces. */
  function Extension(n: nat): nat {
    if n == 126 then 2 else if n == 127 then 8 else 0
  }

  /**
   The payload behind the length field and, if flagged, the mask key. The string for it is made
   before it is read; room is the length of the longest string that can be made.
   */
  function ParseBody(flagged: bool, n: nat, s: Bytes, room: nat): Parsed {
    var k := if flagged then 4 else 0;
    if |s| < k then Incomplete
    else if n > room then TooLong(s[k..])
    else if |s| < k + n then Incomplete
    else
      var body := s[k..][..n];
      Data(if flagged then Masked(body, s[..4]) else body, s[k..][n..])
  }

  function ParseData(flagged: bool, n7: nat, s: Bytes, room: nat): Parsed {
    var k := Extension(n7);
    if |s| < k then Incomplete
    else ParseBody(flagged, if k == 0 then n7 else FromBigEndian(s[..k]), s[k..], room)
  }

  /** The first frame that is not a ping. A ping is skipped by its 7-bit length alone. */
  function Parse(s: Bytes, room: nat): Parsed
    decreases |s|
  {
    if |s| < 2 then Incomplete
    else if Opcode(s[0]) == 8 then CloseFrame(s[2..])
    else if Opcode(s[0]) == 9 then
      if |s| < 2 + Length7(s[1]) then Incomplete else Parse(s[2..][Length7(s[1])..], room)
    else ParseData(Flagged(s[1]), Length7(s[1]), s[2..], room)
  }

  // ---------- the socket ----------

  /** How reading a frame ends; Closed and Lost return the empty string, Threw is an exception. */
  datatype Outcome = Received | Closed | Lost | Threw

  /** What a call read, by the way it ended. */
  function ResultOf(outcome: Outcome, payload: Bytes, rest: Bytes): Parsed {
    match outcome
    case Received => Data(payload, rest)
    case Closed => CloseFrame(rest)
    case Lost => Incomplete
    case Threw => TooLong(rest)
  }

  class Socket {
    var incoming: Bytes
    var outgoing: Bytes
    ghost var offered: seq<Bytes>  // what every send was given
    ghost var failures: nat  // reads that brought too little although more was there

    constructor ()
      ensures incoming == [] && outgoing == [] && offered == [] && failures == 0
    {
      incoming, outgoing, offered, failures := [], [], [], 0;
    }

    /** recv: any prefix of at most n bytes, possibly none; the caller gives up below the needed number. */
    method Recv(n: nat, ghost needed: nat) returns (got: Bytes)
      modifies this`incoming, this`failures
      ensures |got| <= n && got + incoming == old(incoming)
      ensures failures == old(failures) + if |got| < needed && incoming != [] then 1 else 0
    {
      var k: nat :| k <= n && k <= |incoming|;
      got, incoming := incoming[..k], incoming[k..];
      if |got| < needed && incoming != [] {
        failures := failures + 1;
      }
    }

    /** send: any part of the bytes may be taken. */
    method Send(bytes: Bytes) returns (taken: nat)
      modifies this`outgoing, this`offered
      ensures taken <= |bytes| && outgoing == old(outgoing) + bytes[..taken]
      ensures offered == old(offered) + [bytes]
    {
      offered := offered + [bytes];
      taken :| taken <= |bytes|;
      outgoing := outgoing + bytes[..taken];
    }
  }

  /** t is what is left of s after some bytes were read. */
  predicate LeftOf(t: Bytes, s: Bytes) {
    |t| <= |s| && s[|s| - |t|..] == t
  }

  lemma LeftOfLeft(u: Bytes, t: Bytes, s: Bytes)
    requires LeftOf(u, t) && LeftOf(t, s)
    ensures LeftOf(u, s)
  {
    Slices(s, |s| - |t|, |s| - |u|);
  }

  /** The frame was read from some place of the stream on. */
  ghost predicate ReadSomewhere(s: Bytes, room: nat, parsed: Parsed) {
    exists t: Bytes :: LeftOf(t, s) && Parse(t, room) == parsed
  }

  /** n >> 8 * k. */
  function Shifted(n: nat, k: nat): nat {
    if k == 0 then n else Shifted(n, k - 1) / 256
  }

  lemma NextByte(b: bv8)
    requires b != 255
    ensures (b + 1) as nat == b as nat + 1
  {}

  lemma SameByte(b: bv8)
    ensures (b as nat) as bv8 == b
  {}

  lemma {:induction false} ByteWithValue(x: nat) returns (b: bv8)
    requires x < 256
    ensures b as nat == x
  {
    b := 0;
    if x > 0 {
      b := ByteWithValue(x - 1);
      NextByte(b);
      b := b + 1;
    }
  }

  lemma SmallByte(x: nat)
    requires x < 256
    ensures (x as bv8) as nat == x
  {
    var b := ByteWithValue(x);
    SameByte(b);
    assert (b as nat) as bv8 == b;
  }

  lemma ByteBack(n: nat)
    ensures Byte(n) as nat == n % 256
  {
    SmallByte(n % 256);
  }

  /** The seven low bits of a byte below 126, with and without the mask bit. */
  lemma SevenBits(b: bv8)
    requires b < 126
    ensures 0 | b == b && b & 0x7F == b && !Flagged(b)
    ensures (0x80 | b) & 0x7F == b && Flagged(0x80 | b)
  {}

  lemma BelowMarkers(b: bv8)
    requires b as nat < 126
    ensures b < 126
  {}

  lemma FlagBits(n: nat)
    requires n < 126
    ensures 0 | Byte(n) == Byte(n)
    ensures Length7(Byte(n)) == n && !Flagged(Byte(n))
    ensures Length7(0x80 | Byte(n)) == n && Flagged(0x80 | Byte(n))
  {
    ByteBack(n);
    BelowMarkers(Byte(n));
    SevenBits(Byte(n));
  }

  lemma TwoBytes(n: nat)
    ensures BigEndian(n, 2) == [Byte(n / 256)] + [Byte(n)]
  {
    assert BigEndian(n / 256, 1) == [Byte(n / 256)];
  }

  lemma LengthForms(n: nat)
    ensures n < 126 ==> LengthField(n, 0) == [Byte(n)]
    ensures 126 <= n < 65536 ==> LengthField(n, 0) == [126] + [Byte(n / 256)] + [Byte(n)]
    ensures n >= 65536 ==> LengthField(n, 0) == [127] + BigEndian(n, 8)
  {
    if n < 126 {
      FlagBits(n);
    } else if n < 65536 {
      TwoBytes(n);
    }
  }

  function Power256(k: nat): nat {
    if k == 0 then 1 else 256 * Power256(k - 1)
  }

  lemma {:induction false} ShiftedStep(n: nat, k: nat)
    ensures Shifted(n / 256, k) == Shifted(n, k + 1)
  {
    if k > 0 {
      ShiftedStep(n, k - 1);
    }
  }

  /** Network byte order: the i-th of k bytes is n >> 8 * (k - 1 - i), cut to a byte. */
  lemma {:induction false} BigEndianAt(n: nat, k: nat, i: nat)
    requires i < k
    ensures |BigEndian(n, k)| == k && BigEndian(n, k)[i] as nat == Shifted(n, k - 1 - i) % 256
    decreases k
  {
    ByteBack(n);
    if k > 1 {
      BigEndianAt(n / 256, k - 1, if i < k - 1 then i else 0);
      if i < k - 1 {
        ShiftedStep(n, k - 2 - i);
      }
    }
  }

  /** Section 5.2 of RFC 6455, byte by byte: the length in one of its three forms, then the payload. */
  ghost predicate FrameBytes(frame: Bytes, first: bv8, payload: Bytes) {
    var n := |payload|;
    if n < 126 then
      |frame| == 2 + n && frame[0] == first && frame[1] as nat == n && frame[2..] == payload
    else if n < 65536 then
      |frame| == 4 + n && frame[0] == first && frame[1] == 126 &&
      frame[2] as nat == n / 256 && frame[3] as nat == n % 256 && frame[4..] == payload
    else
      |frame| == 10 + n && frame[0] == first && frame[1] == 127 && frame[10..] == payload &&
      forall j :: 2 <= j < 10 ==> frame[j] as nat == Shifted(n, 9 - j) % 256
  }

  lemma LongHead(first: bv8, field: Bytes, n: nat)
    requires field == BigEndian(n, 8)
    ensures var head := [first] + ([127] + field);
            |head| == 10 && head[0] == first && head[1] == 127 &&
            forall j :: 2 <= j < 10 ==> head[j] as nat == Shifted(n, 9 - j) % 256
  {
    var head := [first] + ([127] + field);
    BigEndianAt(n, 8, 0);
    forall j | 2 <= j < 10 ensures head[j] as nat == Shifted(n, 9 - j) % 256 {
      BigEndianAt(n, 8, j - 2);
    }
  }

  lemma LongFrameBytes(first: bv8, head: Bytes, payload: Bytes)
    requires |payload| >= 65536 && head == [first] + ([127] + BigEndian(|payload|, 8))
    ensures FrameBytes(head + payload, first, payload)
  {
    LongHead(first, BigEndian(|payload|, 8), |payload|);
    Cut(head, payload);
    assert forall j :: 2 <= j < 10 ==> (head + payload)[j] == head[j];
  }

  lemma TwoByteParts(n: nat)
    requires n < 65536
    ensures Byte(n / 256) as nat == n / 256 && Byte(n) as nat == n % 256
  {
    ByteBack(n);
    ByteBack(n / 256);
  }

  lemma MediumFrameBytes(first: bv8, head: Bytes, payload: Bytes)
    requires 126 <= |payload| < 65536
    requires head == [first] + ([126] + [Byte(|payload| / 256)] + [Byte(|payload|)])
    ensures FrameBytes(head + payload, first, payload)
  {
    var n, a, b := |payload|, Byte(|payload| / 256), Byte(|payload|);
    TwoByteParts(n);
    Cut(head, payload);
    assert head == [first, 126, a, b];
  }

  lemma ShortFrameBytes(first: bv8, head: Bytes, payload: Bytes)
    requires |payload| < 126 && head == [first] + [Byte(|payload|)]
    ensures FrameBytes(head + payload, first, payload)
  {
    ByteBack(|payload|);
    Cut(head, payload);
  }

  lemma FrameIsBytes(first: bv8, payload: Bytes)
    ensures FrameBytes(Frame(first, payload), first, payload)
  {
    var n := |payload|;
    var head := [first] + LengthField(n, 0);
    LengthForms(n);
    if n < 126 {
      ShortFrameBytes(first, head, payload);
    } else if n < 65536 {
      MediumFrameBytes(first, head, payload);
    } else {
      LongFrameBytes(first, head, payload);
    }
  }

  /** The 64-bit length, from the top byte down. */
  method PushLength(len: nat) returns (bytes: Bytes)
    ensures bytes == BigEndian(len, 8)
  {
    bytes := [];
    var k := 8;
    while k > 0
      invariant 0 <= k <= 8 && bytes == BigEndian(Shifted(len, k), 8 - k)
    {
      k := k - 1;
      bytes := bytes + [Byte(Shifted(len, k))];
    }
  }

  /** The header and payload bytes, pushed one by one. */
  method BuildFrame(payload: Bytes, binary: bool) returns (frame: Bytes)
    ensures frame == Frame(if binary then 0x82 else 0x81, payload)
    ensures FrameBytes(frame, if binary then 0x82 else 0x81, payload)
  {
    FrameIsBytes(if binary then 0x82 else 0x81, payload);
    var opcode: bv8 := if binary then 0x82 else 0x81;
    frame := [opcode];
    var len := |payload|;
    LengthForms(len);
    if len < 126 {
      frame := frame + [Byte(len)];
    } else if len < 65536 {
      frame := frame + ([126] + [Byte(len / 256)] + [Byte(len)]);
    } else {
      var bytes := PushLength(len);
      frame := frame + ([127] + bytes);
    }
    frame := frame + payload;
  }

  method SendFrame(sock: Socket, payload: Bytes, binary: bool) returns (ok: bool)
    modifies sock`outgoing, sock`offered
    ensures var frame := Frame(if binary then 0x82 else 0x81, payload);
            sock.offered == old(sock.offered) + [frame] &&
            old(sock.outgoing) <= sock.outgoing <= old(sock.outgoing) + frame &&
            (ok <==> sock.outgoing == old(sock.outgoing) + frame)
  {
    var frame := BuildFrame(payload, binary);
    var n := sock.Send(frame);
    ok := n == |frame|;
  }

  /** The payload loop with its short reads, then unmasking in place. */
  method ReadPayload(sock: Socket, n: nat, masked: bool, key: Bytes) returns (payload: Bytes, outcome: Outcome)
    requires masked ==> |key| == 4
    modifies sock`incoming, sock`failures
    ensures outcome.Received? || outcome.Lost?
    ensures outcome.Received? ==>
              n <= |old(sock.incoming)| && sock.incoming == old(sock.incoming)[n..] &&
              payload == if masked then Masked(old(sock.incoming)[..n], key) else old(sock.incoming)[..n]
    ensures outcome.Received? ==>
              |payload| == n && forall i :: 0 <= i < n ==>
                payload[i] == if masked then old(sock.incoming)[i] ^ key[i % 4] else old(sock.incoming)[i]
    ensures outcome.Lost? ==> payload == []
    ensures LeftOf(sock.incoming, old(sock.incoming)) && old(sock.failures) <= sock.failures
    ensures outcome.Lost? && sock.failures == old(sock.failures) ==> |old(sock.incoming)| < n
  {
    var buffer := new bv8[n](_ => 0);
    ghost var s := sock.incoming;
    var total := 0;
    while total < n
      invariant 0 <= total <= n && total <= |s|
      invariant buffer[..total] == s[..total] && sock.incoming == s[total..]
      invariant sock.failures == old(sock.failures)
      decreases n - total
    {
      var got := sock.Recv(n - total, 1);
      if |got| == 0 { return [], Lost; }
      forall i | 0 <= i < |got| { buffer[total + i] := got[i]; }
      assert s[total..] == got + sock.incoming;
      assert buffer[..total + |got|] == s[..total] + got;
      total := total + |got|;
    }
    ghost var body := s[..n];
    assert buffer[..] == body;
    if masked {
      for i := 0 to n
        invariant sock.incoming == s[n..] && sock.failures == old(sock.failures)
        invariant forall j :: 0 <= j < i ==> buffer[j] == body[j] ^ key[j % 4]
        invariant forall j :: i <= j < n ==> buffer[j] == body[j]
      {
        buffer[i] := buffer[i] ^ key[i % 4];
      }
      assert buffer[..] == Masked(body, key);
    }
    return buffer[..], Received;
  }

  /** The length itself, or the 2 or 8 bytes a marker announces. */
  method ReadLength(sock: Socket, n7: nat) returns (n: nat, ok: bool)
    requires n7 < 128
    modifies sock`incoming, sock`failures
    ensures ok ==>
              var k := Extension(n7);
              k <= |old(sock.incoming)| && sock.incoming == old(sock.incoming)[k..] &&
              n == if k == 0 then n7 else FromBigEndian(old(sock.incoming)[..k])
    ensures LeftOf(sock.incoming, old(sock.incoming)) && old(sock.failures) <= sock.failures
    ensures sock.failures == old(sock.failures) ==> (ok <==> Extension(n7) <= |old(sock.incoming)|)
  {
    ghost var s := sock.incoming;
    n := n7;
    if n7 == 126 {
      var ext := sock.Recv(2, 2);
      if |ext| != 2 { return n, false; }
      assert ext == s[..2] && sock.incoming == s[2..];
      n := ext[0] as nat * 256 + ext[1] as nat;
      assert ext[..1] == [ext[0]] && FromBigEndian([ext[0]]) == ext[0] as nat;
    } else if n7 == 127 {
      var ext := sock.Recv(8, 8);
      if |ext| != 8 { return n, false; }
      assert ext == s[..8] && sock.incoming == s[8..];
      n := Accumulate(ext);
    }
    return n, true;
  }

  method Accumulate(ext: Bytes) returns (n: nat)
    ensures n == FromBigEndian(ext)
  {
    n := 0;
    for i := 0 to |ext|
      invariant n == FromBigEndian(ext[..i])
    {
      assert ext[..i + 1][..i] == ext[..i];
      n := n * 256 + ext[i] as nat;
    }
    assert ext[..|ext|] == ext;
  }

  lemma BehindLength(masked: bool, n7: nat, s: Bytes, n: nat, rest: Bytes, room: nat)
    requires Extension(n7) <= |s| && rest == s[Extension(n7)..]
    requires n == if Extension(n7) == 0 then n7 else FromBigEndian(s[..Extension(n7)])
    ensures ParseData(masked, n7, s, room) == ParseBody(masked, n, rest, room)
  {}

  lemma BehindKey(n: nat, s: Bytes, key: Bytes, rest: Bytes, room: nat)
    requires |s| >= 4 && key == s[..4] && rest == s[4..]
    ensures ParseBody(true, n, s, room) ==
            if n > room then TooLong(rest)
            else if |rest| < n then Incomplete else Data(Masked(rest[..n], key), rest[n..])
  {}

  lemma Unmasked(n: nat, s: Bytes, room: nat)
    ensures ParseBody(false, n, s, room) ==
            if n > room then TooLong(s) else if |s| < n then Incomplete else Data(s[..n], s[n..])
  {
    assert s[0..] == s;
  }

  /**
   Mask key, string and payload of a data frame. A short read of the key gives up; a string
   that is too long throws.
   */
  method ReadBody(sock: Socket, masked: bool, n: nat, room: nat) returns (payload: Bytes, outcome: Outcome)
    modifies sock`incoming, sock`failures
    ensures !outcome.Closed? && (!outcome.Received? ==> payload == [])
    ensures !outcome.Lost? ==>
              ParseBody(masked, n, old(sock.incoming), room) == ResultOf(outcome, payload, sock.incoming)
    ensures LeftOf(sock.incoming, old(sock.incoming)) && old(sock.failures) <= sock.failures
    ensures outcome.Lost? && sock.failures == old(sock.failures) ==>
              ParseBody(masked, n, old(sock.incoming), room) == Incomplete
  {
    ghost var s := sock.incoming;
    if !masked {
      Unmasked(n, s, room);
      if n > room { return [], Threw; }
      payload, outcome := ReadPayload(sock, n, false, []);
      return;
    }
    var key := sock.Recv(4, 4);
    if |key| != 4 { return [], Lost; }
    ghost var rest := sock.incoming;
    Cut(key, rest);
    BehindKey(n, s, key, rest, room);
    if n > room { return [], Threw; }
    payload, outcome := ReadPayload(sock, n, true, key);
    LeftOfLeft(sock.incoming, rest, s);
  }

  /** Extended length, mask key and payload of a data frame. A short read of a fixed-size field gives up. */
  method ReadData(sock: Socket, masked: bool, n7: nat, room: nat) returns (payload: Bytes, outcome: Outcome)
    requires n7 < 128
    modifies sock`incoming, sock`failures
    ensures !outcome.Closed? && (!outcome.Received? ==> payload == [])
    ensures !outcome.Lost? ==>
              ParseData(masked, n7, old(sock.incoming), room) == ResultOf(outcome, payload, sock.incoming)
    ensures LeftOf(sock.incoming, old(sock.incoming)) && old(sock.failures) <= sock.failures
    ensures outcome.Lost? && sock.failures == old(sock.failures) ==>
              ParseData(masked, n7, old(sock.incoming), room) == Incomplete
  {
    ghost var s := sock.incoming;
    var n, ok := ReadLength(sock, n7);
    if !ok { return [], Lost; }
    ghost var rest := sock.incoming;
    BehindLength(masked, n7, s, n, rest, room);
    payload, outcome := ReadBody(sock, masked, n, room);
    LeftOfLeft(sock.incoming, rest, s);
  }

  /** The answer to a ping: its own bytes under the announced length; bytes that never came are zero. */
  function Pong(n7: nat, s: Bytes): Bytes {
    [0x8A, Byte(n7)] + if n7 <= |s| then s[..n7] else s + seq(n7 - |s|, _ => 0)
  }

  /** What the reader sends back up to the next data frame. */
  function Replies(s: Bytes): seq<Bytes>
    decreases |s|
  {
    if |s| < 2 then []
    else if Opcode(s[0]) == 8 then [[0x88, 0x00]]
    else if Opcode(s[0]) == 9 then
      [Pong(Length7(s[1]), s[2..])] +
      if |s| < 2 + Length7(s[1]) then [] else Replies(s[2..][Length7(s[1])..])
    else []
  }

  function BehindPing(n7: nat, s: Bytes): Bytes {
    if n7 <= |s| then s[n7..] else []
  }

  lemma PingStep(s: Bytes, rest: Bytes, room: nat)
    requires |s| >= 2 && Opcode(s[0]) == 9 && rest == s[2..]
    ensures Parse(s, room) == Parse(BehindPing(Length7(s[1]), rest), room)
    ensures Replies(s) == [Pong(Length7(s[1]), rest)] + Replies(BehindPing(Length7(s[1]), rest))
  {}

  /** One recv for a ping's data, and a pong of the announced length. */
  method AnswerPing(sock: Socket, n7: nat)
    modifies sock
    ensures LeftOf(sock.incoming, old(sock.incoming)) && old(sock.failures) <= sock.failures
    ensures sock.failures == old(sock.failures) ==>
              sock.incoming == BehindPing(n7, old(sock.incoming)) &&
              sock.offered == old(sock.offered) + [Pong(n7, old(sock.incoming))]
  {
    ghost var s := sock.incoming;
    var data := sock.Recv(n7, n7);
    var missing := n7 - |data|;
    assert missing == 0 ==> data == s[..n7] && sock.incoming == s[n7..];
    assert sock.incoming == [] ==> data == s;
    var _ := sock.Send([0x8A, Byte(n7)] + (data + seq(missing, _ => 0)));
    assert missing == 0 ==> data + seq(missing, _ => 0) == data;
  }

  lemma ReadLater(t: Bytes, s: Bytes, room: nat, parsed: Parsed)
    requires LeftOf(t, s) && ReadSomewhere(t, room, parsed)
    ensures ReadSomewhere(s, room, parsed)
  {
    forall u | LeftOf(u, t) ensures LeftOf(u, s) { LeftOfLeft(u, t, s); }
  }

  /** A ping is answered, and the frame behind it is read. */
  method RecvBehindPing(sock: Socket, n7: nat, room: nat) returns (payload: Bytes, outcome: Outcome)
    modifies sock
    ensures sock.failures == old(sock.failures) ==>
              Parse(BehindPing(n7, old(sock.incoming)), room) == ResultOf(outcome, payload, sock.incoming) &&
              sock.offered == old(sock.offered) +
                              ([Pong(n7, old(sock.incoming))] + Replies(BehindPing(n7, old(sock.incoming))))
    ensures !outcome.Received? ==> payload == []
    ensures !outcome.Lost? ==> ReadSomewhere(old(sock.incoming), room, ResultOf(outcome, payload, sock.incoming))
    ensures LeftOf(sock.incoming, old(sock.incoming)) && old(sock.failures) <= sock.failures
    decreases |sock.incoming|, 1
  {
    ghost var s, replies := sock.incoming, sock.offered;
    AnswerPing(sock, n7);
    ghost var t := sock.incoming;
    payload, outcome := RecvFrame(sock, room);
    Regroup(replies, [Pong(n7, s)], Replies(BehindPing(n7, s)));
    if !outcome.Lost? {
      ReadLater(t, s, room, ResultOf(outcome, payload, sock.incoming));
    }
    LeftOfLeft(sock.incoming, t, s);
  }

  /**
   Reads up to the next data or close frame; pings are answered and skipped.
   Unless a read brought too little, the result is what the bytes parse to,
   however the payload was cut. In any case bytes are only taken from the front,
   and what ends the call, if it is not lost, starts at some place of the stream.
   */
  method RecvFrame(sock: Socket, room: nat) returns (payload: Bytes, outcome: Outcome)
    modifies sock
    ensures sock.failures == old(sock.failures) ==>
              Parse(old(sock.incoming), room) == ResultOf(outcome, payload, sock.incoming) &&
              sock.offered == old(sock.offered) + Replies(old(sock.incoming))
    ensures !outcome.Received? ==> payload == []
    ensures !outcome.Lost? ==> ReadSomewhere(old(sock.incoming), room, ResultOf(outcome, payload, sock.incoming))
    ensures LeftOf(sock.incoming, old(sock.incoming)) && old(sock.failures) <= sock.failures
    decreases |sock.incoming|, 0
  {
    ghost var s := sock.incoming;
    var header := sock.Recv(2, 2);
    if |header| < 2 { return [], Lost; }
    ghost var rest := sock.incoming;
    Cut(header, rest);
    assert rest == s[2..] && LeftOf(rest, s) && LeftOf(s, s);
    if Opcode(header[0]) == 8 {
      var _ := sock.Send([0x88, 0x00]);
      return [], Closed;
    }
    var n7 := Length7(header[1]);
    if Opcode(header[0]) == 9 {
      PingStep(s, rest, room);
      payload, outcome := RecvBehindPing(sock, n7, room);
      if !outcome.Lost? {
        ReadLater(rest, s, room, ResultOf(outcome, payload, sock.incoming));
      }
    } else {
      payload, outcome := ReadData(sock, Flagged(header[1]), n7, room);
    }
    LeftOfLeft(sock.incoming, rest, s);
  }

  // ---------- round trip ----------

  lemma {:induction false} BigEndianBack(n: nat, k: nat)
    requires n < Power256(k)
    ensures |BigEndian(n, k)| == k && FromBigEndian(BigEndian(n, k)) == n
  {
    if k > 0 {
      BigEndianBack(n / 256, k - 1);
      ByteBack(n);
      assert BigEndian(n, k)[..k - 1] == BigEndian(n / 256, k - 1);
    }
  }

  lemma Markers(flag: bv8)
    requires flag == 0 || flag == 0x80
    ensures Length7(flag | 126) == 126 && Length7(flag | 127) == 127
    ensures Flagged(flag | 126) == Flagged(flag | 127) == (flag == 0x80)
  {}

  lemma PowersOf256()
    ensures Power256(2) == 65536 && Power256(8) == SIZE_LIMIT
  {
    assert Power256(4) == 65536 * 65536;
    assert Power256(6) == 65536 * 65536 * 65536;
  }

  /** A marker byte and the big-endian length behind it. */
  lemma ExtendedBack(n: nat, k: nat, marker: bv8)
    requires n < Power256(k)
    ensures var field := [marker] + BigEndian(n, k);
            |field| == 1 + k && field[0] == marker && FromBigEndian(field[1..]) == n
  {
    BigEndianBack(n, k);
    assert ([marker] + BigEndian(n, k))[1..] == BigEndian(n, k);
  }

  /** Reading a length field back, in each of its three forms. */
  lemma LengthBack(n: nat, flag: bv8)
    requires n < SIZE_LIMIT && (flag == 0 || flag == 0x80)
    ensures var field := LengthField(n, flag);
            var n7 := Length7(field[0]);
            Flagged(field[0]) == (flag == 0x80) && |field| == 1 + Extension(n7) &&
            n == if Extension(n7) == 0 then n7 else FromBigEndian(field[1..])
  {
    PowersOf256();
    Markers(flag);
    if n < 126 {
      FlagBits(n);
    } else if n < 65536 {
      ExtendedBack(n, 2, flag | 126);
    } else {
      ExtendedBack(n, 8, flag | 127);
    }
  }

  lemma UnmaskMasked(payload: Bytes, key: Bytes)
    requires |key| == 4
    ensures Masked(Masked(payload, key), key) == payload
  {
    forall i | 0 <= i < |payload| ensures Masked(Masked(payload, key), key)[i] == payload[i] {
      XorTwice(payload[i], key[i % 4]);
    }
  }

  lemma XorTwice(b: bv8, k: bv8)
    ensures (b ^ k) ^ k == b
  {}

  lemma ParseHead(first: bv8, field: Bytes, body: Bytes, room: nat)
    requires Opcode(first) !in {8, 9} && field != []
    ensures Parse([first] + field + body, room) ==
            ParseData(Flagged(field[0]), Length7(field[0]), field[1..] + body, room)
  {
    var s := [first] + field + body;
    assert s[0] == first && s[1] == field[0];
    assert s[2..] == field[1..] + body;
  }

  lemma ParseExtension(flagged: bool, n7: nat, ext: Bytes, body: Bytes, room: nat)
    requires |ext| == Extension(n7)
    ensures ParseData(flagged, n7, ext + body, room) ==
            ParseBody(flagged, if ext == [] then n7 else FromBigEndian(ext), body, room)
  {
    Cut(ext, body);
  }

  /** A stream that starts with a first byte, a length field and a body parses by its parts. */
  lemma ParseParts(first: bv8, n: nat, flag: bv8, body: Bytes, room: nat)
    requires Opcode(first) !in {8, 9}
    requires n < SIZE_LIMIT && (flag == 0 || flag == 0x80)
    ensures Parse([first] + LengthField(n, flag) + body, room) == ParseBody(flag == 0x80, n, body, room)
  {
    LengthBack(n, flag);
    var field := LengthField(n, flag);
    ParseHead(first, field, body, room);
    ParseExtension(Flagged(field[0]), Length7(field[0]), field[1..], body, room);
  }

  /**
   Receiving a sent frame yields its payload and consumes exactly its bytes, in all three
   length forms, or throws in front of the payload if no string can be that long.
   */
  lemma FrameRoundTrip(first: bv8, payload: Bytes, rest: Bytes, room: nat)
    requires Opcode(first) !in {8, 9} && |payload| < SIZE_LIMIT
    ensures Parse(Frame(first, payload) + rest, room) ==
            if |payload| <= room then Data(payload, rest) else TooLong(payload + rest)
  {
    Regroup([first] + LengthField(|payload|, 0), payload, rest);
    ParseParts(first, |payload|, 0, payload + rest, room);
    Unmasked(|payload|, payload + rest, room);
    Cut(payload, rest);
  }

  /** The same for a frame masked with any key. */
  lemma MaskedRoundTrip(first: bv8, payload: Bytes, key: Bytes, rest: Bytes, room: nat)
    requires Opcode(first) !in {8, 9} && |payload| < SIZE_LIMIT && |key| == 4
    ensures Parse(MaskedFrame(first, payload, key) + rest, room) ==
            if |payload| <= room then Data(payload, rest) else TooLong(Masked(payload, key) + rest)
  {
    var masked, body := Masked(payload, key), Masked(payload, key) + rest;
    var head := [first] + LengthField(|payload|, 0x80);
    FourParts(head, key, masked, rest);
    ParseParts(first, |payload|, 0x80, key + body, room);
    Cut(key, body);
    BehindKey(|payload|, key + body, key, body, room);
    Cut(masked, rest);
    UnmaskMasked(payload, key);
  }

  lemma FourParts(a: Bytes, b: Bytes, c: Bytes, d: Bytes)
    ensures a + b + c + d == a + (b + (c + d))
  {}

  // ---------- a connection ----------

  lemma {:induction false} ParseShrinks(s: Bytes, room: nat)
    requires Parse(s, room).Data?
    ensures |Parse(s, room).rest| < |s|
    decreases |s|
  {
    if Opcode(s[0]) == 9 {
      ParseShrinks(s[2..][Length7(s[1])..], room);
    }
  }

  /** The messages the connection loop handles: it stops at the first empty one. */
  function Messages(s: Bytes, room: nat): seq<Bytes>
    decreases |s|
  {
    match Parse(s, room)
    case Data(payload, rest) =>
      ParseShrinks(s, room);
      if payload == [] then [] else [payload] + Messages(rest, room)
    case _ => []
  }

  /** The loop ends by an exception. */
  predicate EndsInThrow(s: Bytes, room: nat)
    decreases |s|
  {
    match Parse(s, room)
    case Data(payload, rest) =>
      ParseShrinks(s, room);
      payload != [] && EndsInThrow(rest, room)
    case TooLong(_) => true
    case _ => false
  }

  lemma MessageStep(s: Bytes, room: nat, payload: Bytes, rest: Bytes)
    requires Parse(s, room) == Data(payload, rest) && payload != []
    ensures Messages(s, room) == [payload] + Messages(rest, room)
    ensures EndsInThrow(s, room) == EndsInThrow(rest, room)
  {
    ParseShrinks(s, room);
  }

  /** The connection loop, for a server that is stopped after the given number of messages. */
  method HandleConnection(sock: Socket, rounds: nat, room: nat) returns (handled: seq<Bytes>, threw: bool)
    modifies sock
    ensures sock.failures == old(sock.failures) ==>
              var ms := Messages(old(sock.incoming), room);
              handled == (if |ms| <= rounds then ms else ms[..rounds]) &&
              (threw <==> |ms| < rounds && EndsInThrow(old(sock.incoming), room))
  {
    handled, threw := [], false;
    while |handled| < rounds
      invariant old(sock.failures) <= sock.failures && |handled| <= rounds
      invariant sock.failures == old(sock.failures) ==>
                  handled + Messages(sock.incoming, room) == Messages(old(sock.incoming), room) &&
                  EndsInThrow(sock.incoming, room) == EndsInThrow(old(sock.incoming), room)
    {
      ghost var s := sock.incoming;
      ghost var before := sock.failures;
      var frame, outcome := RecvFrame(sock, room);
      if outcome.Threw? { return handled, true; }
      if frame == [] { break; }
      if sock.failures == before {
        MessageStep(s, room, frame, sock.incoming);
      }
      Regroup(handled, [frame], Messages(sock.incoming, room));
      handled := handled + [frame];
    }
  }

  /** What a peer sends: messages, masked with a key of their own or not, unmasked pings, and close frames. */
  datatype Sent =
    | Message(first: bv8, payload: Bytes, key: Option<Bytes>)
    | Ping(first: bv8, payload: Bytes)
    | Closing(first: bv8, second: bv8)

  predicate Conforms(f: Sent) {
    match f
    case Message(first, payload, key) =>
      Opcode(first) !in {8, 9} && |payload| < SIZE_LIMIT && (key.Some? ==> |key.value| == 4)
    case Ping(first, payload) => Opcode(first) == 9 && |payload| < 126
    case Closing(first, second) => Opcode(first) == 8
  }

  function Wire(f: Sent): Bytes
    requires Conforms(f)
  {
    match f
    case Message(first, payload, key) =>
      if key.None? then Frame(first, payload) else MaskedFrame(first, payload, key.value)
    case Ping(first, payload) => Frame(first, payload)
    case Closing(first, second) => [first, second]
  }

  ghost predicate AllConform(fs: seq<Sent>) {
    forall i :: 0 <= i < |fs| ==> Conforms(fs[i])
  }

  ghost function WireAll(fs: seq<Sent>): Bytes
    requires AllConform(fs)
  {
    if fs == [] then [] else Wire(fs[0]) + WireAll(fs[1..])
  }

  /** The loop goes on behind this message. */
  predicate Fits(payload: Bytes, room: nat) {
    payload != [] && |payload| <= room
  }

  /** The messages up to the first that is empty or too long, or a close frame. */
  function Handled(fs: seq<Sent>, room: nat): seq<Bytes> {
    if fs == [] then []
    else
      match fs[0]
      case Message(_, payload, _) => if Fits(payload, room) then [payload] + Handled(fs[1..], room) else []
      case Ping(_, _) => Handled(fs[1..], room)
      case Closing(_, _) => []
  }

  lemma MessageArrives(f: Sent, rest: Bytes, room: nat)
    requires f.Message? && Conforms(f)
    ensures Messages(Wire(f) + rest, room) ==
            if Fits(f.payload, room) then [f.payload] + Messages(rest, room) else []
  {
    if f.key.None? {
      FrameRoundTrip(f.first, f.payload, rest, room);
    } else {
      MaskedRoundTrip(f.first, f.payload, f.key.value, rest, room);
    }
    if Fits(f.payload, room) {
      MessageStep(Wire(f) + rest, room, f.payload, rest);
    }
  }

  lemma SameParseSameMessages(s: Bytes, t: Bytes, room: nat)
    requires Parse(s, room) == Parse(t, room)
    ensures Messages(s, room) == Messages(t, room)
  {}

  lemma ClosingEnds(f: Sent, rest: Bytes, room: nat)
    requires f.Closing? && Conforms(f)
    ensures Messages(Wire(f) + rest, room) == []
  {
    assert (Wire(f) + rest)[0] == f.first;
    assert Parse(Wire(f) + rest, room).CloseFrame?;
  }

  /**
   Whatever a peer sends, masked or not, text or binary, with pings in between: the loop
   handles its messages in order.
   */
  lemma {:induction false} ConnectionHandles(fs: seq<Sent>, room: nat)
    requires AllConform(fs)
    ensures Messages(WireAll(fs), room) == Handled(fs, room)
    decreases |fs|
  {
    if fs != [] {
      var f, rest := fs[0], WireAll(fs[1..]);
      ConnectionHandles(fs[1..], room);
      match f {
        case Message(_, _, _) => MessageArrives(f, rest, room);
        case Ping(first, payload) =>
          UnmaskedPingSkipped(first, payload, rest, room);
          SameParseSameMessages(Wire(f) + rest, rest, room);
        case Closing(_, _) => ClosingEnds(f, rest, room);
      }
    }
  }

  /** All messages that were sent. */
  function Payloads(fs: seq<Sent>): seq<Bytes> {
    if fs == [] then []
    else (if fs[0].Message? then [fs[0].payload] else []) + Payloads(fs[1..])
  }

  /** Every message fits, and none is sent behind a close frame. */
  predicate AllFit(fs: seq<Sent>, room: nat) {
    fs == [] ||
    match fs[0]
    case Message(_, payload, _) => Fits(payload, room) && AllFit(fs[1..], room)
    case Ping(_, _) => AllFit(fs[1..], room)
    case Closing(_, _) => Payloads(fs[1..]) == []
  }

  lemma {:induction false} HandledIsAllIff(fs: seq<Sent>, room: nat)
    ensures Handled(fs, room) == Payloads(fs) <==> AllFit(fs, room)
    decreases |fs|
  {
    if fs != [] {
      HandledIsAllIff(fs[1..], room);
      if fs[0].Message? && Fits(fs[0].payload, room) {
        Cut([fs[0].payload], Handled(fs[1..], room));
        Cut([fs[0].payload], Payloads(fs[1..]));
      }
    }
  }

  /**
   Every message arrives exactly when none is empty, none is too long for a string, and none
   comes behind a close frame.
   */
  lemma AllMessagesArriveIff(fs: seq<Sent>, room: nat)
    requires AllConform(fs)
    ensures Messages(WireAll(fs), room) == Payloads(fs) <==> AllFit(fs, room)
  {
    ConnectionHandles(fs, room);
    HandledIsAllIff(fs, room);
  }

  // ---------- pings ----------

  lemma PongIsFrame(data: Bytes, more: Bytes)
    requires |data| < 126
    ensures Pong(|data|, data + more) == Frame(0x8A, data)
  {
    FlagBits(|data|);
    Cut(data, more);
    assert [0x8A, Byte(|data|)] == [0x8A] + [Byte(|data|)];
  }

  /** A ping with the given length is answered by a pong frame with as many of the bytes behind its header. */
  lemma PingAnswer(first: bv8, second: bv8, data: Bytes, more: Bytes)
    requires Opcode(first) == 9 && Length7(second) == |data| < 126
    ensures Replies([first, second] + (data + more)) == [Frame(0x8A, data)] + Replies(more)
  {
    var s := [first, second] + (data + more);
    assert s[2..] == data + more;
    PingStep(s, data + more, 0);
    PongIsFrame(data, more);
    Cut(data, more);
  }

  lemma EmptyCloseFrame()
    ensures Frame(0x88, []) == [0x88, 0x00]
  {
    FlagBits(0);
    assert LengthField(0, 0) == [Byte(0)];
  }

  lemma OtherAnswer(s: Bytes)
    requires |s| >= 2 && Opcode(s[0]) != 9
    ensures Replies(s) == if Opcode(s[0]) == 8 then [Frame(0x88, [])] else []
  {
    EmptyCloseFrame();
  }

  /** An unmasked ping is answered by a pong frame with its data, and a close frame by an empty close frame. */
  lemma AnswersAreFrames(first: bv8, payload: Bytes, rest: Bytes)
    requires |payload| < 126
    ensures Opcode(first) == 9 ==>
              Replies(Frame(first, payload) + rest) == [Frame(0x8A, payload)] + Replies(rest)
    ensures Opcode(first) == 8 ==> Replies(Frame(first, payload) + rest) == [Frame(0x88, [])]
    ensures Opcode(first) !in {8, 9} ==> Replies(Frame(first, payload) + rest) == []
  {
    var n := |payload|;
    FlagBits(n);
    TwoInFront(first, Byte(n), payload, rest);
    if Opcode(first) == 9 {
      PingAnswer(first, Byte(n), payload, rest);
    } else {
      assert (Frame(first, payload) + rest)[0] == first;
      OtherAnswer(Frame(first, payload) + rest);
    }
  }

  /** A masked ping is answered too early: the key and the front of the masked data come back as its data. */
  lemma MaskedPingAnswer(first: bv8, payload: Bytes, key: Bytes, rest: Bytes)
    requires Opcode(first) == 9 && |payload| < 126 && |key| == 4
    ensures var body := key + Masked(payload, key);
            Replies(MaskedFrame(first, payload, key) + rest) ==
            [Frame(0x8A, body[..|payload|])] + Replies(body[|payload|..] + rest)
  {
    var n, second := |payload|, 0x80 | Byte(|payload|);
    FlagBits(n);
    var body := key + Masked(payload, key);
    Regroup([first] + [second], key, Masked(payload, key));
    TwoInFront(first, second, body, rest);
    AroundCut(body, rest, n);
    PingAnswer(first, second, body[..n], body[n..] + rest);
  }

  lemma AroundCut(body: Bytes, rest: Bytes, n: nat)
    requires n <= |body|
    ensures body + rest == body[..n] + (body[n..] + rest)
  {}

  lemma SkipPing(first: bv8, second: bv8, s: Bytes, room: nat)
    requires Opcode(first) == 9 && Length7(second) <= |s|
    ensures Parse([first, second] + s, room) == Parse(s[Length7(second)..], room)
  {
    assert ([first, second] + s)[2..] == s;
  }

  lemma TwoInFront(first: bv8, second: bv8, body: Bytes, rest: Bytes)
    ensures [first] + [second] + body + rest == [first, second] + (body + rest)
  {}

  /** An unmasked ping is skipped as a whole. */
  lemma UnmaskedPingSkipped(first: bv8, payload: Bytes, rest: Bytes, room: nat)
    requires Opcode(first) == 9 && |payload| < 126
    ensures Parse(Frame(first, payload) + rest, room) == Parse(rest, room)
  {
    FlagBits(|payload|);
    TwoInFront(first, Byte(|payload|), payload, rest);
    SkipPing(first, Byte(|payload|), payload + rest, room);
    Cut(payload, rest);
  }

  /** A client's ping is masked; its last four bytes stay in front of the next frame. */
  lemma MaskedPingLeavesFourBytes(first: bv8, payload: Bytes, key: Bytes, rest: Bytes, room: nat)
    requires Opcode(first) == 9 && |payload| < 126 && |key| == 4
    ensures |MaskedFrame(first, payload, key)| == 6 + |payload|
    ensures Parse(MaskedFrame(first, payload, key) + rest, room) ==
            Parse((key + Masked(payload, key))[|payload|..] + rest, room)
  {
    var n, second := |payload|, 0x80 | Byte(|payload|);
    FlagBits(n);
    var body := key + Masked(payload, key);
    Regroup([first] + [second], key, Masked(payload, key));
    TwoInFront(first, second, body, rest);
    SkipPing(first, second, body + rest, room);
    Extend(body, rest, 0, n);
  }
}
