/** Both base64 codecs (section 4 of RFC 4648): the crypto utilities' and the bridge server's. */
module Base64 {
  import opened Wrappers

  type sextet = v: bv8 | v < 64

  // ---------- the alphabet ----------

  const UPPER := "ABCDEFGHIJKLM" + "NOPQRSTUVWXYZ"
  const LOWER := "abcdefghijklm" + "nopqrstuvwxyz"
  const CHARS := UPPER + LOWER + "0123456789" + "+/"

  /** The character at place i of the alphabet. */
  function Letter(i: nat): char
    requires i < 64
  {
    if i < 26 then 'A' + i as char
    else if i < 52 then 'a' + (i - 26) as char
    else if i < 62 then '0' + (i - 52) as char
    else if i == 62 then '+'
    else '/'
  }

  lemma UpperRow(i: nat)
    requires i < 26
    ensures |CHARS| == 64 && CHARS[i] == Letter(i)
  {
    assert CHARS[i] == UPPER[i];
    assert i < 13 ==> UPPER[i] == "ABCDEFGHIJKLM"[i];
    assert i >= 13 ==> UPPER[i] == "NOPQRSTUVWXYZ"[i - 13];
  }

  lemma LowerRow(i: nat)
    requires i < 26
    ensures |CHARS| == 64 && CHARS[i + 26] == Letter(i + 26)
  {
    assert CHARS[i + 26] == LOWER[i];
    assert i < 13 ==> LOWER[i] == "abcdefghijklm"[i];
    assert i >= 13 ==> LOWER[i] == "nopqrstuvwxyz"[i - 13];
  }

  lemma LastRows(i: nat)
    requires i < 12
    ensures |CHARS| == 64 && CHARS[i + 52] == Letter(i + 52)
  {
    assert i < 10 ==> CHARS[i + 52] == "0123456789"[i];
    assert i >= 10 ==> CHARS[i + 52] == "+/"[i - 10];
  }

  /** The table both sources index, letter by letter. */
  lemma Alphabet(i: nat)
    requires i < 64
    ensures |CHARS| == 64 && CHARS[i] == Letter(i)
  {
    if i < 26 { UpperRow(i); } else if i < 52 { LowerRow(i - 26); } else { LastRows(i - 52); }
  }

  /** The decoders' table: the place of a character in the alphabet, -1 for every other. */
  function Lookup(c: char): (i: int)
    ensures -1 <= i < 64
    ensures i != -1 ==> Letter(i) == c
  {
    if 'A' <= c <= 'Z' then c as int - 'A' as int
    else if 'a' <= c <= 'z' then c as int - 'a' as int + 26
    else if '0' <= c <= '9' then c as int - '0' as int + 52
    else if c == '+' then 62
    else if c == '/' then 63
    else -1
  }

  lemma LookupOfLetter(i: nat)
    requires i < 64
    ensures Lookup(Letter(i)) == i && Letter(i) != '='
  {}

  function CharOf(v: sextet): char {
    Letter(v as nat)
  }

  function Value(c: char): sextet
    requires Lookup(c) != -1
  {
    Lookup(c) as bv8
  }

  lemma ValueOfChar(v: sextet)
    ensures Lookup(CharOf(v)) != -1 && Value(CharOf(v)) == v && CharOf(v) != '='
  {
    LookupOfLetter(v as nat);
  }

  // ---------- encoding ----------

  // The four 6-bit groups of a byte triple.
  function First(a: bv8): sextet { (a & 0xFC) >> 2 }
  function Second(a: bv8, b: bv8): sextet { ((a & 0x03) << 4) | ((b & 0xF0) >> 4) }
  function Third(b: bv8, c: bv8): sextet { ((b & 0x0F) << 2) | ((c & 0xC0) >> 6) }
  function Fourth(c: bv8): sextet { c & 0x3F }

  /** The groups of the first three bytes, fewer if fewer are left; missing bits are zero. */
  function Quad(data: seq<bv8>): seq<sextet>
    requires data != []
  {
    if |data| == 1 then [First(data[0]), Second(data[0], 0)]
    else if |data| == 2 then [First(data[0]), Second(data[0], data[1]), Third(data[1], 0)]
    else [First(data[0]), Second(data[0], data[1]), Third(data[1], data[2]), Fourth(data[2])]
  }

  /** The 6-bit groups of the data. */
  function Groups(data: seq<bv8>): seq<sextet> {
    if |data| == 0 then []
    else if |data| <= 3 then Quad(data)
    else Quad(data) + Groups(data[3..])
  }

  function Spell(vs: seq<sextet>): string {
    if vs == [] then "" else [CharOf(vs[0])] + Spell(vs[1..])
  }

  function Padding(groups: nat): string {
    if groups % 4 == 2 then "==" else if groups % 4 == 3 then "=" else ""
  }

  function Padded(vs: seq<sextet>): string {
    Spell(vs) + Padding(|vs|)
  }

  function Encode(data: seq<bv8>): string {
    Padded(Groups(data))
  }

  lemma {:induction false} SpellConcat(vs: seq<sextet>, ws: seq<sextet>)
    ensures Spell(vs + ws) == Spell(vs) + Spell(ws) && |Spell(vs)| == |vs|
    decreases |vs|
  {
    if vs == [] {
      assert vs + ws == ws;
    } else {
      SpellConcat(vs[1..], ws);
      assert (vs + ws)[1..] == vs[1..] + ws;
      Regroup([CharOf(vs[0])], Spell(vs[1..]), Spell(ws));
    }
  }

  lemma GroupsStep(data: seq<bv8>)
    requires |data| >= 3
    ensures Groups(data) == Quad(data) + Groups(data[3..])
  {
    assert Quad(data) + [] == Quad(data);
  }

  /** Behind four characters the padding is the same. */
  lemma PaddedConcat(quad: seq<sextet>, vs: seq<sextet>)
    requires |quad| == 4
    ensures Padded(quad + vs) == Padded(quad) + Padded(vs)
  {
    SpellConcat(quad, vs);
    assert Padded(quad) == Spell(quad);
    Regroup(Spell(quad), Spell(vs), Padding(|vs|));
  }

  /** Encoding goes three bytes and four characters at a time. */
  lemma EncodeStep(data: seq<bv8>)
    requires data != []
    ensures |data| <= 3 ==> Encode(data) == Padded(Quad(data))
    ensures |data| >= 3 ==> Encode(data) == Padded(Quad(data)) + Encode(data[3..])
    ensures |Padded(Quad(data))| == 4
  {
    SpellConcat(Quad(data), []);
    if |data| >= 3 {
      GroupsStep(data);
      PaddedConcat(Quad(data), Groups(data[3..]));
    }
  }

  lemma {:induction false} EncodedLength(data: seq<bv8>)
    ensures |Encode(data)| == 4 * ((|data| + 2) / 3)
    decreases |data|
  {
    if data != [] {
      EncodeStep(data);
      if |data| >= 3 {
        EncodedLength(data[3..]);
      }
    }
  }

  lemma {:induction false} GroupCount(data: seq<bv8>)
    ensures |Groups(data)| == (4 * |data| + 2) / 3
    decreases |data|
  {
    if |data| >= 3 {
      GroupsStep(data);
      GroupCount(data[3..]);
      assert 4 * |data| + 2 == 4 * |data[3..]| + 2 + 3 * 4;
    }
  }

  lemma {:induction false} SpellAt(vs: seq<sextet>, i: nat)
    requires i < |vs|
    ensures |Spell(vs)| == |vs| && Spell(vs)[i] == CharOf(vs[i])
    decreases |vs|
  {
    SpellConcat(vs, []);
    if i > 0 {
      SpellAt(vs[1..], i - 1);
    }
  }

  lemma LetterIsNoPadding(v: sextet)
    ensures CharOf(v) in CHARS && CharOf(v) != '='
  {
    Alphabet(v as nat);
    LookupOfLetter(v as nat);
  }

  /** The encoding of n bytes: letters of the table, and '=' exactly where a group of four is filled up. */
  ghost predicate PaddedBehind(text: string, n: nat) {
    |text| == 4 * ((n + 2) / 3) &&
    forall i :: 0 <= i < |text| ==> if i >= (4 * n + 2) / 3 then text[i] == '=' else text[i] in CHARS && text[i] != '='
  }

  lemma EncodingIsPadded(data: seq<bv8>)
    ensures PaddedBehind(Encode(data), |data|)
  {
    var vs := Groups(data);
    EncodedLength(data);
    GroupCount(data);
    SpellConcat(vs, []);
    forall i | 0 <= i < |vs| ensures Encode(data)[i] in CHARS && Encode(data)[i] != '=' {
      SpellAt(vs, i);
      LetterIsNoPadding(vs[i]);
    }
  }

  // Shifts and masks as numbers.
  lemma ShiftTwo(x: bv8)
    ensures (x >> 2) as int == x as int / 4 && (x & 0x03) as int == x as int % 4
  {}

  lemma ShiftFour(x: bv8)
    ensures (x >> 4) as int == x as int / 16 && (x & 0x0F) as int == x as int % 16
  {}

  lemma ShiftSix(x: bv8)
    ensures (x >> 6) as int == x as int / 64 && (x & 0x3F) as int == x as int % 64
  {}

  lemma FirstIs(a: bv8)
    ensures First(a) as int == a as int / 4
  {
    assert First(a) == a >> 2;
    ShiftTwo(a);
  }

  lemma SecondIs(a: bv8, b: bv8)
    ensures Second(a, b) as int == a as int % 4 * 16 + b as int / 16
  {
    assert Second(a, b) >> 4 == a & 0x03 && Second(a, b) & 0x0F == b >> 4;
    ShiftFour(Second(a, b));
    ShiftTwo(a);
    ShiftFour(b);
  }

  lemma ThirdIs(b: bv8, c: bv8)
    ensures Third(b, c) as int == b as int % 16 * 4 + c as int / 64
  {
    assert Third(b, c) >> 2 == b & 0x0F && Third(b, c) & 0x03 == c >> 6;
    ShiftTwo(Third(b, c));
    ShiftFour(b);
    ShiftSix(c);
  }

  /** The digits as a number to the base 64. */
  function Number64(vs: seq<sextet>): nat {
    if vs == [] then 0 else Number64(vs[..|vs| - 1]) * 64 + vs[|vs| - 1] as nat
  }

  lemma NumberSnoc(vs: seq<sextet>, v: sextet)
    ensures Number64(vs + [v]) == Number64(vs) * 64 + v as nat
  {
    assert (vs + [v])[..|vs|] == vs;
  }

  lemma NumberOfTwo(a: sextet, b: sextet)
    ensures Number64([a, b]) == a as nat * 64 + b as nat
  {
    assert [] + [a] == [a] && [a] + [b] == [a, b];
    NumberSnoc([], a);
    NumberSnoc([a], b);
  }

  lemma NumberOfThree(a: sextet, b: sextet, c: sextet)
    ensures Number64([a, b, c]) == (a as nat * 64 + b as nat) * 64 + c as nat
  {
    assert [a, b] + [c] == [a, b, c];
    NumberOfTwo(a, b);
    NumberSnoc([a, b], c);
  }

  lemma NumberOfFour(a: sextet, b: sextet, c: sextet, d: sextet)
    ensures Number64([a, b, c, d]) == ((a as nat * 64 + b as nat) * 64 + c as nat) * 64 + d as nat
  {
    assert [a, b, c] + [d] == [a, b, c, d];
    NumberOfThree(a, b, c);
    NumberSnoc([a, b, c], d);
  }

  lemma TwoJoined(a: nat, b: nat)
    ensures (a / 4 * 64 + (a % 4 * 16 + b / 16)) * 16 + b % 16 == a * 256 + b
  {}

  lemma ThreeJoined(a: nat, b: nat, c: nat)
    ensures ((a / 4 * 64 + (a % 4 * 16 + b / 16)) * 64 + (b % 16 * 4 + c / 64)) * 64 + c % 64 == a * 65536 + b * 256 + c
  {
    TwoJoined(a, b);
    var p := a / 4 * 64 + (a % 4 * 16 + b / 16);
    assert (p * 64 + (b % 16 * 4 + c / 64)) * 64 + c % 64 == (p * 16 + b % 16) * 256 + (c / 64 * 64 + c % 64);
  }

  lemma OneByteNumber(a: bv8)
    ensures Number64([First(a), Second(a, 0)]) == a as nat * 16
  {
    NumberOfTwo(First(a), Second(a, 0));
    FirstIs(a);
    SecondIs(a, 0);
  }

  lemma TwoByteNumber(a: bv8, b: bv8)
    ensures Number64([First(a), Second(a, b), Third(b, 0)]) == (a as nat * 256 + b as nat) * 4
  {
    NumberOfThree(First(a), Second(a, b), Third(b, 0));
    FirstIs(a);
    SecondIs(a, b);
    ThirdIs(b, 0);
    TwoJoined(a as nat, b as nat);
  }

  lemma ThreeByteNumber(a: bv8, b: bv8, c: bv8)
    ensures Number64([First(a), Second(a, b), Third(b, c), Fourth(c)]) ==
            a as nat * 65536 + b as nat * 256 + c as nat
  {
    NumberOfFour(First(a), Second(a, b), Third(b, c), Fourth(c));
    FirstIs(a);
    SecondIs(a, b);
    ThirdIs(b, c);
    ShiftSix(c);
    ThreeJoined(a as nat, b as nat, c as nat);
  }

  /** A quad is the number its bytes make, with zero bits behind where bytes are missing. */
  lemma QuadNumber(data: seq<bv8>)
    requires data != []
    ensures Number64(Quad(data)) ==
            if |data| == 1 then data[0] as nat * 16
            else if |data| == 2 then (data[0] as nat * 256 + data[1] as nat) * 4
            else data[0] as nat * 65536 + data[1] as nat * 256 + data[2] as nat
  {
    if |data| == 1 {
      OneByteNumber(data[0]);
    } else if |data| == 2 {
      TwoByteNumber(data[0], data[1]);
    } else {
      ThreeByteNumber(data[0], data[1], data[2]);
    }
  }

  /** A word's low six bits. */
  function Low(w: bv32): sextet {
    (w & 0x3F) as bv8
  }

  function Triple(a: bv8, b: bv8, c: bv8): bv32 {
    ((a as bv32) << 16) | ((b as bv32) << 8) | (c as bv32)
  }

  /** A 24-bit triple cut with one mask gives the same groups as masking byte by byte. */
  lemma TripleGroups(a: bv8, b: bv8, c: bv8)
    ensures var t := Triple(a, b, c);
            Low(t >> 18) == First(a) && Low(t >> 12) == Second(a, b) &&
            Low(t >> 6) == Third(b, c) && Low(t) == Fourth(c)
  {}

  method CutTriple(octetA: bv8, octetB: bv8, octetC: bv8) returns (s1: sextet, s2: sextet, s3: sextet, s4: sextet)
    ensures s1 == First(octetA) && s2 == Second(octetA, octetB) && s3 == Third(octetB, octetC) && s4 == Fourth(octetC)
  {
    var triple := Triple(octetA, octetB, octetC);
    TripleGroups(octetA, octetB, octetC);
    s1, s2, s3, s4 := Low(triple >> 18), Low(triple >> 12), Low(triple >> 6), Low(triple);
  }

  /** crypto_utils.cpp: one 32-bit triple for every three bytes. */
  method CryptoEncode(data: seq<bv8>) returns (result: string)
    ensures result == Encode(data)
    ensures PaddedBehind(result, |data|)
  {
    EncodingIsPadded(data);
    result := "";
    var i := 0;
    while i < |data|
      invariant 0 <= i <= |data| && result + Encode(data[i..]) == Encode(data)
    {
      ghost var rest := data[i..];
      EncodeStep(rest);
      var remaining := |data| - i;
      var octetA := data[i];
      i := i + 1;
      var octetB: bv8 := 0;
      if remaining > 1 { octetB := data[i]; i := i + 1; }
      var octetC: bv8 := 0;
      if remaining > 2 { octetC := data[i]; i := i + 1; }
      var s1, s2, s3, s4 := CutTriple(octetA, octetB, octetC);
      var quad := if remaining > 2 then [s1, s2, s3, s4] else if remaining > 1 then [s1, s2, s3] else [s1, s2];
      assert quad == Quad(rest);
      assert remaining >= 3 ==> data[i..] == rest[3..];
      Regroup(result, Padded(quad), Encode(data[i..]));
      result := result + Padded(quad);
    }
  }

  /** Bits collected so far, and the bits of the next byte. */
  lemma PendingBits(a: bv8, b: bv8)
    ensures ((a & 0x03) << 4) | ((b & 0xF0) >> 4) == Second(a, b)
    ensures ((a & 0x0F) << 2) | ((b & 0xC0) >> 6) == Third(a, b)
  {}

  method SecondBits(a: bv8, b: bv8) returns (s: sextet)
    ensures s == Second(a, b)
  {
    PendingBits(a, b);
    s := (a & 0x03) << 4;
    s := s | ((b & 0xF0) >> 4);
  }

  method ThirdBits(b: bv8, c: bv8) returns (s: sextet)
    ensures s == Third(b, c)
  {
    PendingBits(b, c);
    s := (b & 0x0F) << 2;
    s := s | ((c & 0xC0) >> 6);
  }

  /** The groups of the bridge server's encoder, one byte at a time; pending bits without a next byte stay alone. */
  method MaskedQuad(data: seq<bv8>, i: nat) returns (quad: seq<sextet>)
    requires i < |data|
    ensures quad == Quad(data[i..])
  {
    ghost var rest := data[i..];
    var a := data[i];
    if i + 1 >= |data| {
      var second := SecondBits(a, 0);
      return [First(a), second];
    }
    var b := data[i + 1];
    assert rest[1] == b;
    var second := SecondBits(a, b);
    if i + 2 >= |data| {
      var third := ThirdBits(b, 0);
      return [First(a), second, third];
    }
    var c := data[i + 2];
    assert rest[2] == c;
    var third := ThirdBits(b, c);
    return [First(a), second, third, Fourth(c)];
  }

  /** bridge_server.cpp: byte by byte; the last quad is padded with '='. */
  method BridgeEncode(data: seq<bv8>) returns (result: string)
    ensures result == Encode(data)
    ensures PaddedBehind(result, |data|)
  {
    EncodingIsPadded(data);
    result := "";
    var i := 0;
    while i < |data|
      invariant 0 <= i && result + Encode(data[if i < |data| then i else |data|..]) == Encode(data)
    {
      EncodeStep(data[i..]);
      var quad := MaskedQuad(data, i);
      assert i + 3 <= |data| ==> data[i..][3..] == data[i + 3..];
      Regroup(result, Padded(quad), Encode(data[if i + 3 < |data| then i + 3 else |data|..]));
      result := result + Padded(quad);
      i := i + 3;
    }
  }

  // ---------- decoding ----------

  /** crypto_utils.cpp: up to the first '=', skipping what is not in the alphabet. */
  function CryptoSextets(s: string): seq<sextet> {
    if s == "" || s[0] == '=' then []
    else if Lookup(s[0]) == -1 then CryptoSextets(s[1..])
    else [Value(s[0])] + CryptoSextets(s[1..])
  }

  /** bridge_server.cpp: up to the first character that is not in the alphabet. */
  function BridgeSextets(s: string): seq<sextet> {
    if s == "" || Lookup(s[0]) == -1 then []
    else [Value(s[0])] + BridgeSextets(s[1..])
  }

  /** The byte that group v completes, if k groups of the current four came before it, the last of them p. */
  function Meet(k: nat, p: sextet, v: sextet): bv8
    requires 1 <= k < 4
  {
    if k == 1 then (p << 2) | (v >> 4)
    else if k == 2 then (p << 4) | (v >> 2)
    else (p << 6) | v
  }

  function StepBytes(k: nat, p: sextet, v: sextet): seq<bv8>
    requires k < 4
  {
    if k == 0 then [] else [Meet(k, p, v)]
  }

  /** The place among four groups behind place k. */
  function Next(k: nat): (n: nat)
    requires k < 4
    ensures n < 4
  {
    (k + 1) % 4
  }

  /** Six bits at a time into bytes; left-over bits at the end make no byte. */
  function Regrouped(vs: seq<sextet>, k: nat, p: sextet): seq<bv8>
    requires k < 4
  {
    if vs == [] then []
    else StepBytes(k, p, vs[0]) + Regrouped(vs[1..], Next(k), vs[0])
  }

  function Bytes(vs: seq<sextet>): seq<bv8> {
    Regrouped(vs, 0, 0)
  }

  /** The bit counter of the decoders after k of the current four groups. */
  function Pending(k: nat): int
    requires k < 4
  {
    if k == 0 then -8 else if k == 1 then -2 else if k == 2 then -4 else -6
  }

  /** What the decoders read out of the accumulator. */
  function EmitByte(val: bv32, valb: nat): bv8
    requires valb == 4 || valb == 2 || valb == 0
  {
    ((if valb == 4 then val >> 4 else if valb == 2 then val >> 2 else val) & 0xFF) as bv8
  }

  /** Whatever the accumulator holds, the emitted byte reads its low twelve bits: the last two groups. */
  lemma Emitted(val: bv32, p: sextet, v: sextet)
    requires Low(val) == p
    ensures var w := (val << 6) + (v as bv32);
            && Low(w) == v
            && EmitByte(w, 4) == Meet(1, p, v) && EmitByte(w, 2) == Meet(2, p, v) && EmitByte(w, 0) == Meet(3, p, v)
  {}

  function Append(val: bv32, v: sextet): bv32 {
    (val << 6) + (v as bv32)
  }

  lemma AppendedGroup(val: bv32, p: sextet, v: sextet, k: nat)
    requires k < 4 && Low(val) == p
    ensures Low(Append(val, v)) == v
    ensures k != 0 ==> EmitByte(Append(val, v), Pending(k) + 6) == Meet(k, p, v)
  {
    Emitted(val, p, v);
  }

  /** One group into the wrapping 32-bit accumulator; a shift by at most four never shows its sign. */
  method Accumulate(v: sextet, val: bv32, valb: int, ghost k: nat, ghost p: sextet)
    returns (val': bv32, valb': int, emit: seq<bv8>)
    requires k < 4 && valb == Pending(k) && Low(val) == p
    ensures Low(val') == v && valb' == Pending(Next(k))
    ensures emit == StepBytes(k, p, v)
  {
    AppendedGroup(val, p, v, k);
    val' := Append(val, v);
    valb' := valb + 6;
    emit := [];
    if valb' >= 0 {
      emit := [EmitByte(val', valb')];
      valb' := valb' - 8;
    }
  }

  method CryptoDecode(encoded: string) returns (result: seq<bv8>)
    ensures result == Bytes(CryptoSextets(encoded))
  {
    result := [];
    var val: bv32, valb := 0, -8;
    ghost var k: nat, p: sextet := 0, 0;
    for i := 0 to |encoded|
      invariant k < 4 && valb == Pending(k) && Low(val) == p
      invariant result + Regrouped(CryptoSextets(encoded[i..]), k, p) == Bytes(CryptoSextets(encoded))
    {
      var c := encoded[i];
      assert encoded[i..][1..] == encoded[i + 1..];
      if c == '=' { break; }
      if Lookup(c) == -1 { continue; }
      ghost var vs := CryptoSextets(encoded[i + 1..]);
      RegroupedCons(Value(c), vs, k, p);
      var emit;
      val, valb, emit := Accumulate(Value(c), val, valb, k, p);
      Regroup(result, emit, Regrouped(vs, Next(k), Value(c)));
      result := result + emit;
      k, p := Next(k), Value(c);
    }
  }

  method BridgeDecode(encoded: string) returns (result: seq<bv8>)
    ensures result == Bytes(BridgeSextets(encoded))
  {
    result := [];
    var val: bv32, valb := 0, -8;
    ghost var k: nat, p: sextet := 0, 0;
    for i := 0 to |encoded|
      invariant k < 4 && valb == Pending(k) && Low(val) == p
      invariant result + Regrouped(BridgeSextets(encoded[i..]), k, p) == Bytes(BridgeSextets(encoded))
    {
      var c := encoded[i];
      assert encoded[i..][1..] == encoded[i + 1..];
      if Lookup(c) == -1 { break; }
      ghost var vs := BridgeSextets(encoded[i + 1..]);
      RegroupedCons(Value(c), vs, k, p);
      var emit;
      val, valb, emit := Accumulate(Value(c), val, valb, k, p);
      Regroup(result, emit, Regrouped(vs, Next(k), Value(c)));
      result := result + emit;
      k, p := Next(k), Value(c);
    }
  }

  // ---------- round trip ----------

  /** Both decoders read back the groups that were spelled. */
  lemma {:induction false} SextetsOfSpell(vs: seq<sextet>, n: nat)
    ensures CryptoSextets(Spell(vs) + Padding(n)) == vs
    ensures BridgeSextets(Spell(vs) + Padding(n)) == vs
    decreases |vs|
  {
    if vs != [] {
      ValueOfChar(vs[0]);
      SextetsOfSpell(vs[1..], n);
      assert (Spell(vs) + Padding(n))[1..] == Spell(vs[1..]) + Padding(n);
    } else {
      assert Spell(vs) + Padding(n) == Padding(n);
    }
  }

  /** Bytes cut into groups come back where the groups meet. */
  lemma BackToBytes(a: bv8, b: bv8, c: bv8)
    ensures Meet(1, First(a), Second(a, b)) == a
    ensures Meet(2, Second(a, b), Third(b, c)) == b
    ensures Meet(3, Third(b, c), Fourth(c)) == c
  {}

  lemma RegroupedCons(v: sextet, vs: seq<sextet>, k: nat, p: sextet)
    requires k < 4
    ensures Regrouped([v] + vs, k, p) == StepBytes(k, p, v) + Regrouped(vs, Next(k), v)
  {
    assert ([v] + vs)[1..] == vs;
  }

  lemma RegroupedFour(g1: sextet, g2: sextet, g3: sextet, g4: sextet, vs: seq<sextet>, p: sextet)
    ensures Regrouped([g1, g2, g3, g4] + vs, 0, p) ==
            StepBytes(1, g1, g2) + (StepBytes(2, g2, g3) + (StepBytes(3, g3, g4) + Regrouped(vs, 0, g4)))
  {
    Unpack4(g1, g2, g3, g4, vs);
    RegroupedCons(g1, [g2] + ([g3] + ([g4] + vs)), 0, p);
    RegroupedCons(g2, [g3] + ([g4] + vs), 1, g1);
    RegroupedCons(g3, [g4] + vs, 2, g2);
    RegroupedCons(g4, vs, 3, g3);
  }

  lemma RegroupedTwo(g1: sextet, g2: sextet, k: nat, p: sextet)
    requires k < 3
    ensures Regrouped([g1, g2], k, p) == StepBytes(k, p, g1) + StepBytes(k + 1, g1, g2)
  {
    assert [g1, g2] == [g1] + [g2] && [g2] + [] == [g2];
    RegroupedCons(g1, [g2], k, p);
    RegroupedCons(g2, [], k + 1, g1);
  }

  lemma RegroupedThree(g1: sextet, g2: sextet, g3: sextet, p: sextet)
    ensures Regrouped([g1, g2, g3], 0, p) == StepBytes(1, g1, g2) + StepBytes(2, g2, g3)
  {
    RegroupedTwo(g2, g3, 1, g1);
    assert [g1] + [g2, g3] == [g1, g2, g3];
    RegroupedCons(g1, [g2, g3], 0, p);
  }

  lemma RegroupedQuad(a: bv8, b: bv8, c: bv8, vs: seq<sextet>, p: sextet)
    ensures Regrouped([First(a), Second(a, b), Third(b, c), Fourth(c)] + vs, 0, p) ==
            [a, b, c] + Regrouped(vs, 0, Fourth(c))
  {
    BackToBytes(a, b, c);
    RegroupedFour(First(a), Second(a, b), Third(b, c), Fourth(c), vs, p);
    assert [a] + ([b] + ([c] + Regrouped(vs, 0, Fourth(c)))) == [a, b, c] + Regrouped(vs, 0, Fourth(c));
  }

  lemma OneByteBack(a: bv8, p: sextet)
    ensures Regrouped([First(a), Second(a, 0)], 0, p) == [a]
  {
    BackToBytes(a, 0, 0);
    RegroupedTwo(First(a), Second(a, 0), 0, p);
  }

  lemma TwoBytesBack(a: bv8, b: bv8, p: sextet)
    ensures Regrouped([First(a), Second(a, b), Third(b, 0)], 0, p) == [a, b]
  {
    BackToBytes(a, b, 0);
    RegroupedThree(First(a), Second(a, b), Third(b, 0), p);
    assert [a] + [b] == [a, b];
  }

  lemma {:induction false} BytesOfGroups(data: seq<bv8>, p: sextet)
    ensures Regrouped(Groups(data), 0, p) == data
    decreases |data|
  {
    if |data| == 1 {
      OneByteBack(data[0], p);
    } else if |data| == 2 {
      TwoBytesBack(data[0], data[1], p);
    } else if |data| > 2 {
      var a, b, c, more := data[0], data[1], data[2], data[3..];
      BytesOfGroups(more, Fourth(c));
      GroupsStep(data);
      RegroupedQuad(a, b, c, Groups(more), p);
      assert data == [a, b, c] + more;
    }
  }

  /** Either decoder after either encoder gives the data back. */
  lemma RoundTrip(data: seq<bv8>)
    ensures Bytes(CryptoSextets(Encode(data))) == data
    ensures Bytes(BridgeSextets(Encode(data))) == data
  {
    SextetsOfSpell(Groups(data), |Groups(data)|);
    BytesOfGroups(data, 0);
  }

  // ---------- the accumulator ----------

  /** The byte the decoding loop emits from an accumulator that never loses a bit. */
  function WideByte(k: nat, val: nat): nat
    requires 1 <= k < 4
  {
    (if k == 1 then val / 16 else if k == 2 then val / 4 else val) % 256
  }

  /** (val << 6) + v, without a word size. */
  function WideAccumulate(val: nat, v: sextet): nat {
    val * 64 + v as nat
  }

  function WideStep(k: nat, val: nat): seq<nat>
    requires k < 4
  {
    if k == 0 then [] else [WideByte(k, val)]
  }

  function WideBytes(vs: seq<sextet>, k: nat, val: nat): seq<nat>
    requires k < 4
  {
    if vs == [] then []
    else
      var val' := WideAccumulate(val, vs[0]);
      WideStep(k, val') + WideBytes(vs[1..], Next(k), val')
  }

  function Naturals(bs: seq<bv8>): seq<nat> {
    if bs == [] then [] else [bs[0] as nat] + Naturals(bs[1..])
  }

  lemma {:induction false} NaturalsConcat(bs: seq<bv8>, cs: seq<bv8>)
    ensures Naturals(bs + cs) == Naturals(bs) + Naturals(cs)
    decreases |bs|
  {
    if bs == [] {
      assert bs + cs == cs;
    } else {
      NaturalsConcat(bs[1..], cs);
      assert (bs + cs)[1..] == bs[1..] + cs;
      Regroup([bs[0] as nat], Naturals(bs[1..]), Naturals(cs));
    }
  }

  /** Two groups meeting in a byte, as numbers. */
  function MeetNumber(k: nat, p: nat, v: nat): nat
    requires 1 <= k < 4
  {
    if k == 1 then p * 4 + v / 16 else if k == 2 then p % 16 * 16 + v / 4 else p % 4 * 64 + v
  }

  /** Where the two groups stand in the byte. */
  lemma MeetBits(p: sextet, v: sextet)
    ensures Meet(1, p, v) >> 2 == p && Meet(1, p, v) & 0x03 == v >> 4
    ensures Meet(2, p, v) >> 4 == p & 0x0F && Meet(2, p, v) & 0x0F == v >> 2
    ensures Meet(3, p, v) >> 6 == p & 0x03 && Meet(3, p, v) & 0x3F == v
  {}

  lemma MeetAtTwo(p: sextet, v: sextet)
    ensures Meet(1, p, v) as nat == MeetNumber(1, p as nat, v as nat)
  {
    MeetBits(p, v);
    ShiftTwo(Meet(1, p, v));
    ShiftFour(v);
  }

  lemma MeetAtFour(p: sextet, v: sextet)
    ensures Meet(2, p, v) as nat == MeetNumber(2, p as nat, v as nat)
  {
    MeetBits(p, v);
    ShiftFour(Meet(2, p, v));
    ShiftFour(p);
    ShiftTwo(v);
  }

  lemma MeetAtSix(p: sextet, v: sextet)
    ensures Meet(3, p, v) as nat == MeetNumber(3, p as nat, v as nat)
  {
    MeetBits(p, v);
    ShiftSix(Meet(3, p, v));
    ShiftTwo(p);
  }

  lemma MeetIsNumber(k: nat, p: sextet, v: sextet)
    requires 1 <= k < 4
    ensures Meet(k, p, v) as nat == MeetNumber(k, p as nat, v as nat)
  {
    if k == 1 { MeetAtTwo(p, v); } else if k == 2 { MeetAtFour(p, v); } else { MeetAtSix(p, v); }
  }

  lemma QuotientBySixteen(q: int, r: int)
    requires 0 <= r < 16
    ensures (16 * q + r) / 16 == q
  {}

  lemma QuotientByFour(q: int, r: int)
    requires 0 <= r < 4
    ensures (4 * q + r) / 4 == q
  {}

  lemma LowByte(q: nat, r: nat)
    requires r < 256
    ensures (256 * q + r) % 256 == r
  {}

  lemma WideAtTwo(q: nat, p: nat, h: nat, l: nat)
    requires p < 64 && h < 4 && l < 16
    ensures ((64 * q + p) * 64 + (16 * h + l)) / 16 % 256 == p * 4 + h
  {
    QuotientBySixteen(256 * q + (p * 4 + h), l);
    LowByte(q, p * 4 + h);
  }

  lemma WideAtFour(q: nat, p1: nat, p0: nat, h: nat, l: nat)
    requires p1 < 4 && p0 < 16 && h < 16 && l < 4
    ensures ((64 * q + (16 * p1 + p0)) * 64 + (4 * h + l)) / 4 % 256 == p0 * 16 + h
  {
    QuotientByFour(256 * (4 * q + p1) + (p0 * 16 + h), l);
    LowByte(4 * q + p1, p0 * 16 + h);
  }

  lemma WideAtSix(q: nat, p1: nat, p0: nat, v: nat)
    requires p1 < 16 && p0 < 4 && v < 64
    ensures ((64 * q + (4 * p1 + p0)) * 64 + v) % 256 == p0 * 64 + v
  {
    LowByte(16 * q + p1, p0 * 64 + v);
  }

  lemma WideArithmetic(k: nat, val: nat, p: nat, v: nat)
    requires v < 64 && val % 64 == p && 1 <= k < 4
    ensures WideByte(k, val * 64 + v) == MeetNumber(k, p, v)
  {
    var q := val / 64;
    if k == 1 {
      WideAtTwo(q, p, v / 16, v % 16);
    } else if k == 2 {
      WideAtFour(q, p / 16, p % 16, v / 4, v % 4);
    } else {
      WideAtSix(q, p / 4, p % 4, v);
    }
  }

  lemma LastSix(val: nat, v: nat)
    requires v < 64
    ensures (val * 64 + v) % 64 == v
  {}

  lemma NaturalOne(b: bv8)
    ensures Naturals([b]) == [b as nat]
  {}

  lemma WideStepAgrees(k: nat, p: sextet, v: sextet, val: nat)
    requires k < 4 && val % 64 == p as nat
    ensures WideStep(k, WideAccumulate(val, v)) == Naturals(StepBytes(k, p, v))
  {
    if k != 0 {
      WideArithmetic(k, val, p as nat, v as nat);
      MeetIsNumber(k, p, v);
      NaturalOne(Meet(k, p, v));
    }
  }

  /** An unbounded accumulator emits the same bytes: only the last two groups are ever read. */
  lemma {:induction false} WideAgrees(vs: seq<sextet>, k: nat, p: sextet, val: nat)
    requires k < 4 && val % 64 == p as nat
    ensures WideBytes(vs, k, val) == Naturals(Regrouped(vs, k, p))
    decreases |vs|
  {
    if vs != [] {
      var v, val' := vs[0], WideAccumulate(val, vs[0]);
      LastSix(val, v as nat);
      WideAgrees(vs[1..], Next(k), v, val');
      WideStepAgrees(k, p, v, val);
      NaturalsConcat(StepBytes(k, p, v), Regrouped(vs[1..], Next(k), v));
    }
  }

  // ---------- where the two decoders differ ----------

  /** Position j is reached by a decoder that stops only at '='. */
  predicate Reached(s: string, j: nat)
    requires j < |s|
  {
    '=' !in s[..j + 1]
  }

  /** No character of the alphabet stands behind a foreign one before the first '='. */
  ghost predicate ForeignOnlyAtEnd(s: string) {
    forall i: nat, j: nat :: i < j < |s| && Reached(s, j) && Lookup(s[i]) == -1 ==> Lookup(s[j]) == -1
  }

  lemma ReachedTail(s: string, j: nat)
    requires s != "" && s[0] != '=' && j < |s[1..]|
    ensures Reached(s, j + 1) <==> Reached(s[1..], j)
  {
    assert s[..j + 2] == [s[0]] + s[1..][..j + 1];
  }

  lemma {:induction false} NoSextets(s: string)
    ensures CryptoSextets(s) == [] <==> forall j: nat :: j < |s| && Reached(s, j) ==> Lookup(s[j]) == -1
    decreases |s|
  {
    if s != "" && s[0] != '=' {
      NoSextets(s[1..]);
      forall j: nat | j < |s[1..]| ensures Reached(s, j + 1) <==> Reached(s[1..], j) { ReachedTail(s, j); }
      assert Reached(s, 0);
      if CryptoSextets(s) == [] {
        forall j: nat | j < |s| && Reached(s, j) ensures Lookup(s[j]) == -1 {
          if j > 0 { assert Reached(s[1..], j - 1); }
        }
      }
    }
  }

  /** The two decoders read the same groups exactly when foreign characters come only at the end. */
  lemma {:induction false} SextetsAgreeIff(s: string)
    ensures CryptoSextets(s) == BridgeSextets(s) <==> ForeignOnlyAtEnd(s)
    decreases |s|
  {
    if s != "" && s[0] == '=' {
      forall j: nat | j < |s| ensures !Reached(s, j) { assert s[..j + 1][0] == '='; }
    } else if s != "" && Lookup(s[0]) == -1 {
      NoSextets(s[1..]);
      ForeignFirst(s);
    } else if s != "" {
      SextetsAgreeIff(s[1..]);
      ForeignTail(s);
      assert CryptoSextets(s)[1..] == CryptoSextets(s[1..]);
      assert BridgeSextets(s)[1..] == BridgeSextets(s[1..]);
    }
  }

  lemma ForeignFirst(s: string)
    requires s != "" && s[0] != '=' && Lookup(s[0]) == -1
    ensures ForeignOnlyAtEnd(s) <==> forall j: nat :: j < |s[1..]| && Reached(s[1..], j) ==> Lookup(s[1..][j]) == -1
  {
    forall j: nat | j < |s[1..]| ensures Reached(s, j + 1) <==> Reached(s[1..], j) { ReachedTail(s, j); }
    if forall j: nat :: j < |s[1..]| && Reached(s[1..], j) ==> Lookup(s[1..][j]) == -1 {
      forall j: nat | 0 < j < |s| && Reached(s, j) ensures Lookup(s[j]) == -1 {
        assert Reached(s[1..], j - 1);
      }
    }
  }

  lemma ForeignTail(s: string)
    requires s != "" && Lookup(s[0]) != -1
    ensures ForeignOnlyAtEnd(s) <==> ForeignOnlyAtEnd(s[1..])
  {
    forall j: nat | j < |s[1..]| ensures Reached(s, j + 1) <==> Reached(s[1..], j) { ReachedTail(s, j); }
    if ForeignOnlyAtEnd(s[1..]) {
      forall i: nat, j: nat | i < j < |s| && Reached(s, j) && Lookup(s[i]) == -1 ensures Lookup(s[j]) == -1 {
        assert Reached(s[1..], j - 1) && s[1..][i - 1] == s[i];
      }
    }
    if ForeignOnlyAtEnd(s) {
      forall i: nat, j: nat | i < j < |s[1..]| && Reached(s[1..], j) && Lookup(s[1..][i]) == -1
        ensures Lookup(s[1..][j]) == -1
      {
        assert Reached(s, j + 1) && s[1..][i] == s[i + 1];
      }
    }
  }

  // ---------- where they return different bytes ----------

  /** The text up to the first '='. */
  function BeforeEquals(s: string): string {
    if s == "" || s[0] == '=' then "" else [s[0]] + BeforeEquals(s[1..])
  }

  /** The text up to the first character that is not in the alphabet. */
  function BeforeForeign(s: string): string {
    if s == "" || Lookup(s[0]) == -1 then "" else [s[0]] + BeforeForeign(s[1..])
  }

  /** The number of characters of the alphabet. */
  function Letters(s: string): nat {
    if s == "" then 0 else (if Lookup(s[0]) == -1 then 0 else 1) + Letters(s[1..])
  }

  /** The bridge decoder reads a prefix of the groups the other one reads; both counts can be read off the text. */
  lemma {:induction false} BridgeReadsPrefix(s: string) returns (more: seq<sextet>)
    ensures CryptoSextets(s) == BridgeSextets(s) + more
    ensures |BridgeSextets(s)| == |BeforeForeign(s)| && |CryptoSextets(s)| == Letters(BeforeEquals(s))
    decreases |s|
  {
    if s == "" || s[0] == '=' {
      return [];
    }
    more := BridgeReadsPrefix(s[1..]);
    assert BeforeEquals(s)[1..] == BeforeEquals(s[1..]);
    if Lookup(s[0]) == -1 {
      more := CryptoSextets(s);
    } else {
      Regroup([Value(s[0])], BridgeSextets(s[1..]), more);
    }
  }

  /** The characters of the alphabet alone. */
  function OnlyLetters(s: string): string {
    if s == "" then "" else (if Lookup(s[0]) == -1 then "" else [s[0]]) + OnlyLetters(s[1..])
  }

  lemma {:induction false} BridgeSextetAt(s: string, i: nat)
    requires i < |BeforeForeign(s)|
    ensures i < |s| && Lookup(s[i]) != -1 && i < |BridgeSextets(s)| && BridgeSextets(s)[i] == Value(s[i])
    decreases i
  {
    if i > 0 {
      BridgeSextetAt(s[1..], i - 1);
    }
  }

  /** Skipping foreign characters is reading the text without them. */
  lemma {:induction false} CryptoReadsLetters(s: string)
    ensures CryptoSextets(s) == BridgeSextets(OnlyLetters(BeforeEquals(s)))
    decreases |s|
  {
    if s != "" && s[0] != '=' {
      var rest := BeforeEquals(s[1..]);
      CryptoReadsLetters(s[1..]);
      assert BeforeEquals(s)[1..] == rest;
      if Lookup(s[0]) == -1 {
        assert "" + OnlyLetters(rest) == OnlyLetters(rest);
      } else {
        assert ([s[0]] + OnlyLetters(rest))[1..] == OnlyLetters(rest);
      }
    }
  }

  /** The place among four groups n places behind place k. */
  function Behind(k: nat, n: nat): (m: nat)
    requires k < 4
    ensures m < 4
    decreases n
  {
    if n == 0 then k else Behind(Next(k), n - 1)
  }

  lemma {:induction false} BehindIsRemainder(k: nat, n: nat)
    requires k < 4
    ensures Behind(k, n) == (k + n) % 4
    decreases n
  {
    if n > 0 {
      BehindIsRemainder(Next(k), n - 1);
      assert k == 3 ==> Next(k) == 0 && (n - 1) % 4 == (k + n) % 4;
      assert k != 3 ==> Next(k) == k + 1;
    }
  }

  /** The last group read, or the one before all. */
  function LastOf(vs: seq<sextet>, p: sextet): sextet {
    if vs == [] then p else vs[|vs| - 1]
  }

  /** Regrouping goes on where it stopped. */
  lemma {:induction false} RegroupedConcat(vs: seq<sextet>, ws: seq<sextet>, k: nat, p: sextet)
    requires k < 4
    ensures Regrouped(vs + ws, k, p) == Regrouped(vs, k, p) + Regrouped(ws, Behind(k, |vs|), LastOf(vs, p))
    decreases |vs|
  {
    if vs == [] {
      assert vs + ws == ws;
    } else {
      var v, rest := vs[0], vs[1..];
      assert vs + ws == [v] + (rest + ws) && vs == [v] + rest;
      RegroupedConcat(rest, ws, Next(k), v);
      RegroupedCons(v, rest + ws, k, p);
      RegroupedCons(v, rest, k, p);
      assert LastOf(vs, p) == LastOf(rest, v);
      assert Behind(Next(k), |rest|) == Behind(k, |vs|);
      Regroup(StepBytes(k, p, v), Regrouped(rest, Next(k), v), Regrouped(ws, Behind(k, |vs|), LastOf(vs, p)));
    }
  }

  /** A group more makes no byte exactly when it is the first of four; two groups more always make one. */
  lemma NoByteIff(ws: seq<sextet>, k: nat, p: sextet)
    requires k < 4
    ensures Regrouped(ws, k, p) == [] <==> ws == [] || (k == 0 && |ws| == 1)
  {
    if ws != [] {
      var rest := ws[1..];
      assert Regrouped(ws, k, p) == StepBytes(k, p, ws[0]) + Regrouped(rest, Next(k), ws[0]);
      if k == 0 && rest != [] {
        assert Regrouped(rest, 1, ws[0]) == StepBytes(1, ws[0], rest[0]) + Regrouped(rest[1..], 2, rest[0]);
      }
    }
  }

  /**
   The two decoders return the same bytes exactly when they read the same groups, or the
   one that goes on reads a single group more behind a multiple of four: that one makes no byte.
   */
  lemma DecodersAgreeIff(s: string)
    ensures var g, h := |BeforeForeign(s)|, Letters(BeforeEquals(s));
            Bytes(CryptoSextets(s)) == Bytes(BridgeSextets(s)) <==> h == g || (g % 4 == 0 && h == g + 1)
  {
    var more := BridgeReadsPrefix(s);
    var vs := BridgeSextets(s);
    var added := Regrouped(more, Behind(0, |vs|), LastOf(vs, 0));
    RegroupedConcat(vs, more, 0, 0);
    BehindIsRemainder(0, |vs|);
    NoByteIff(more, Behind(0, |vs|), LastOf(vs, 0));
    assert |Bytes(vs) + added| == |Bytes(vs)| + |added|;
    assert added == [] ==> Bytes(vs) + added == Bytes(vs);
  }
}
