/** std::to_string of a size, and std::stoi. */
module Decimal {

  const INT_MIN: int := -0x8000_0000
  const INT_MAX: int := 0x7fff_ffff

  predicate Digit(c: char) {
    '0' <= c <= '9'
  }

  function DigitChar(d: nat): (c: char)
    requires d < 10
    ensures Digit(c)
  {
    '0' + d as char
  }

  function ToString(n: nat): (s: string)
    ensures s != "" && forall k :: 0 <= k < |s| ==> Digit(s[k])
    ensures s[0] == '0' ==> n == 0 && |s| == 1
  {
    if n < 10 then [DigitChar(n)] else ToString(n / 10) + [DigitChar(n % 10)]
  }

  datatype Parsed = Number(n: int) | InvalidArgument | OutOfRange

  predicate Blank(c: char) {
    c == ' ' || '\t' <= c <= '\r'
  }

  function SkipBlanks(s: string): string {
    if s != "" && Blank(s[0]) then SkipBlanks(s[1..]) else s
  }

  function LeadingDigits(s: string): (ds: string)
    ensures forall k :: 0 <= k < |ds| ==> Digit(ds[k])
  {
    if s != "" && Digit(s[0]) then [s[0]] + LeadingDigits(s[1..]) else ""
  }

  function Value(ds: string): nat
    requires forall k :: 0 <= k < |ds| ==> Digit(ds[k])
  {
    if ds == "" then 0
    else
      assert Digit(ds[|ds| - 1]);
      Value(ds[..|ds| - 1]) * 10 + (ds[|ds| - 1] as int - '0' as int)
  }

  /** Blanks, an optional sign, then as many digits as there are; the result must fit in an int. */
  function Stoi(s: string): Parsed {
    var t := SkipBlanks(s);
    var signed := t != "" && (t[0] == '-' || t[0] == '+');
    var ds := LeadingDigits(if signed then t[1..] else t);
    if ds == "" then InvalidArgument
    else
      var n: int := if signed && t[0] == '-' then -(Value(ds) as int) else Value(ds);
      if INT_MIN <= n <= INT_MAX then Number(n) else OutOfRange
  }

  lemma {:induction false} AllDigits(s: string)
    requires forall k :: 0 <= k < |s| ==> Digit(s[k])
    ensures LeadingDigits(s) == s
  {
    if s != "" {
      AllDigits(s[1..]);
    }
  }

  lemma {:induction false} ValueOfToString(n: nat)
    ensures Value(ToString(n)) == n
  {
    var s := ToString(n);
    if n < 10 {
      assert s[..|s| - 1] == "";
    } else {
      assert s[..|s| - 1] == ToString(n / 10);
      ValueOfToString(n / 10);
    }
  }

  /** Reading back a printed size: the number, unless it does not fit in an int. */
  lemma StoiOfToString(n: nat)
    ensures Stoi(ToString(n)) == if n <= INT_MAX then Number(n) else OutOfRange
  {
    AllDigits(ToString(n));
    ValueOfToString(n);
  }

  // ---------- what the digits mean, and what stands around them ----------

  predicate AllDigit(s: string) {
    forall k :: 0 <= k < |s| ==> Digit(s[k])
  }

  function Pow10(n: nat): nat {
    if n == 0 then 1 else 10 * Pow10(n - 1)
  }

  /** Decimal notation: a digit counts ten times what it would count one place further right. */
  lemma {:induction false} ValueConcat(a: string, b: string)
    requires AllDigit(a) && AllDigit(b)
    ensures AllDigit(a + b) && Value(a + b) == Value(a) * Pow10(|b|) + Value(b)
    decreases |b|
  {
    if b == "" {
      assert a + b == a;
    } else {
      var b', d := b[..|b| - 1], b[|b| - 1];
      assert Digit(d);
      ValueConcat(a, b');
      ValueSnoc(a + b', d);
      ValueSnoc(b', d);
      assert (a + b') + [d] == a + b && b' + [d] == b;
      Tenfold(Value(a), Pow10(|b'|), Value(b'));
    }
  }

  lemma ValueSnoc(a: string, d: char)
    requires AllDigit(a) && Digit(d)
    ensures AllDigit(a + [d]) && Value(a + [d]) == Value(a) * 10 + (d as int - '0' as int)
  {
    assert (a + [d])[..|a|] == a;
  }

  lemma Tenfold(v: nat, p: nat, w: nat)
    ensures (v * p + w) * 10 == v * (10 * p) + w * 10
  {}

  lemma ValueOfDigit(d: nat)
    requires d < 10
    ensures Digit(DigitChar(d)) && Value([DigitChar(d)]) == d
  {
    assert [DigitChar(d)][..0] == "";
  }

  function Negated(n: int, sign: string): int {
    if sign == "-" then -n else n
  }

  lemma {:induction false} BlanksAreSkipped(blanks: string, s: string)
    requires (forall k :: 0 <= k < |blanks| ==> Blank(blanks[k])) && (s != "" ==> !Blank(s[0]))
    ensures SkipBlanks(blanks + s) == s
    decreases |blanks|
  {
    if blanks == "" {
      assert blanks + s == s;
    } else {
      assert (blanks + s)[1..] == blanks[1..] + s;
      BlanksAreSkipped(blanks[1..], s);
    }
  }

  lemma {:induction false} DigitsEnd(digits: string, junk: string)
    requires AllDigit(digits) && (junk != "" ==> !Digit(junk[0]))
    ensures LeadingDigits(digits + junk) == digits
    decreases |digits|
  {
    if digits == "" {
      assert digits + junk == junk;
    } else {
      assert (digits + junk)[1..] == digits[1..] + junk;
      DigitsEnd(digits[1..], junk);
      assert digits == [digits[0]] + digits[1..];
    }
  }

  /** Blanks in front, one sign, and anything behind the digits are allowed; without digits there is no number. */
  lemma StoiOfParts(blanks: string, sign: string, digits: string, junk: string)
    requires forall k :: 0 <= k < |blanks| ==> Blank(blanks[k])
    requires sign in ["", "+", "-"] && AllDigit(digits) && (junk != "" ==> !Digit(junk[0]))
    requires sign == "" && digits == "" && junk != "" ==> !Blank(junk[0]) && junk[0] != '+' && junk[0] != '-'
    ensures Stoi(blanks + (sign + (digits + junk))) ==
            if digits == "" then InvalidArgument
            else if INT_MIN <= Negated(Value(digits), sign) <= INT_MAX then Number(Negated(Value(digits), sign))
            else OutOfRange
  {
    var body := digits + junk;
    BlanksAreSkipped(blanks, sign + body);
    DigitsEnd(digits, junk);
    if sign == "" {
      assert sign + body == body;
      UnsignedStoi(blanks + (sign + body), body);
    } else {
      SignedBody(sign, body);
      SignedStoi(blanks + (sign + body), sign + body, body);
    }
  }

  function FromDigits(ds: string, negative: bool): Parsed
    requires AllDigit(ds)
  {
    var n: int := if negative then -(Value(ds) as int) else Value(ds);
    if ds == "" then InvalidArgument else if INT_MIN <= n <= INT_MAX then Number(n) else OutOfRange
  }

  lemma UnsignedStoi(s: string, body: string)
    requires SkipBlanks(s) == body && (body != "" ==> body[0] != '-' && body[0] != '+')
    ensures Stoi(s) == FromDigits(LeadingDigits(body), false)
  {}

  lemma SignedStoi(s: string, t: string, body: string)
    requires SkipBlanks(s) == t && t != "" && (t[0] == '-' || t[0] == '+') && t[1..] == body
    ensures Stoi(s) == FromDigits(LeadingDigits(body), t[0] == '-')
  {}

  lemma SignedBody(sign: string, body: string)
    requires sign in ["", "+", "-"]
    ensures sign != "" ==> |sign + body| > 0 && (sign + body)[0] == sign[0] && (sign + body)[1..] == body
  {
  }
}
