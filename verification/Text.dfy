/** UTF-8 and decimal notation, as `str::from_utf8`, `char::len_utf8` and `{}` give them. */
module Text {
  import opened Bytes

  /** The UTF-8 encoding of one Unicode scalar value (section 3 of RFC 3629). */
  function Encode(c: char): (s: seq<Byte>)
    ensures 1 <= |s| <= 4
    ensures s[0] < 0x80 <==> c as int < 0x80
  {
    var v := c as int;
    var q1 := v / 0x40;
    var q2 := q1 / 0x40;
    if v < 0x80 then [v]
    else if v < 0x800 then [0xC0 + q1, 0x80 + v % 0x40]
    else if v < 0x1_0000 then [0xE0 + q2, 0x80 + q1 % 0x40, 0x80 + v % 0x40]
    else [0xF0 + q2 / 0x40, 0x80 + q2 % 0x40, 0x80 + q1 % 0x40, 0x80 + v % 0x40]
  }

  predicate Continuation(s: seq<Byte>, i: nat) {
    i < |s| && 0x80 <= s[i] < 0xC0
  }

  /** Scalar values: no surrogates, nothing above U+10FFFF. */
  predicate IsScalar(v: int) {
    0 <= v < 0xD800 || 0xE000 <= v < 0x11_0000
  }

  /** Appends the six payload bits of the continuation octet at `i`. */
  function Extend(q: int, s: seq<Byte>, i: nat): int
    requires Continuation(s, i)
  {
    q * 0x40 + (s[i] as int - 0x80)
  }

  function ScalarFrom(v: int, least: nat): Option<char> {
    if least <= v && IsScalar(v) then Some(v as char) else None
  }

  /** The scalar that starts at offset `i`, or `None` when the octets there are not
      well-formed UTF-8 (overlong forms, surrogates and stray continuations included). */
  function Decode(s: seq<Byte>, i: nat): (r: Option<char>) {
    if i >= |s| then None
    else
      var b := s[i] as int;
      if b < 0x80 then Some(b as char)
      else if 0xC0 <= b < 0xE0 && Continuation(s, i + 1) then
        ScalarFrom(Extend(b - 0xC0, s, i + 1), 0x80)
      else if 0xE0 <= b < 0xF0 && Continuation(s, i + 1) && Continuation(s, i + 2) then
        ScalarFrom(Extend(Extend(b - 0xE0, s, i + 1), s, i + 2), 0x800)
      else if 0xF0 <= b < 0xF8 && Continuation(s, i + 1) && Continuation(s, i + 2) && Continuation(s, i + 3) then
        ScalarFrom(Extend(Extend(Extend(b - 0xF0, s, i + 1), s, i + 2), s, i + 3), 0x1_0000)
      else None
  }

  lemma ExtendSplits(q: int, s: seq<Byte>, i: nat)
    requires Continuation(s, i)
    ensures Extend(q, s, i) / 0x40 == q && Extend(q, s, i) % 0x40 == s[i] - 0x80
  {}

  lemma TwoOctets(s: seq<Byte>, i: nat)
    requires i < |s| && 0xC0 <= s[i] < 0xE0 && Decode(s, i).Some?
    ensures At(s, i, Encode(Decode(s, i).value))
  {
    ExtendSplits(s[i] as int - 0xC0, s, i + 1);
    assert s[i..i + 2] == Encode(Decode(s, i).value);
  }

  lemma ThreeOctets(s: seq<Byte>, i: nat)
    requires i < |s| && 0xE0 <= s[i] < 0xF0 && Decode(s, i).Some?
    ensures At(s, i, Encode(Decode(s, i).value))
  {
    var q := s[i] as int - 0xE0;
    ExtendSplits(q, s, i + 1);
    ExtendSplits(Extend(q, s, i + 1), s, i + 2);
    assert s[i..i + 3] == Encode(Decode(s, i).value);
  }

  lemma FourOctets(s: seq<Byte>, i: nat)
    requires i < |s| && 0xF0 <= s[i] && Decode(s, i).Some?
    ensures At(s, i, Encode(Decode(s, i).value))
  {
    var q := s[i] as int - 0xF0;
    ExtendSplits(q, s, i + 1);
    ExtendSplits(Extend(q, s, i + 1), s, i + 2);
    ExtendSplits(Extend(Extend(q, s, i + 1), s, i + 2), s, i + 3);
    assert s[i..i + 4] == Encode(Decode(s, i).value);
  }

  /** What decodes is the encoding of the decoded scalar. */
  lemma EncodeDecoded(s: seq<Byte>, i: nat)
    requires Decode(s, i).Some?
    ensures At(s, i, Encode(Decode(s, i).value))
  {
    if s[i] < 0x80 {
      assert s[i..i + 1] == Encode(Decode(s, i).value);
    } else {
      hide Encode;
      if s[i] < 0xE0 {
        TwoOctets(s, i);
      } else if s[i] < 0xF0 {
        ThreeOctets(s, i);
      } else {
        FourOctets(s, i);
      }
    }
  }

  /** Decoding undoes encoding, in any context. */
  lemma DecodeEncoded(s: seq<Byte>, i: nat, c: char)
    requires At(s, i, Encode(c))
    ensures Decode(s, i) == Some(c)
  {
    var e := Encode(c);
    AtIndex(s, i, e, 0);
    if |e| > 1 { AtIndex(s, i, e, 1); }
    if |e| > 2 { AtIndex(s, i, e, 2); }
    if |e| > 3 { AtIndex(s, i, e, 3); }
  }

  /** `str::from_utf8` accepts the octets from offset `i` on. */
  predicate Utf8From(s: seq<Byte>, i: nat)
    decreases |s| - i
  {
    i >= |s| || (Decode(s, i).Some? && Utf8From(s, i + |Encode(Decode(s, i).value)|))
  }

  function DigitByte(d: int): Byte
    requires 0 <= d < 10
  {
    48 + d
  }

  predicate IsDigit(b: Byte) { 48 <= b <= 57 }

  /** A lower-case hexadecimal digit. */
  function HexByte(d: int): Byte
    requires 0 <= d < 16
  {
    if d < 10 then 48 + d else 87 + d
  }

  /** Decimal notation of a natural number, without leading zeros. */
  function Digits(n: nat): (s: seq<Byte>)
    ensures s != [] && forall i :: 0 <= i < |s| ==> IsDigit(s[i])
    ensures s[0] == 48 <==> n == 0
    ensures n == 0 ==> |s| == 1
  {
    if n < 10 then [DigitByte(n)] else Digits(n / 10) + [DigitByte(n % 10)]
  }

  /** The number a string of digits denotes. */
  function NumberOf(s: seq<Byte>): nat
    requires forall i :: 0 <= i < |s| ==> IsDigit(s[i])
  {
    if s == [] then 0
    else
      assert IsDigit(s[|s| - 1]);
      NumberOf(s[..|s| - 1]) * 10 + (s[|s| - 1] as int - 48)
  }

  lemma {:induction false} NumberOfDigits(n: nat)
    ensures NumberOf(Digits(n)) == n
  {
    if n >= 10 {
      NumberOfDigits(n / 10);
      assert Digits(n)[..|Digits(n)| - 1] == Digits(n / 10);
    } else {
      assert Digits(n)[..0] == [];
    }
  }
}
