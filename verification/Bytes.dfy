/** Octets, big-endian integers and the small sequence facts the wire codecs share. */
module Bytes {

  type Byte = b: int | 0 <= b < 0x100
  type U16 = n: int | 0 <= n < 0x1_0000
  type U32 = n: int | 0 <= n < 0x1_0000_0000

  datatype Option<+T> = None | Some(value: T)

  /** `to_be_bytes` of a 16-bit integer. */
  function Be16(n: U16): (s: seq<Byte>)
    ensures |s| == 2
  {
    [n / 0x100, n % 0x100]
  }

  /** `to_be_bytes` of a 32-bit integer. */
  function Be32(n: U32): (s: seq<Byte>)
    ensures |s| == 4
  {
    [n / 0x100_0000, n / 0x1_0000 % 0x100, n / 0x100 % 0x100, n % 0x100]
  }

  function U16At(p: seq<Byte>, i: nat): U16
    requires i + 2 <= |p|
  {
    p[i] as int * 0x100 + p[i + 1]
  }

  function U32At(p: seq<Byte>, i: nat): U32
    requires i + 4 <= |p|
  {
    p[i] as int * 0x100_0000 + p[i + 1] as int * 0x1_0000 + p[i + 2] as int * 0x100 + p[i + 3]
  }

  /** The offset a compression pointer at `i` names. */
  function Target(p: seq<Byte>, i: nat): nat
    requires i + 1 < |p| && p[i] >= 0xC0
  {
    (p[i] as int - 0xC0) * 0x100 + p[i + 1]
  }

  /** `u8::to_ascii_lowercase`. */
  function LowerByte(b: Byte): Byte {
    if 65 <= b <= 90 then b + 32 else b
  }

  function Lower(s: seq<Byte>): (r: seq<Byte>)
    ensures |r| == |s|
    ensures forall i :: 0 <= i < |s| ==> r[i] == LowerByte(s[i])
  {
    seq(|s|, i requires 0 <= i < |s| => LowerByte(s[i]))
  }

  lemma LowerSlice(s: seq<Byte>, i: nat, j: nat)
    requires i <= j <= |s|
    ensures Lower(s)[i..j] == Lower(s[i..j])
  {}

  lemma LowerConcat(a: seq<Byte>, b: seq<Byte>)
    ensures Lower(a + b) == Lower(a) + Lower(b)
  {}

  predicate ByteLeq(a: Byte, b: Byte) {
    a <= b
  }

  lemma SubsetSize<T>(a: set<T>, b: set<T>)
    requires a <= b
    ensures |a| <= |b|
  {
    assert b == a + (b - a);
  }

  /** `s` occurs in `p` at offset `i`. */
  predicate At<T(==)>(p: seq<T>, i: nat, s: seq<T>) {
    i + |s| <= |p| && p[i..i + |s|] == s
  }

  lemma Assoc<T>(a: seq<T>, b: seq<T>, c: seq<T>)
    ensures a + b + c == a + (b + c)
  {}

  lemma AtConcat<T>(p: seq<T>, i: nat, a: seq<T>, b: seq<T>)
    ensures At(p, i, a + b) <==> At(p, i, a) && At(p, i + |a|, b)
  {
    if At(p, i, a + b) {
      assert p[i..i + |a|] == p[i..i + |a + b|][..|a|] == a;
      assert p[i + |a|..i + |a| + |b|] == p[i..i + |a + b|][|a|..] == b;
    }
    if At(p, i, a) && At(p, i + |a|, b) {
      assert p[i..i + |a + b|] == p[i..i + |a|] + p[i + |a|..i + |a| + |b|];
    }
  }

  lemma AtIndex<T>(p: seq<T>, i: nat, s: seq<T>, k: nat)
    requires At(p, i, s) && k < |s|
    ensures p[i + k] == s[k]
  {
    assert p[i..i + |s|][k] == p[i + k];
  }

  lemma AtSlice<T>(p: seq<T>, i: nat, s: seq<T>, a: nat, b: nat)
    requires At(p, i, s) && a <= b <= |s|
    ensures p[i + a..i + b] == s[a..b]
  {
    forall k | 0 <= k < b - a ensures p[i + a..i + b][k] == s[a..b][k] {
      AtIndex(p, i, s, a + k);
    }
  }

  /** One leading element, then the rest. */
  lemma AtCons<T>(p: seq<T>, i: nat, x: T, rest: seq<T>)
    requires At(p, i, [x] + rest)
    ensures i < |p| && p[i] == x && At(p, i + 1, rest)
  {
    AtConcat(p, i, [x], rest);
    AtIndex(p, i, [x], 0);
  }

  /** Two parts around one separator. */
  lemma AtSeparated<T>(p: seq<T>, i: nat, a: seq<T>, x: T, b: seq<T>)
    requires At(p, i, a + [x] + b)
    ensures At(p, i, a) && i + |a| < |p| && p[i + |a|] == x && At(p, i + |a| + 1, b)
  {
    AtConcat(p, i, a + [x], b);
    AtConcat(p, i, a, [x]);
    AtIndex(p, i + |a|, [x], 0);
  }

  lemma Be16At(p: seq<Byte>, i: nat, n: U16)
    requires At(p, i, Be16(n))
    ensures U16At(p, i) == n
  {
    AtIndex(p, i, Be16(n), 0);
    AtIndex(p, i, Be16(n), 1);
  }

  lemma Be32At(p: seq<Byte>, i: nat, n: U32)
    requires At(p, i, Be32(n))
    ensures U32At(p, i) == n
  {
    AtIndex(p, i, Be32(n), 0);
    AtIndex(p, i, Be32(n), 1);
    AtIndex(p, i, Be32(n), 2);
    AtIndex(p, i, Be32(n), 3);
    Digits256(n);
  }

  lemma Digits256(n: U32)
    ensures n == n / 0x100_0000 * 0x100_0000 + n / 0x1_0000 % 0x100 * 0x1_0000 + n / 0x100 % 0x100 * 0x100 + n % 0x100
  {
    assert n / 0x1_0000 == n / 0x100 / 0x100 && n / 0x100_0000 == n / 0x1_0000 / 0x100;
  }
}
