/** The label-wise hash that places cache keys (`src/cache_x.rs`). */
module NameHash {
  import opened Bytes

  const OFFSET: bv64 := 0xcbf29ce484222325
  const PRIME: bv64 := 0x100000001b3
  const POISON: bv64 := 0xDEADBEEFCAFEBABE
  const FINAL: bv64 := 0xe7037ed1a0b428db

  function Mix(h: bv64, b: bv64): bv64 {
    (h ^ b) * PRIME
  }

  /** The case-folded octets of one label. */
  function LabelHash(octets: seq<Byte>, h: bv64): bv64 {
    if octets == [] then h
    else Mix(LabelHash(octets[..|octets| - 1], h), LowerByte(octets[|octets| - 1]) as bv64)
  }

  function Avalanche(h: bv64): bv64 {
    var x := h ^ (h >> 32);
    var y := x * FINAL;
    y ^ (y >> 32)
  }

  function HashFrom(wire: seq<Byte>, i: nat, h: bv64): bv64
    decreases |wire| - i
  {
    if i >= |wire| then Avalanche(h)
    else if wire[i] == 0 then Avalanche(Mix(h, 0xff))
    else
      var end := i + 1 + wire[i];
      if wire[i] > 63 || end > |wire| then h ^ POISON
      else HashFrom(wire, end, Mix(LabelHash(wire[i + 1..end], h), 0x2e))
  }

  /** The inner loop of `dns_name_hash`. */
  method FoldLabel(octets: seq<Byte>, start: bv64) returns (h: bv64)
    ensures h == LabelHash(octets, start)
  {
    hide Mix, LowerByte;
    h := start;
    for k := 0 to |octets|
      invariant h == LabelHash(octets[..k], start)
    {
      assert octets[..k + 1][..k] == octets[..k];
      h := Mix(h, LowerByte(octets[k]) as bv64);
    }
    assert octets[..|octets|] == octets;
  }

  /** `dns_name_hash`. */
  method DnsNameHash(wire: seq<Byte>) returns (r: bv64)
    ensures r == HashFrom(wire, 0, OFFSET)
  {
    hide Mix, Avalanche, LabelHash;
    var h := OFFSET;
    var i: nat := 0;
    while i < |wire|
      invariant HashFrom(wire, i, h) == HashFrom(wire, 0, OFFSET)
      decreases |wire| - i
    {
      var length := wire[i];
      if length == 0 {
        h := Mix(h, 0xff);
        return Avalanche(h);
      }
      if length > 63 || i + 1 + length > |wire| {
        return h ^ POISON;
      }
      h := FoldLabel(wire[i + 1..i + 1 + length], h);
      i := i + 1 + length;
      h := Mix(h, 0x2e);
    }
    r := Avalanche(h);
  }

  lemma {:induction false} LabelHashIgnoresCase(octets: seq<Byte>, h: bv64)
    ensures LabelHash(Lower(octets), h) == LabelHash(octets, h)
  {
    hide Mix;
    if octets != [] {
      var n := |octets| - 1;
      LabelHashIgnoresCase(octets[..n], h);
      assert Lower(octets)[..n] == Lower(octets[..n]);
    }
  }

  /** Names that differ only in case hash alike: length octets are below the letters. */
  lemma {:induction false} HashIgnoresCase(wire: seq<Byte>, i: nat, h: bv64)
    ensures HashFrom(Lower(wire), i, h) == HashFrom(wire, i, h)
    decreases |wire| - i
  {
    hide Mix, Avalanche, LabelHash, Lower;
    if i < |wire| && 0 < wire[i] <= 63 && i + 1 + wire[i] <= |wire| {
      var end := i + 1 + wire[i];
      LowerSlice(wire, i + 1, end);
      LabelHashIgnoresCase(wire[i + 1..end], h);
      HashIgnoresCase(wire, end, Mix(LabelHash(wire[i + 1..end], h), 0x2e));
    }
  }
}
