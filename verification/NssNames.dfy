/** The name codec of the NSS module: the presentation-to-wire encoder of `nss/nss_resolve_shm.c`,
    and the query builder, name expander and response check of `nss/nss_dns_stub.c`
    (section 4.1.4 of RFC 1035). */
module NssNames {
  import opened Bytes

  const HEADER_LEN := 12
  const MAX_NAME := 255
  const MAX_JUMPS := 128
  const DOT: Byte := 46
  const CLASS_IN := 1

  datatype Outcome<+T> = Failed | Done(value: T)

  /** A C string: no NUL inside. */
  type CString = s: seq<Byte> | forall i :: 0 <= i < |s| ==> s[i] != 0

  // The encoder.

  /** Where the label from offset `i` ends: at the next dot or at the end. */
  function LabelEnd(t: seq<Byte>, i: nat): (e: nat)
    requires i <= |t|
    ensures i <= e <= |t| && (e < |t| ==> t[e] == DOT)
    ensures forall k :: i <= k < e ==> t[k] != DOT
    decreases |t| - i
  {
    if i == |t| || t[i] == DOT then i else LabelEnd(t, i + 1)
  }

  function Limit(capacity: nat): nat {
    if capacity < MAX_NAME then capacity else MAX_NAME
  }

  /** The loop of `sr_encode_name` from `cursor` on. */
  function EncodeFrom(name: seq<Byte>, cursor: nat, output: seq<Byte>, capacity: nat): Outcome<seq<Byte>>
    requires cursor < |name|
    decreases |name| - cursor
  {
    var end := LabelEnd(name, cursor);
    var n := end - cursor;
    if n == 0 || n > 63 || |output| + 1 + n + 1 > Limit(capacity) then Failed
    else
      var output' := output + [n] + Lower(name[cursor..end]);
      if end == |name| || end + 1 == |name| then Done(output' + [0])
      else EncodeFrom(name, end + 1, output', capacity)
  }

  /** `sr_encode_name`. */
  function Encode(name: seq<Byte>, capacity: nat): Outcome<seq<Byte>> {
    if name == [] || capacity == 0 then Failed
    else if name == [DOT] then Done([0])
    else EncodeFrom(name, 0, [], capacity)
  }

  /** The name without one trailing dot. */
  function Trim(name: seq<Byte>): seq<Byte> {
    if name != [] && name[|name| - 1] == DOT then name[..|name| - 1] else name
  }

  /** Labels of 1 to 63 octets separated by dots, from offset `i` on. */
  predicate GoodLabels(t: seq<Byte>, i: nat)
    requires i <= |t|
    decreases |t| - i
  {
    var e := LabelEnd(t, i);
    1 <= e - i <= 63 && (e == |t| || GoodLabels(t, e + 1))
  }

  /** Their wire form. */
  function Wire(t: seq<Byte>, i: nat): (w: seq<Byte>)
    requires i <= |t| && GoodLabels(t, i)
    ensures |w| == |t| - i + 2
    decreases |t| - i
  {
    var e := LabelEnd(t, i);
    [e - i] + Lower(t[i..e]) + if e == |t| then [0] else Wire(t, e + 1)
  }

  /** Trimming moves no label end. */
  lemma {:induction false} TrimmedLabelEnd(name: seq<Byte>, i: nat)
    requires i <= |Trim(name)|
    ensures |Trim(name)| <= |name|
    ensures LabelEnd(name, i) == LabelEnd(Trim(name), i)
    decreases |name| - i
  {
    var t := Trim(name);
    if i < |t| && t[i] != DOT {
      TrimmedLabelEnd(name, i + 1);
    }
  }

  lemma GoodStep(t: seq<Byte>, i: nat)
    requires i <= |t|
    ensures var e := LabelEnd(t, i); GoodLabels(t, i) <==> 1 <= e - i <= 63 && (e == |t| || GoodLabels(t, e + 1))
    ensures var e := LabelEnd(t, i);
            GoodLabels(t, i) ==> Wire(t, i) == [e - i] + Lower(t[i..e]) + if e == |t| then [0] else Wire(t, e + 1)
  {
    hide LabelEnd, Lower, Wire;
    if GoodLabels(t, i) {
      WireStep(t, i);
    }
  }

  lemma WireStep(t: seq<Byte>, i: nat)
    requires i <= |t| && GoodLabels(t, i)
    ensures var e := LabelEnd(t, i);
            && 1 <= e - i <= 63 && (e < |t| ==> GoodLabels(t, e + 1))
            && Wire(t, i) == [e - i] + Lower(t[i..e]) + if e == |t| then [0] else Wire(t, e + 1)
  {
    hide LabelEnd, Lower;
  }

  lemma EncodeStep(name: seq<Byte>, cursor: nat, output: seq<Byte>, capacity: nat)
    requires cursor < |name|
    ensures var end := LabelEnd(name, cursor);
            var n := end - cursor;
            if n == 0 || n > 63 || |output| + 1 + n + 1 > Limit(capacity) then
              EncodeFrom(name, cursor, output, capacity).Failed?
            else if end == |name| || end + 1 == |name| then
              EncodeFrom(name, cursor, output, capacity) == Done(output + [n] + Lower(name[cursor..end]) + [0])
            else
              EncodeFrom(name, cursor, output, capacity) ==
              EncodeFrom(name, end + 1, output + [n] + Lower(name[cursor..end]), capacity)
  {
    hide LabelEnd, Lower, Limit;
  }

  lemma {:induction false} EncodeFromExact(name: seq<Byte>, cursor: nat, output: seq<Byte>, capacity: nat)
    requires cursor < |name| && cursor <= |Trim(name)|
    ensures var t := Trim(name);
            EncodeFrom(name, cursor, output, capacity) ==
              if GoodLabels(t, cursor) &&
                  |output| + |t| - cursor + 2 <= Limit(capacity) then Done(output + Wire(t, cursor))
              else Failed
    decreases |name| - cursor
  {
    hide LabelEnd, Limit, Trim, Lower, EncodeFrom, Wire, GoodLabels;
    var t := Trim(name);
    EncodeStep(name, cursor, output, capacity);
    GoodStep(t, cursor);
    TrimmedLabelEnd(name, cursor);
    var end := LabelEnd(name, cursor);
    TrimSlice(name, cursor, end);
    var n := end - cursor;
    if 1 <= n <= 63 && |output| + 1 + n + 1 <= Limit(capacity) {
      var octets := Lower(name[cursor..end]);
      if end == |name| || end + 1 == |name| {
        AtEnd(name, end);
        Appended(output, [n], octets, [0]);
      } else {
        NotAtEnd(name, end);
        EncodeFromExact(name, end + 1, output + [n] + octets, capacity);
        if GoodLabels(t, end + 1) {
          Appended(output, [n], octets, Wire(t, end + 1));
        }
      }
    }
  }

  lemma Appended(a: seq<Byte>, b: seq<Byte>, c: seq<Byte>, d: seq<Byte>)
    ensures a + b + c + d == a + (b + c + d)
  {}

  lemma TrimSlice(name: seq<Byte>, i: nat, j: nat)
    requires i <= j <= |Trim(name)|
    ensures |Trim(name)| <= |name| && name[i..j] == Trim(name)[i..j]
  {}

  lemma AtEnd(name: seq<Byte>, end: nat)
    requires end <= |Trim(name)| && (end == |name| || end + 1 == |name|) && (end < |name| ==> name[end] == DOT)
    ensures end == |Trim(name)|
  {}

  lemma NotAtEnd(name: seq<Byte>, end: nat)
    requires end + 1 < |name|
    ensures end < |Trim(name)|
  {}

  /** The encoder accepts exactly the root and names of labels of 1 to 63 octets, with at most one
      trailing dot, whose wire form fits both 255 octets and the buffer; and then it yields that
      wire form. */
  lemma EncodeExact(name: seq<Byte>, capacity: nat)
    ensures var t := Trim(name);
            Encode(name, capacity) ==
              if name == [DOT] && capacity > 0 then Done([0])
              else if name != [DOT] && GoodLabels(t, 0) && |t| + 2 <= Limit(capacity) then Done(Wire(t, 0))
              else Failed
  {
    if name != [] && capacity > 0 && name != [DOT] {
      EncodeFromExact(name, 0, [], capacity);
      if GoodLabels(Trim(name), 0) {
        assert [] + Wire(Trim(name), 0) == Wire(Trim(name), 0);
      }
    }
  }

  /** `sr_encode_name` into `out[base..base + capacity]`. */
  method EncodeName(name: seq<Byte>, out: array<Byte>, base: nat, capacity: nat) returns (length: Outcome<nat>)
    requires base + capacity <= out.Length
    modifies out
    ensures length.Done? <==> Encode(name, capacity).Done?
    ensures length.Done? ==> |Encode(name, capacity).value| == length.value <= capacity
    ensures length.Done? ==> out[base..base + length.value] == Encode(name, capacity).value
    ensures forall k :: 0 <= k < out.Length && !(base <= k < base + capacity) ==> out[k] == old(out[k])
    ensures length.Done? ==> forall k :: base + length.value <= k < base + capacity ==> out[k] == old(out[k])
  {
    hide EncodeFrom, LabelEnd, Lower;
    if name == [] || capacity == 0 {
      return Failed;
    }
    if name == [DOT] {
      out[base] := 0;
      return Done(1);
    }
    var output: nat, cursor: nat := 0, 0;
    assert out[base..base + output] == [];
    while true
      invariant cursor < |name| && output <= capacity
      invariant Encode(name, capacity) == EncodeFrom(name, cursor, out[base..base + output], capacity)
      invariant forall k :: 0 <= k < out.Length && !(base <= k < base + output) ==> out[k] == old(out[k])
      decreases |name| - cursor
    {
      var end := LabelEnd(name, cursor);
      var n := end - cursor;
      EncodeStep(name, cursor, out[base..base + output], capacity);
      if n == 0 || n > 63 || output + 1 + n + 1 > capacity || output + 1 + n + 1 > MAX_NAME {
        return Failed;
      }
      WriteLabel(name[cursor..end], out, base, base + output);
      output := output + 1 + n;
      if end == |name| || end + 1 == |name| {
        break;
      }
      cursor := end + 1;
    }
    ghost var done := out[base..base + output];
    out[base + output] := 0;
    assert out[base..base + output + 1] == done + [0];
    output := output + 1;
    length := Done(output);
  }

  /** One length octet and the label in lower case, after what was written from `base` on. */
  method WriteLabel(text: seq<Byte>, out: array<Byte>, base: nat, at: nat)
    requires base <= at && at + 1 + |text| <= out.Length && |text| <= 63
    modifies out
    ensures out[base..at + 1 + |text|] == old(out[base..at]) + [|text|] + Lower(text)
    ensures forall k :: 0 <= k < out.Length && !(at <= k < at + 1 + |text|) ==> out[k] == old(out[k])
  {
    out[at] := |text|;
    for i := 0 to |text|
      invariant out[at] == |text|
      invariant forall k :: 0 <= k < i ==> out[at + 1 + k] == LowerByte(text[k])
      invariant forall k :: 0 <= k < out.Length && !(at <= k < at + 1 + i) ==> out[k] == old(out[k])
    {
      var byte := text[i];
      out[at + 1 + i] := if byte >= 65 && byte <= 90 then byte + 32 else byte;
    }
    assert out[base..at] == old(out[base..at]);
    assert out[at + 1..at + 1 + |text|] == Lower(text);
  }
}
