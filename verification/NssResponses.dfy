/** Expanding names, building queries and checking responses in the NSS module
    (`nss/nss_dns_stub.c`). */
module NssResponses {
  import opened Bytes
  import opened NssNames

  /** The loop of `dns_expand_name`: `next` is where the name ends once a pointer was followed.
      Each pointer uses up one of 128 jumps and each label moves towards the end of the packet. */
  function ExpandFrom(p: seq<Byte>, position: nat, next: Outcome<nat>, jumps: nat, out: seq<Byte>, capacity: nat)
    : Outcome<(seq<Byte>, nat)>
    requires jumps <= MAX_JUMPS
    decreases MAX_JUMPS - jumps, |p| - position
  {
    if position >= |p| then Failed
    else
      var length := p[position];
      if length >= 0xC0 then
        if position + 1 >= |p| then Failed
        else
          var pointer := Target(p, position);
          if pointer >= position || jumps + 1 > MAX_JUMPS then Failed
          else ExpandFrom(p, pointer, if next.Done? then next else Done(position + 2), jumps + 1, out, capacity)
      else if length >= 0x40 then Failed
      else if length == 0 then
        Done((if out == [] then [DOT] else out, if next.Done? then next.value else position + 1))
      else if position + 1 + length > |p| then Failed
      else
        var dot := if out == [] then [] else [DOT];
        if |out| + |dot| + length >= capacity || |out| + |dot| + length > MAX_NAME then Failed
        else
          ExpandFrom(p, position + 1 + length, next, jumps, out + dot + p[position + 1..position + 1 + length],
              capacity)
  }

  /** `dns_expand_name`. */
  function Expand(p: seq<Byte>, offset: nat, capacity: nat): Outcome<(seq<Byte>, nat)> {
    if capacity < 2 || offset >= |p| then Failed else ExpandFrom(p, offset, Failed, 0, [], capacity)
  }

  /** What expansion yields fits the buffer with its NUL, is never empty, and the name it read ends
      inside the packet, after where it started. */
  lemma {:induction false} ExpandedFits(p: seq<Byte>, position: nat, next: Outcome<nat>, jumps: nat, out: seq<Byte>,
                                        capacity: nat)
    requires jumps <= MAX_JUMPS && |out| < capacity && |out| <= MAX_NAME && capacity >= 2
    requires next.Done? ==> next.value <= |p|
    ensures var r := ExpandFrom(p, position, next, jumps, out, capacity);
            r.Done? ==> && 1 <= |r.value.0| < capacity && |r.value.0| <= MAX_NAME
                        && (if next.Done? then r.value.1 == next.value else position < r.value.1 <= |p|)
    decreases MAX_JUMPS - jumps, |p| - position
  {
    if position < |p| {
      var length := p[position];
      if length >= 0xC0 {
        if position + 1 < |p| {
          var pointer := Target(p, position);
          if pointer < position && jumps < MAX_JUMPS {
            ExpandedFits(p, pointer, if next.Done? then next else Done(position + 2), jumps + 1, out, capacity);
          }
        }
      } else if 0 < length < 0x40 && position + 1 + length <= |p| {
        var dot := if out == [] then [] else [DOT];
        if |out| + |dot| + length < capacity && |out| + |dot| + length <= MAX_NAME {
          ExpandedFits(p, position + 1 + length, next, jumps, out + dot + p[position + 1..position + 1 + length],
              capacity);
        }
      }
    }
  }

  method ExpandName(p: seq<Byte>, offset: nat, out: array<Byte>) returns (end: Outcome<nat>)
    modifies out
    ensures end.Done? <==> Expand(p, offset, out.Length).Done?
    ensures end.Done? ==>
              var (name, next) := Expand(p, offset, out.Length).value;
              next == end.value && |name| < out.Length && out[..|name|] == name && out[|name|] == 0
  {
    hide ExpandFrom;
    if out.Length < 2 || offset >= |p| {
      return Failed;
    }
    var position, length, jumps: nat := offset, 0, 0;
    var next: Outcome<nat> := Failed;
    while true
      invariant 0 <= length < out.Length && length <= MAX_NAME && 0 <= jumps <= MAX_JUMPS && 0 <= position
      invariant Expand(p, offset, out.Length) == ExpandFrom(p, position, next, jumps, out[..length], out.Length)
      decreases MAX_JUMPS - jumps, |p| - position
    {
      ExpandStep(p, position, next, jumps, out[..length], out.Length);
      if position >= |p| {
        return Failed;
      }
      var labelLength := p[position];
      if labelLength >= 0xC0 {
        if position + 1 >= |p| {
          return Failed;
        }
        var pointer := Target(p, position);
        if pointer >= position || pointer >= |p| || jumps + 1 > MAX_JUMPS {
          return Failed;
        }
        jumps := jumps + 1;
        if !next.Done? {
          next := Done(position + 2);
        }
        position := pointer;
        continue;
      }
      if labelLength >= 0x40 {
        return Failed;
      }
      position := position + 1;
      if labelLength == 0 {
        if length == 0 {
          out[0] := DOT;
          length := 1;
        }
        ghost var name := out[..length];
        out[length] := 0;
        assert out[..length] == name;
        return if next.Done? then next else Done(position);
      }
      if position + labelLength > |p| {
        return Failed;
      }
      var additional := labelLength + if length > 0 then 1 else 0;
      if length + additional >= out.Length || length + additional > MAX_NAME {
        return Failed;
      }
      ghost var before := out[..length];
      if length > 0 {
        out[length] := DOT;
        length := length + 1;
        assert out[..length] == before + [DOT];
      }
      Copy(p[position..position + labelLength], out, length);
      length := length + labelLength;
      position := position + labelLength;
    }
  }

  /** `memcpy`, after what is already there. */
  method Copy(bytes: seq<Byte>, out: array<Byte>, at: nat)
    requires at + |bytes| <= out.Length
    modifies out
    ensures out[..at + |bytes|] == old(out[..at]) + bytes
  {
    for i := 0 to |bytes|
      invariant out[..at + i] == old(out[..at]) + bytes[..i]
    {
      out[at + i] := bytes[i];
      assert out[..at + i + 1] == out[..at + i] + [bytes[i]];
      assert bytes[..i + 1] == bytes[..i] + [bytes[i]];
    }
    assert bytes[..|bytes|] == bytes;
  }

  /** The loop body once. */
  lemma ExpandStep(p: seq<Byte>, position: nat, next: Outcome<nat>, jumps: nat, out: seq<Byte>, capacity: nat)
    requires jumps <= MAX_JUMPS
    ensures var r := ExpandFrom(p, position, next, jumps, out, capacity);
            if position >= |p| then r.Failed?
            else if p[position] >= 0xC0 then
              if position + 1 >= |p| then r.Failed?
              else
                var pointer := Target(p, position);
                if pointer >= position || jumps + 1 > MAX_JUMPS then r.Failed?
                else r == ExpandFrom(p, pointer, if next.Done? then next else Done(position + 2), jumps + 1, out,
                    capacity)
            else if p[position] >= 0x40 then r.Failed?
            else if p[position] == 0 then
              r == Done((if out == [] then [DOT] else out, if next.Done? then next.value else position + 1))
            else if position + 1 + p[position] > |p| then r.Failed?
            else
              var dot := if out == [] then [] else [DOT];
              var n := p[position];
              if |out| + |dot| + n >= capacity || |out| + |dot| + n > MAX_NAME then r.Failed?
              else r == ExpandFrom(p, position + 1 + n, next, jumps, out + dot + p[position + 1..position + 1 + n],
                  capacity)
  {}

  // Encoding and then expanding a name.

  /** The presentation form a name comes back in. */
  function Normal(name: seq<Byte>): seq<Byte> {
    if name == [DOT] then name else Lower(Trim(name))
  }

  lemma {:induction false} WireExpands(p: seq<Byte>, position: nat, t: seq<Byte>, i: nat, capacity: nat)
    requires i <= |t| && i != 1 && (i > 0 ==> t[i - 1] == DOT) && GoodLabels(t, i) && At(p, position, Wire(t, i))
    requires |t| < capacity && |t| <= MAX_NAME
    ensures ExpandFrom(p, position, Failed, 0, if i == 0 then [] else Lower(t[..i - 1]), capacity) ==
            Done((Lower(t), position + |Wire(t, i)|))
    decreases |t| - i
  {
    hide LabelEnd, GoodLabels, Wire, ExpandFrom, At, Lower;
    var e := LabelEnd(t, i);
    WireLabel(p, position, t, i);
    LabelExpands(p, position, t, i, capacity);
    if e == |t| {
      ExpandStep(p, position + 1 + (e - i), Failed, 0, Lower(t[..e]), capacity);
      assert t[..e] == t;
    } else {
      WireExpands(p, position + 1 + (e - i), t, e + 1, capacity);
    }
  }

  /** The first label of a wire form in a packet. */
  lemma WireLabel(p: seq<Byte>, position: nat, t: seq<Byte>, i: nat)
    requires i <= |t| && GoodLabels(t, i) && At(p, position, Wire(t, i))
    ensures var e := LabelEnd(t, i);
            var n := e - i;
            && 1 <= n <= 63 && position + 1 + n < |p| && p[position] == n
            && p[position + 1..position + 1 + n] == Lower(t[i..e])
            && (e == |t| ==> p[position + 1 + n] == 0 && |Wire(t, i)| == n + 2)
            && (e < |t| ==> && GoodLabels(t, e + 1) && At(p, position + 1 + n, Wire(t, e + 1))
                            && |Wire(t, i)| == n + 1 + |Wire(t, e + 1)|)
  {
    hide LabelEnd, GoodLabels, Wire, Lower, At;
    GoodStep(t, i);
    var e := LabelEnd(t, i);
    var n := e - i;
    LabelAndRest(p, position, n, Lower(t[i..e]), if e == |t| then [0] else Wire(t, e + 1));
  }

  /** A length octet, a label and what follows. */
  lemma LabelAndRest(p: seq<Byte>, position: nat, n: Byte, octets: seq<Byte>, rest: seq<Byte>)
    requires |octets| == n && rest != [] && At(p, position, [n] + octets + rest)
    ensures position + 1 + n < |p| && p[position] == n && p[position + 1..position + 1 + n] == octets
    ensures At(p, position + 1 + n, rest) && p[position + 1 + n] == rest[0]
  {
    AtConcat(p, position, [n] + octets, rest);
    AtCons(p, position, n, octets);
    AtIndex(p, position + 1 + n, rest, 0);
  }

  lemma LabelExpands(p: seq<Byte>, position: nat, t: seq<Byte>, i: nat, capacity: nat)
    requires i <= |t| && i != 1 && (i > 0 ==> t[i - 1] == DOT) && |t| < capacity && |t| <= MAX_NAME
    requires var e := LabelEnd(t, i);
             && 1 <= e - i <= 63 && position + 1 + (e - i) < |p| && p[position] == e - i
             && p[position + 1..position + 1 + (e - i)] == Lower(t[i..e])
    ensures var e := LabelEnd(t, i);
            ExpandFrom(p, position, Failed, 0, if i == 0 then [] else Lower(t[..i - 1]), capacity) ==
            ExpandFrom(p, position + 1 + (e - i), Failed, 0, Lower(t[..e]), capacity)
  {
    hide LabelEnd, ExpandFrom, Lower;
    ExpandStep(p, position, Failed, 0, if i == 0 then [] else Lower(t[..i - 1]), capacity);
    JoinsLabel(t, i, LabelEnd(t, i));
  }

  lemma JoinsLabel(t: seq<Byte>, i: nat, e: nat)
    requires i < e <= |t| && i != 1 && (i > 0 ==> t[i - 1] == DOT)
    ensures var out := if i == 0 then [] else Lower(t[..i - 1]);
            out + (if out == [] then [] else [DOT]) + Lower(t[i..e]) == Lower(t[..e])
  {}

  /** Expanding the encoding of a name, wherever it stands in a packet, gives the name in lower
      case without its trailing dot, and stops right after it. */
  lemma EncodedExpands(name: seq<Byte>, size: nat, p: seq<Byte>, offset: nat, capacity: nat)
    requires Encode(name, size).Done? && At(p, offset, Encode(name, size).value)
    requires capacity >= 2 && |Normal(name)| < capacity
    ensures Expand(p, offset, capacity) == Done((Normal(name), offset + |Encode(name, size).value|))
  {
    hide GoodLabels, ExpandFrom, Encode, Wire, Lower, LabelEnd;
    EncodeExact(name, size);
    if name == [DOT] {
      AtIndex(p, offset, [0], 0);
      ExpandStep(p, offset, Failed, 0, [], capacity);
    } else {
      WireLabel(p, offset, Trim(name), 0);
      WireExpands(p, offset, Trim(name), 0, capacity);
    }
  }

  /** Two accepted names have the same encoding exactly when they are equal up to case and one
      trailing dot. */
  lemma EncodingsAgree(a: seq<Byte>, b: seq<Byte>, size: nat)
    requires Encode(a, size).Done? && Encode(b, size).Done?
    ensures Encode(a, size) == Encode(b, size) <==> Normal(a) == Normal(b)
  {
    hide GoodLabels, Encode, Expand, Wire, Lower;
    EncodeExact(a, size);
    EncodeExact(b, size);
    var w := Encode(a, size).value;
    if Encode(a, size) == Encode(b, size) {
      assert At(w, 0, w);
      EncodedExpands(a, size, w, 0, 300);
      EncodedExpands(b, size, w, 0, 300);
    }
    if Normal(a) == Normal(b) {
      NormalRoot(a);
      NormalRoot(b);
      if a != [DOT] {
        LowerWire(Trim(a), Trim(b), 0);
      }
    }
  }

  /** Only the root comes back as a dot. */
  lemma NormalRoot(a: seq<Byte>)
    requires a == [DOT] || GoodLabels(Trim(a), 0)
    ensures Normal(a) == [DOT] <==> a == [DOT]
  {
    if a != [DOT] && |Trim(a)| == 1 {
      assert Lower(Trim(a))[0] == LowerByte(Trim(a)[0]);
    }
  }

  lemma {:induction false} LowerLabelEnd(s: seq<Byte>, t: seq<Byte>, i: nat)
    requires Lower(s) == Lower(t) && i <= |s|
    ensures |s| == |t| && LabelEnd(s, i) == LabelEnd(t, i)
    decreases |s| - i
  {
    assert |Lower(s)| == |s| && |Lower(t)| == |t|;
    if i < |s| {
      assert Lower(s)[i] == Lower(t)[i];
      if s[i] != DOT {
        LowerLabelEnd(s, t, i + 1);
      }
    }
  }

  lemma {:induction false} LowerWire(s: seq<Byte>, t: seq<Byte>, i: nat)
    requires Lower(s) == Lower(t) && |s| == |t| && i <= |s| && GoodLabels(s, i) && GoodLabels(t, i)
    ensures Wire(s, i) == Wire(t, i)
    decreases |s| - i
  {
    hide GoodLabels, Wire, LabelEnd;
    GoodStep(s, i);
    GoodStep(t, i);
    LowerLabelEnd(s, t, i);
    var e := LabelEnd(s, i);
    assert Lower(s[i..e]) == Lower(s)[i..e] == Lower(t)[i..e] == Lower(t[i..e]);
    if e < |s| {
      LowerWire(s, t, e + 1);
    }
  }

  // Queries and responses.

  function QueryHeader(id: U16): (h: seq<Byte>)
    ensures |h| == HEADER_LEN
  {
    Be16(id) + [1, 0, 0, 1, 0, 0, 0, 0, 0, 0]
  }

  /** `build_query`: one recursive query, class IN. */
  function Query(name: seq<Byte>, qtype: U16, id: U16, capacity: nat): Outcome<seq<Byte>> {
    if capacity < HEADER_LEN then Failed
    else
      match Encode(name, capacity - HEADER_LEN)
      case Failed => Failed
      case Done(wire) =>
        if HEADER_LEN + |wire| + 4 > capacity then Failed
        else Done(QueryHeader(id) + wire + Be16(qtype) + Be16(CLASS_IN))
  }

  /** Clears the packet and writes the header. */
  method WriteHeader(id: U16, packet: array<Byte>)
    requires packet.Length >= HEADER_LEN
    modifies packet
    ensures packet[..HEADER_LEN] == QueryHeader(id)
    ensures forall k :: HEADER_LEN <= k < packet.Length ==> packet[k] == 0
  {
    for i := 0 to packet.Length
      invariant forall k :: 0 <= k < i ==> packet[k] == 0
    {
      packet[i] := 0;
    }
    packet[0], packet[1] := id / 0x100, id % 0x100;
    packet[2] := 1;
    packet[5] := 1;
  }

  /** Type and class, after what is already there. */
  method WriteType(qtype: U16, packet: array<Byte>, offset: nat)
    requires offset + 4 <= packet.Length
    modifies packet
    ensures packet[..offset + 4] == old(packet[..offset]) + Be16(qtype) + Be16(CLASS_IN)
  {
    packet[offset], packet[offset + 1] := qtype / 0x100, qtype % 0x100;
    packet[offset + 2], packet[offset + 3] := 0, CLASS_IN;
    assert packet[..offset] == old(packet[..offset]);
  }

  method BuildQuery(name: seq<Byte>, qtype: U16, id: U16, packet: array<Byte>) returns (length: Outcome<nat>)
    modifies packet
    ensures length.Done? <==> Query(name, qtype, id, packet.Length).Done?
    ensures length.Done? ==> length.value <= packet.Length
    ensures length.Done? ==> packet[..length.value] == Query(name, qtype, id, packet.Length).value
  {
    hide Encode;
    var capacity := packet.Length;
    if capacity < HEADER_LEN {
      return Failed;
    }
    WriteHeader(id, packet);
    var wire := EncodeName(name, packet, HEADER_LEN, capacity - HEADER_LEN);
    if wire.Failed? {
      return Failed;
    }
    var offset := HEADER_LEN + wire.value;
    if offset + 4 > capacity {
      return Failed;
    }
    assert packet[..HEADER_LEN] == QueryHeader(id);
    assert packet[..offset] == packet[..HEADER_LEN] + packet[HEADER_LEN..offset];
    WriteType(qtype, packet, offset);
    length := Done(offset + 4);
  }

  /** What C reads of a buffer: up to the first NUL. */
  function CStr(s: seq<Byte>): seq<Byte> {
    if s == [] || s[0] == 0 then [] else [s[0]] + CStr(s[1..])
  }

  /** `validate_response`. */
  predicate Accepts(r: seq<Byte>, id: U16, name: seq<Byte>, qtype: U16) {
    && |r| >= HEADER_LEN && U16At(r, 0) == id && r[2] >= 0x80 && U16At(r, 4) == 1
    && var question := Expand(r, HEADER_LEN, MAX_NAME + 1);
    && question.Done?
    && var (text, offset) := question.value;
    && offset + 4 <= |r| && Lower(CStr(text)) == Lower(name)
    && U16At(r, offset) == qtype && U16At(r, offset + 2) == CLASS_IN
  }

  lemma {:induction false} CStrStops(s: seq<Byte>, rest: seq<Byte>)
    requires rest != [] && rest[0] == 0
    ensures CStr(s + rest) == CStr(s)
  {
    if s == [] {
      assert s + rest == rest;
    } else {
      assert (s + rest)[1..] == s[1..] + rest;
      CStrStops(s[1..], rest);
    }
  }

  lemma {:induction false} CStrWhole(s: CString)
    ensures CStr(s) == s
  {
    if s != [] {
      CStrWhole(s[1..]);
    }
  }

  method ValidateResponse(r: seq<Byte>, id: U16, name: seq<Byte>, qtype: U16) returns (ok: bool)
    ensures ok == Accepts(r, id, name, qtype)
  {
    hide ExpandFrom, Lower;
    if |r| < HEADER_LEN || U16At(r, 0) != id || r[2] < 0x80 || U16At(r, 4) != 1 {
      return false;
    }
    var buffer := new Byte[MAX_NAME + 1];
    var offset := ExpandName(r, HEADER_LEN, buffer);
    if offset.Failed? {
      return false;
    }
    ghost var text := Expand(r, HEADER_LEN, MAX_NAME + 1).value.0;
    assert buffer[..] == text + buffer[|text|..];
    CStrStops(text, buffer[|text|..]);
    if offset.value + 4 > |r| {
      return false;
    }
    return Lower(CStr(buffer[..])) == Lower(name) && U16At(r, offset.value) == qtype && U16At(r, offset.value + 2) ==
        CLASS_IN;
  }

  /** A response with the id and the question of the query, whatever follows. */
  ghost predicate Echoes(r: seq<Byte>, q: seq<Byte>) {
    && |r| >= |q| >= HEADER_LEN
    && r[..2] == q[..2] && r[4..6] == q[4..6] && r[2] >= 0x80
    && r[HEADER_LEN..|q|] == q[HEADER_LEN..]
  }

  /** The check on an echoed question comes down to the name. */
  lemma EchoComparesNames(name: CString, qtype: U16, id: U16, capacity: nat, r: seq<Byte>)
    requires Query(name, qtype, id, capacity).Done? && Echoes(r, Query(name, qtype, id, capacity).value)
    ensures Accepts(r, id, name, qtype) <==> Lower(CStr(Normal(name))) == Lower(name)
  {
    hide Encode, Expand, Lower, CStr, Normal;
    var q, wire := Query(name, qtype, id, capacity).value, Encode(name, capacity - HEADER_LEN).value;
    assert q[HEADER_LEN..] == wire + Be16(qtype) + Be16(CLASS_IN);
    assert At(r, HEADER_LEN, wire + Be16(qtype) + Be16(CLASS_IN));
    AtConcat(r, HEADER_LEN, wire + Be16(qtype), Be16(CLASS_IN));
    AtConcat(r, HEADER_LEN, wire, Be16(qtype));
    Be16At(r, HEADER_LEN + |wire|, qtype);
    Be16At(r, HEADER_LEN + |wire| + 2, CLASS_IN);
    EchoHeader(r, q, id);
    NormalShort(name, capacity - HEADER_LEN);
    EncodedExpands(name, capacity - HEADER_LEN, r, HEADER_LEN, MAX_NAME + 1);
  }

  lemma EchoHeader(r: seq<Byte>, q: seq<Byte>, id: U16)
    requires Echoes(r, q) && q[..HEADER_LEN] == QueryHeader(id)
    ensures U16At(r, 0) == id && U16At(r, 4) == 1
  {
    var h := QueryHeader(id);
    assert r[0] == r[..2][0] == q[0] == h[0] && r[1] == r[..2][1] == q[1] == h[1];
    assert r[4] == r[4..6][0] == q[4] == h[4] && r[5] == r[4..6][1] == q[5] == h[5];
  }

  lemma NormalShort(name: seq<Byte>, size: nat)
    requires Encode(name, size).Done?
    ensures |Normal(name)| <= MAX_NAME
  {
    hide GoodLabels, Encode, Wire;
    EncodeExact(name, size);
  }

  /** An echoed question passes exactly for the root and for names without a trailing dot: the
      expanded name has none, and it is compared with the name as the caller wrote it. */
  lemma EchoAccepted(name: CString, qtype: U16, id: U16, capacity: nat, r: seq<Byte>)
    requires Query(name, qtype, id, capacity).Done? && Echoes(r, Query(name, qtype, id, capacity).value)
    ensures Accepts(r, id, name, qtype) <==> name == [DOT] || name[|name| - 1] != DOT
  {
    hide Accepts, Query, Echoes;
    EchoComparesNames(name, qtype, id, capacity, r);
    var normal := Normal(name);
    forall k | 0 <= k < |normal| ensures normal[k] != 0 {
      if name != [DOT] {
        assert normal[k] == LowerByte(name[k]);
      }
    }
    CStrWhole(normal);
    assert Lower(Lower(name)) == Lower(name);
    QueriedNameNonempty(name, qtype, id, capacity);
    if name != [DOT] && name[|name| - 1] == DOT {
      assert |Lower(normal)| == |name| - 1;
    }
  }

  lemma QueriedNameNonempty(name: seq<Byte>, qtype: U16, id: U16, capacity: nat)
    requires Query(name, qtype, id, capacity).Done?
    ensures name != []
  {}

  /** The query for `a.` is answered faithfully and refused. */
  lemma TrailingDotRefused()
    ensures var name: seq<Byte> := [97, DOT];
            var q := Query(name, 1, 7, 512);
            q.Done? && Echoes(q.value[2 := 0x81], q.value) && !Accepts(q.value[2 := 0x81], 7, name, 1)
  {
    var name: seq<Byte> := [97, DOT];
    assert Trim(name) == [97];
    assert LabelEnd([97], 1) == 1 && LabelEnd([97], 0) == 1;
    assert GoodLabels(Trim(name), 0);
    EncodeExact(name, 500);
    var q := Query(name, 1, 7, 512).value;
    EchoAccepted(name, 1, 7, 512, q[2 := 0x81]);
  }
}
