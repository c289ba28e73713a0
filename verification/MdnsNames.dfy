/** The two name walkers of the mDNS engine, one that only validates (`src/mdns_full.rs`) and one
    that decodes (`src/mdns_responder.rs`), and the canonical form of names. */
module MdnsNames {
  import opened Bytes

  type Packet = seq<Byte>

  datatype NameError = Truncated | InvalidLabel | InvalidPointer | Loop | Empty | Compressed | TooLong | TrailingData

  datatype Result<+T> = Ok(value: T) | Err(error: NameError) {
    predicate IsFailure() { Err? }
    function PropagateFailure<U>(): Result<U> requires Err? { Err(error) }
    function Extract(): T requires Ok? { value }
  }

  const MAX_STEPS := 128
  const MAX_NAME := 255

  /** A label sequence from offset `i` to the end of `s`: lengths 1 to 63, nothing cut off. */
  predicate Labels(s: seq<Byte>, i: nat)
    decreases |s| - i
  {
    i == |s| || (i < |s| && 1 <= s[i] <= 63 && i + 1 + s[i] <= |s| && Labels(s, i + 1 + s[i]))
  }

  /** An uncompressed wire name of at most 255 octets, in any case. */
  predicate WireName(n: seq<Byte>) {
    1 <= |n| <= MAX_NAME && n[|n| - 1] == 0 && Labels(n[..|n| - 1], 0)
  }

  /** The names caches and records are keyed by. */
  predicate CanonicalName(n: seq<Byte>) {
    WireName(n) && Lower(n) == n
  }

  /** The loop of `canonical_wire_name`. */
  function CanonicalFrom(input: seq<Byte>, offset: nat, output: seq<Byte>): Result<seq<Byte>>
    decreases |input| - offset
  {
    if offset >= |input| then Err(InvalidLabel)
    else if input[offset] >= 0x40 then Err(Compressed)
    else if input[offset] == 0 then
      if offset + 1 != |input| then Err(TrailingData)
      else if |output| + 1 > MAX_NAME then Err(TooLong)
      else Ok(output + [0])
    else
      var end := offset + 1 + input[offset];
      if end > |input| then Err(InvalidLabel)
      else
        var output' := output + [input[offset]] + Lower(input[offset + 1..end]);
        if |output'| >= MAX_NAME then Err(TooLong) else CanonicalFrom(input, end, output')
  }

  /** `canonical_wire_name`. */
  function Canonical(input: seq<Byte>): Result<seq<Byte>> {
    if input == [] then Err(Empty) else CanonicalFrom(input, 0, [])
  }

  lemma {:induction false} LabelsPrefix(s: seq<Byte>, i: nat, j: nat)
    requires i <= j <= |s| && Labels(s[..j], i) && Labels(s, j)
    ensures Labels(s, i)
    decreases j - i
  {
    if i < j {
      LabelsPrefix(s, i + 1 + s[i], j);
    }
  }

  /** One more label. */
  lemma LabelsAppend(s: seq<Byte>, octets: seq<Byte>)
    requires Labels(s, 0) && 1 <= |octets| <= 63
    ensures Labels(s + [|octets|] + octets, 0)
  {
    var t := s + [|octets|] + octets;
    assert t[..|s|] == s;
    LabelsPrefix(t, 0, |s|);
  }

  lemma {:induction false} LabelsLower(s: seq<Byte>, i: nat)
    ensures Labels(Lower(s), i) <==> Labels(s, i)
    decreases |s| - i
  {
    if i < |s| && 1 <= s[i] <= 63 {
      LabelsLower(s, i + 1 + s[i]);
    }
  }

  lemma {:induction false} CanonicalFromName(n: seq<Byte>, i: nat)
    requires 1 <= |n| && n[|n| - 1] == 0 && i < |n| && Labels(n[..|n| - 1], i)
    ensures |n| <= MAX_NAME ==> CanonicalFrom(n, i, Lower(n[..i])) == Ok(Lower(n))
    ensures |n| > MAX_NAME ==> CanonicalFrom(n, i, Lower(n[..i])).Err?
    decreases |n| - i
  {
    if i == |n| - 1 {
      assert Lower(n) == Lower(n[..i]) + [0];
    } else {
      var end := i + 1 + n[i];
      assert Lower(n[..end]) == Lower(n[..i]) + [n[i]] + Lower(n[i + 1..end]);
      CanonicalFromName(n, end);
    }
  }

  lemma {:induction false} CanonicalFromAccepts(n: seq<Byte>, i: nat, output: seq<Byte>)
    requires CanonicalFrom(n, i, output).Ok?
    ensures i < |n| && n[|n| - 1] == 0 && Labels(n[..|n| - 1], i)
    decreases |n| - i
  {
    if n[i] != 0 {
      var end := i + 1 + n[i];
      CanonicalFromAccepts(n, end, output + [n[i]] + Lower(n[i + 1..end]));
    }
  }

  /** Exactly the uncompressed names of at most 255 octets have a canonical form: themselves in
      lower case, which is canonical. */
  lemma CanonicalExact(n: seq<Byte>)
    ensures Canonical(n).Ok? <==> WireName(n)
    ensures WireName(n) ==> Canonical(n) == Ok(Lower(n)) && CanonicalName(Lower(n))
  {
    if Canonical(n).Ok? {
      CanonicalFromAccepts(n, 0, []);
    }
    if 1 <= |n| && n[|n| - 1] == 0 && Labels(n[..|n| - 1], 0) {
      assert Lower(n[..0]) == [];
      CanonicalFromName(n, 0);
      LabelsLower(n[..|n| - 1], 0);
      assert Lower(n)[..|n| - 1] == Lower(n[..|n| - 1]);
      assert Lower(Lower(n)) == Lower(n);
    }
  }

  /** The loop of `skip_name`, with `steps` rounds left. */
  function SkipFrom(p: Packet, cursor: nat, next: Option<nat>, expanded: nat, visited: set<nat>,
                    steps: nat): Result<nat>
    decreases steps
  {
    if steps == 0 then Err(Loop)
    else if cursor >= |p| then Err(Truncated)
    else if p[cursor] >= 0xC0 then
      if cursor + 1 >= |p| then Err(Truncated)
      else
        var target := Target(p, cursor);
        if target >= |p| || target >= cursor then Err(InvalidPointer)
        else if target in visited then Err(Loop)
        else SkipFrom(p, target, Some(if next.Some? then next.value else cursor + 2), expanded, visited + {target},
            steps - 1)
    else if p[cursor] >= 0x40 then Err(InvalidLabel)
    else if p[cursor] == 0 then Ok(if next.Some? then next.value else cursor + 1)
    else
      var end := cursor + 1 + p[cursor];
      if end > |p| then Err(Truncated)
      else if expanded + p[cursor] + 1 > MAX_NAME then Err(InvalidLabel)
      else SkipFrom(p, end, next, expanded + p[cursor] + 1, visited, steps - 1)
  }

  /** `skip_name`: the offset behind a name. */
  function SkipName(p: Packet, start: nat): Result<nat> {
    SkipFrom(p, start, None, 1, {}, MAX_STEPS)
  }

  /** The loop of `decode_name`, with `steps` rounds left. */
  function DecodeFrom(p: Packet, cursor: nat, next: Option<nat>, output: seq<Byte>, visited: set<nat>, steps: nat)
    : Result<(seq<Byte>, nat)>
    decreases steps
  {
    if steps == 0 then Err(Loop)
    else if cursor >= |p| then Err(Truncated)
    else if p[cursor] >= 0xC0 then
      if cursor + 1 >= |p| then Err(Truncated)
      else
        var target := Target(p, cursor);
        if target >= |p| || target in visited then Err(InvalidPointer)
        else DecodeFrom(p, target, Some(if next.Some? then next.value else cursor + 2), output, visited + {target},
            steps - 1)
    else if p[cursor] >= 0x40 then Err(InvalidLabel)
    else if p[cursor] == 0 then
      var name :- Canonical(output + [0]);
      Ok((name, if next.Some? then next.value else cursor + 1))
    else
      var end := cursor + 1 + p[cursor];
      if end > |p| then Err(Truncated)
      else DecodeFrom(p, end, next, output + [p[cursor]] + Lower(p[cursor + 1..end]), visited, steps - 1)
  }

  /** `decode_name`: the canonical name and the offset behind it. */
  function DecodeName(p: Packet, start: nat): Result<(seq<Byte>, nat)> {
    DecodeFrom(p, start, None, [], {}, MAX_STEPS)
  }

  lemma RootCloses(output: seq<Byte>)
    requires Labels(output, 0) && |output| < MAX_NAME
    ensures Canonical(output + [0]) == Ok(Lower(output + [0])) && CanonicalName(Lower(output + [0]))
  {
    var n := output + [0];
    assert n[..|n| - 1] == output;
    CanonicalExact(n);
  }

  /** Every pointer followed from `cursor` on, in `steps` rounds, leads strictly backward. */
  predicate Backward(p: Packet, cursor: nat, steps: nat)
    decreases steps
  {
    if steps == 0 || cursor >= |p| then true
    else if p[cursor] >= 0xC0 then
      cursor + 1 < |p| ==> Target(p, cursor) < cursor && Backward(p, Target(p, cursor), steps - 1)
    else if 0 < p[cursor] < 0x40 then Backward(p, cursor + 1 + p[cursor], steps - 1)
    else true
  }

  /** What an accepted name has decoded to so far leaves room for the root. */
  lemma {:induction false} DecodedFits(p: Packet, cursor: nat, next: Option<nat>, output: seq<Byte>, visited: set<nat>,
                                       steps: nat)
    requires DecodeFrom(p, cursor, next, output, visited, steps).Ok?
    ensures |output| < MAX_NAME
    decreases steps
  {
    hide Canonical, Lower;
    if p[cursor] >= 0xC0 {
      var target := Target(p, cursor);
      DecodedFits(p, target, Some(if next.Some? then next.value else cursor + 2), output, visited + {target},
          steps - 1);
    } else if p[cursor] == 0 {
      CanonicalExact(output + [0]);
    } else {
      var end := cursor + 1 + p[cursor];
      DecodedFits(p, end, next, output + [p[cursor]] + Lower(p[cursor + 1..end]), visited, steps - 1);
    }
  }

  /** The two walkers from the same place: the validator accepts exactly what the decoder accepts
      without following a pointer forward, and then they end at the same offset. */
  lemma {:induction false} WalkersAgreeFrom(p: Packet, cursor: nat, next: Option<nat>, output: seq<Byte>,
                                            visited: set<nat>,
                                            steps: nat)
    requires Labels(output, 0) && |output| < MAX_NAME
    ensures var skipped := SkipFrom(p, cursor, next, |output| + 1, visited, steps);
            var decoded := DecodeFrom(p, cursor, next, output, visited, steps);
            && (skipped.Ok? <==> decoded.Ok? && Backward(p, cursor, steps))
            && (skipped.Ok? ==> decoded.value.1 == skipped.value && CanonicalName(decoded.value.0))
    decreases steps
  {
    hide Canonical, Lower, Labels, WireName;
    if steps > 0 && cursor < |p| {
      if p[cursor] >= 0xC0 {
        if cursor + 1 < |p| {
          var target := Target(p, cursor);
          WalkersAgreeFrom(p, target, Some(if next.Some? then next.value else cursor + 2), output, visited + {target},
                           steps - 1);
        }
      } else if p[cursor] == 0 {
        RootCloses(output);
      } else if p[cursor] < 0x40 && cursor + 1 + p[cursor] <= |p| {
        LabelAgrees(p, cursor, next, output, visited, steps);
      }
    }
  }

  /** The round in which both walkers pass a label. */
  lemma {:induction false} LabelAgrees(p: Packet, cursor: nat, next: Option<nat>, output: seq<Byte>, visited: set<nat>,
                                       steps: nat)
    requires Labels(output, 0) && |output| < MAX_NAME && steps > 0
    requires cursor < |p| && 0 < p[cursor] < 0x40 && cursor + 1 + p[cursor] <= |p|
    ensures var skipped := SkipFrom(p, cursor, next, |output| + 1, visited, steps);
            var decoded := DecodeFrom(p, cursor, next, output, visited, steps);
            && (skipped.Ok? <==> decoded.Ok? && Backward(p, cursor, steps))
            && (skipped.Ok? ==> decoded.value.1 == skipped.value && CanonicalName(decoded.value.0))
    decreases steps, 0
  {
    hide Canonical, Lower, Labels, WireName;
    var end := cursor + 1 + p[cursor];
    var octets := Lower(p[cursor + 1..end]);
    var output' := output + [p[cursor]] + octets;
    LabelsAppend(output, octets);
    if |output'| < MAX_NAME {
      WalkersAgreeFrom(p, end, next, output', visited, steps - 1);
    } else if DecodeFrom(p, end, next, output', visited, steps - 1).Ok? {
      DecodedFits(p, end, next, output', visited, steps - 1);
    }
  }

  /** `skip_name` accepts a name exactly when `decode_name` does and every pointer on the way leads
      backward. Both then stop at the same offset, with a canonical name of at most 255 octets. */
  lemma WalkersAgree(p: Packet, start: nat)
    ensures SkipName(p, start).Ok? <==> DecodeName(p, start).Ok? && Backward(p, start, MAX_STEPS)
    ensures SkipName(p, start).Ok? ==>
              var (name, end) := DecodeName(p, start).value;
              CanonicalName(name) && |name| <= MAX_NAME && end == SkipName(p, start).value
  {
    hide SkipFrom, DecodeFrom, Backward;
    WalkersAgreeFrom(p, start, None, [], {}, MAX_STEPS);
  }

  /** The converse fails: the decoder follows pointers forward, the validator does not. */
  lemma DecoderIsLaxer()
    ensures var p: Packet := [0xC0, 2, 0];
            DecodeName(p, 0) == Ok(([0], 2)) && SkipName(p, 0) == Err(InvalidPointer) && !Backward(p, 0, MAX_STEPS)
  {
    var p: Packet := [0xC0, 2, 0];
    var none: seq<Byte> := [];
    RootCloses(none);
    assert Lower(none + [0]) == [0] == none + [0];
    assert DecodeFrom(p, 0, None, none, {}, 128) == DecodeFrom(p, 2, Some(2), none, {} + {2}, 127);
  }

  lemma {:induction false} SkipAdvances(p: Packet, cursor: nat, next: Option<nat>, expanded: nat, visited: set<nat>,
                                        steps: nat)
    requires SkipFrom(p, cursor, next, expanded, visited, steps).Ok?
    ensures var end := SkipFrom(p, cursor, next, expanded, visited, steps).value;
            if next.Some? then end == next.value else cursor < end <= |p|
    decreases steps
  {
    if p[cursor] >= 0xC0 {
      var target := Target(p, cursor);
      SkipAdvances(p, target, Some(if next.Some? then next.value else cursor + 2), expanded, visited + {target},
          steps - 1);
    } else if p[cursor] > 0 {
      SkipAdvances(p, cursor + 1 + p[cursor], next, expanded + p[cursor] + 1, visited, steps - 1);
    }
  }

  lemma {:induction false} DecodeAdvances(p: Packet, cursor: nat, next: Option<nat>, output: seq<Byte>,
                                          visited: set<nat>, steps: nat)
    requires DecodeFrom(p, cursor, next, output, visited, steps).Ok?
    ensures var end := DecodeFrom(p, cursor, next, output, visited, steps).value.1;
            if next.Some? then end == next.value else cursor < end <= |p|
    decreases steps
  {
    hide Canonical, Lower;
    if p[cursor] >= 0xC0 {
      var target := Target(p, cursor);
      DecodeAdvances(p, target, Some(if next.Some? then next.value else cursor + 2), output, visited + {target},
          steps - 1);
    } else if p[cursor] > 0 {
      var end := cursor + 1 + p[cursor];
      DecodeAdvances(p, end, next, output + [p[cursor]] + Lower(p[cursor + 1..end]), visited, steps - 1);
    }
  }

  /** The part of a name before offset `i`, extended by the label there. */
  lemma NextLabel(n: seq<Byte>, i: nat, end: nat)
    requires i < end <= |n| && 1 <= n[i] <= 63 && end == i + 1 + n[i] && Labels(n[..i], 0)
    ensures Lower(n[..end]) == Lower(n[..i]) + [n[i]] + Lower(n[i + 1..end])
    ensures Labels(n[..end], 0)
  {
    hide Lower, Labels;
    assert n[..end] == n[..i] + [n[i]] + n[i + 1..end];
    LowerConcat(n[..i] + [n[i]], n[i + 1..end]);
    LowerConcat(n[..i], [n[i]]);
    assert Lower([n[i]]) == [n[i]];
    LabelsAppend(n[..i], n[i + 1..end]);
  }

  lemma LastOctet(n: seq<Byte>)
    requires WireName(n) && Labels(n[..|n| - 1], 0)
    ensures Canonical(Lower(n[..|n| - 1]) + [0]) == Ok(Lower(n))
  {
    var labels := n[..|n| - 1];
    assert Lower(labels) + [0] == Lower(n);
    LabelsLower(labels, 0);
    RootCloses(Lower(labels));
    assert Lower(Lower(n)) == Lower(n);
  }

  /** An uncompressed name decodes from anywhere to its lower-case form. */
  lemma {:induction false} WireNameDecodesFrom(p: Packet, start: nat, n: seq<Byte>, i: nat, steps: nat)
    requires WireName(n) && At(p, start, n) && i < |n| && Labels(n[..|n| - 1], i) && Labels(n[..i], 0)
    requires 2 * steps > |n| - i
    ensures DecodeFrom(p, start + i, None, Lower(n[..i]), {}, steps) == Ok((Lower(n), start + |n|))
    decreases |n| - i
  {
    hide Canonical, CanonicalFrom, Lower, At;
    InPacket(p, start, n, i);
    if i == |n| - 1 {
      LastOctet(n);
    } else {
      var end := i + 1 + n[i];
      InSlice(p, start, n, i + 1, end);
      NextLabel(n, i, end);
      WireNameDecodesFrom(p, start, n, end, steps - 1);
    }
  }

  lemma InPacket(p: Packet, start: nat, n: seq<Byte>, i: nat)
    requires At(p, start, n) && i < |n|
    ensures start + |n| <= |p| && p[start + i] == n[i]
  {
    AtIndex(p, start, n, i);
  }

  lemma InSlice(p: Packet, start: nat, n: seq<Byte>, a: nat, b: nat)
    requires At(p, start, n) && a <= b <= |n|
    ensures start + b <= |p| && p[start + a..start + b] == n[a..b]
  {
    AtSlice(p, start, n, a, b);
  }

  lemma WireNameDecodes(p: Packet, start: nat, n: seq<Byte>)
    requires WireName(n) && At(p, start, n)
    ensures DecodeName(p, start) == Ok((Lower(n), start + |n|))
  {
    assert n[..0] == [] && Lower(n[..0]) == [];
    WireNameDecodesFrom(p, start, n, 0, MAX_STEPS);
  }
}
