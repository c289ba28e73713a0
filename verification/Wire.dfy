/** DNS names, questions, records and sections as `src/wire/codec.rs` and
    `src/wire/packet.rs` read them (section 4.1 of RFC 1035). */
module Wire {
  import opened Bytes

  datatype WireError =
    | ShortPacket | InvalidLabel | CompressionLoop | NameTooLong | TrailingData
    | WrongDirection | UnsupportedOpcode | WrongQuestionCount | NoQuestion
    | InvalidRecord | ResponseTooLarge

  datatype Result<+T> = Ok(value: T) | Err(error: WireError) {
    predicate IsFailure() { Err? }
    function PropagateFailure<U>(): Result<U> requires Err? { Err(error) }
    function Extract(): T requires Ok? { value }
  }

  type Packet = seq<Byte>

  const HEADER_LEN := 12
  const CLASS_IN := 1
  const TYPE_OPT := 41
  const TYPE_RRSIG := 46
  const TYPE_TSIG := 250
  const MAX_JUMPS := 128
  const MAX_NAME := 255

  function ReadU16(p: Packet, i: nat): Result<U16> {
    if i + 2 <= |p| then Ok(U16At(p, i)) else Err(ShortPacket)
  }

  function ReadU32(p: Packet, i: nat): Result<U32> {
    if i + 4 <= |p| then Ok(U32At(p, i)) else Err(ShortPacket)
  }

  /** A canonical (lower-case, uncompressed) name and the offset behind its first occurrence. */
  datatype NameAt = NameAt(wire: seq<Byte>, next: nat)

  /** The loop of `read_name`: `next` is the offset to continue at once a pointer was followed. */
  function NameFrom(p: Packet, cursor: nat, next: Option<nat>, pointers: nat, wire: seq<Byte>): Result<NameAt>
    requires pointers <= MAX_JUMPS
    decreases MAX_JUMPS - pointers, |p| - cursor
  {
    if cursor >= |p| then Err(ShortPacket)
    else if p[cursor] == 0 then
      Ok(NameAt(wire + [0], if next.Some? then next.value else cursor + 1))
    else if p[cursor] >= 0xC0 then
      if cursor + 1 >= |p| then Err(ShortPacket)
      else if Target(p, cursor) >= cursor || Target(p, cursor) >= |p| then Err(CompressionLoop)
      else if pointers + 1 > MAX_JUMPS then Err(CompressionLoop)
      else NameFrom(p, Target(p, cursor), Some(if next.Some? then next.value else cursor + 2), pointers + 1, wire)
    else if p[cursor] >= 0x40 then Err(InvalidLabel)
    else
      var end := cursor + 1 + p[cursor];
      if end > |p| then Err(ShortPacket)
      else if 1 + |wire| + p[cursor] + 1 > MAX_NAME then Err(NameTooLong)
      else NameFrom(p, end, next, pointers, wire + [p[cursor]] + Lower(p[cursor + 1..end]))
  }

  function ReadName(p: Packet, offset: nat): Result<NameAt> {
    NameFrom(p, offset, None, 0, [])
  }

  /** One round of the loop. */
  lemma NameStep(p: Packet, cursor: nat, next: Option<nat>, pointers: nat, wire: seq<Byte>)
    requires pointers <= MAX_JUMPS
    ensures var r := NameFrom(p, cursor, next, pointers, wire);
            if cursor >= |p| then r == Err(ShortPacket)
            else if p[cursor] == 0 then r == Ok(NameAt(wire + [0], if next.Some? then next.value else cursor + 1))
            else if p[cursor] >= 0xC0 then
              if cursor + 1 >= |p| then r == Err(ShortPacket)
              else if Target(p, cursor) >= cursor || pointers + 1 > MAX_JUMPS then r == Err(CompressionLoop)
              else
                var next' := Some(if next.Some? then next.value else cursor + 2);
                r == NameFrom(p, Target(p, cursor), next', pointers + 1, wire)
            else if p[cursor] >= 0x40 then r == Err(InvalidLabel)
            else
              var end := cursor + 1 + p[cursor];
              if end > |p| then r == Err(ShortPacket)
              else if |wire| + 2 + p[cursor] > MAX_NAME then r == Err(NameTooLong)
              else r == NameFrom(p, end, next, pointers, wire + [p[cursor]] + Lower(p[cursor + 1..end]))
  {
    hide Lower;
  }

  /** `read_name` in place. */
  method ReadNameInPlace(p: Packet, offset: nat) returns (r: Result<NameAt>)
    ensures r == ReadName(p, offset)
  {
    hide NameFrom, Lower;
    NameStep(p, offset, None, 0, []);
    if offset >= |p| {
      return Err(ShortPacket);
    }
    var cursor: nat, nextOffset: nat, jumped := offset, offset, false;
    var pointerSteps, expandedLength: nat := 0, 1;
    var canonical: seq<Byte> := [];
    while true
      invariant pointerSteps <= MAX_JUMPS && expandedLength == 1 + |canonical|
      invariant !jumped ==> nextOffset == cursor
      invariant NameFrom(p, cursor, if jumped then Some(nextOffset) else None, pointerSteps, canonical) ==
                ReadName(p, offset)
      decreases MAX_JUMPS - pointerSteps, |p| - cursor
    {
      NameStep(p, cursor, if jumped then Some(nextOffset) else None, pointerSteps, canonical);
      if cursor >= |p| {
        return Err(ShortPacket);
      }
      var length := p[cursor];
      if length == 0 {
        if !jumped {
          nextOffset := cursor + 1;
        }
        return Ok(NameAt(canonical + [0], nextOffset));
      }
      if length >= 0xC0 {
        if cursor + 1 >= |p| {
          return Err(ShortPacket);
        }
        var pointer := Target(p, cursor);
        if pointer >= cursor || pointer >= |p| {
          return Err(CompressionLoop);
        }
        pointerSteps := pointerSteps + 1;
        if pointerSteps > MAX_JUMPS {
          return Err(CompressionLoop);
        }
        if !jumped {
          nextOffset, jumped := cursor + 2, true;
        }
        cursor := pointer;
        continue;
      }
      if length >= 0x40 {
        return Err(InvalidLabel);
      }
      var end := cursor + 1 + length;
      if end > |p| {
        return Err(ShortPacket);
      }
      expandedLength := expandedLength + length + 1;
      if expandedLength > MAX_NAME {
        return Err(NameTooLong);
      }
      canonical := canonical + [length] + Lower(p[cursor + 1..end]);
      cursor := end;
      if !jumped {
        nextOffset := cursor;
      }
    }
  }

  datatype Record = Record(name: seq<Byte>, rrType: U16, class_: U16, ttl: U32, rdataOffset: nat, rdata: seq<Byte>,
      next: nat)

  /** `parse_question`: the offset behind the question. */
  function QuestionEnd(p: Packet, offset: nat): Result<nat> {
    var name :- ReadName(p, offset);
    var _ :- ReadU16(p, name.next);
    var _ :- ReadU16(p, name.next + 2);
    Ok(name.next + 4)
  }

  function ParseRecord(p: Packet, offset: nat): Result<Record> {
    var name :- ReadName(p, offset);
    var fixed := name.next;
    var rrType :- ReadU16(p, fixed);
    var class_ :- ReadU16(p, fixed + 2);
    var ttl :- ReadU32(p, fixed + 4);
    var length :- ReadU16(p, fixed + 8);
    var start := fixed + 10;
    if start + length > |p| then Err(ShortPacket)
    else Ok(Record(name.wire, rrType, class_, ttl, start, p[start..start + length], start + length))
  }

  datatype Header = Header(id: U16, flags: U16, questions: U16, answers: U16, authorities: U16, additionals: U16) {
    predicate IsResponse() { flags >= 0x8000 }
    function Opcode(): nat { flags / 0x800 % 16 }
    function Rcode(): nat { flags % 16 }
    predicate Truncated() { flags / 0x200 % 2 == 1 }
    function TotalRecords(): nat { answers as nat + authorities + additionals }
  }

  function ParseHeader(p: Packet): Result<Header> {
    if |p| < HEADER_LEN then Err(ShortPacket)
    else Ok(Header(U16At(p, 0), U16At(p, 2), U16At(p, 4), U16At(p, 6), U16At(p, 8), U16At(p, 10)))
  }

  /** The offset behind `n` questions. */
  function SkipQuestions(p: Packet, offset: nat, n: nat): Result<nat>
    decreases n
  {
    if n == 0 then Ok(offset)
    else
      var next :- QuestionEnd(p, offset);
      SkipQuestions(p, next, n - 1)
  }

  /** The offset behind `n` records. */
  function RecordsEnd(p: Packet, offset: nat, n: nat): Result<nat>
    decreases n
  {
    if n == 0 then Ok(offset)
    else
      var record :- ParseRecord(p, offset);
      RecordsEnd(p, record.next, n - 1)
  }

  /** `validate`. */
  function Validate(p: Packet, expectResponse: bool): Result<()> {
    var header :- ParseHeader(p);
    var offset :- SkipQuestions(p, HEADER_LEN, header.questions);
    var end :- RecordsEnd(p, offset, header.TotalRecords());
    if header.IsResponse() != expectResponse then Err(WrongDirection)
    else if header.Opcode() != 0 then Err(UnsupportedOpcode)
    else if header.questions == 0 then Err(NoQuestion)
    else if !expectResponse && header.questions != 1 then Err(WrongQuestionCount)
    else if end != |p| then Err(TrailingData)
    else Ok(())
  }

  const RRSIG_FIXED := 18

  /** The type an RRSIG record of the root covers; an error when it is too short or not signed
      by the root. */
  function CoveredType(p: Packet, r: Record): Result<U16> {
    if |r.rdata| < RRSIG_FIXED + 2 then Err(InvalidRecord)
    else
      var signer :- ReadName(p, r.rdataOffset + RRSIG_FIXED);
      if signer.wire != [0] || signer.next >= r.next then Err(InvalidRecord)
      else Ok(U16At(r.rdata, 0))
  }

  /** The record loop of `root_rrsig_missing`: types of root records that need a signature and
      types that have one. */
  function RootTypes(p: Packet, offset: nat, index: nat, total: nat, signed: nat, required: set<U16>, covered: set<U16>)
    : Result<(set<U16>, set<U16>, nat)>
    requires index <= total
    decreases total - index
  {
    if index == total then Ok((required, covered, offset))
    else
      var r :- ParseRecord(p, offset);
      if r.class_ != CLASS_IN || r.name != [0] then RootTypes(p, r.next, index + 1, total, signed, required, covered)
      else if r.rrType == TYPE_RRSIG then
        var t :- CoveredType(p, r);
        RootTypes(p, r.next, index + 1, total, signed, required, covered + {t})
      else if index < signed && r.rrType != TYPE_OPT && r.rrType != TYPE_TSIG then
        RootTypes(p, r.next, index + 1, total, signed, required + {r.rrType}, covered)
      else RootTypes(p, r.next, index + 1, total, signed, required, covered)
  }

  /** `root_rrsig_missing`. */
  function RootRrsigMissing(p: Packet): Result<bool> {
    var header :- ParseHeader(p);
    if !header.IsResponse() then Err(WrongDirection)
    else
      var offset :- SkipQuestions(p, HEADER_LEN, header.questions);
      var (required, covered, end) :-
        RootTypes(p, offset, 0, header.TotalRecords(), header.answers as nat + header.authorities, {}, {});
      if end != |p| then Err(TrailingData) else Ok(!(required <= covered))
  }
}
