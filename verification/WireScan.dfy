/** The section loops of `src/wire/packet.rs` and `src/wire/dnssec.rs` in place. */
module WireScan {
  import opened Bytes
  import opened Wire

  /** The offset behind the questions. */
  method PassQuestions(p: Packet, n: nat) returns (r: Result<nat>)
    ensures r == SkipQuestions(p, HEADER_LEN, n)
  {
    hide QuestionEnd;
    var offset: nat := HEADER_LEN;
    for i := 0 to n
      invariant SkipQuestions(p, HEADER_LEN, n) == SkipQuestions(p, offset, n - i)
    {
      var next := QuestionEnd(p, offset);
      if next.Err? {
        return Err(next.error);
      }
      offset := next.value;
    }
    return Ok(offset);
  }

  method ValidatePacket(p: Packet, expectResponse: bool) returns (r: Result<()>)
    ensures r == Validate(p, expectResponse)
  {
    hide SkipQuestions, ParseRecord;
    var header :- ParseHeader(p);
    var offset :- PassQuestions(p, header.questions);
    ghost var start := offset;
    var total := header.TotalRecords();
    for i := 0 to total
      invariant RecordsEnd(p, start, total) == RecordsEnd(p, offset, total - i)
    {
      var record := ParseRecord(p, offset);
      if record.Err? {
        return Err(record.error);
      }
      offset := record.value.next;
    }
    if header.IsResponse() != expectResponse {
      return Err(WrongDirection);
    }
    if header.Opcode() != 0 {
      return Err(UnsupportedOpcode);
    }
    if header.questions == 0 {
      return Err(NoQuestion);
    }
    if !expectResponse && header.questions != 1 {
      return Err(WrongQuestionCount);
    }
    if offset != |p| {
      return Err(TrailingData);
    }
    return Ok(());
  }

  method MissingRootRrsig(p: Packet) returns (r: Result<bool>)
    ensures r == RootRrsigMissing(p)
  {
    hide SkipQuestions, ParseRecord, CoveredType;
    var header :- ParseHeader(p);
    if !header.IsResponse() {
      return Err(WrongDirection);
    }
    var offset :- PassQuestions(p, header.questions);
    ghost var start := offset;
    var signed := header.answers as nat + header.authorities;
    var total := header.TotalRecords();
    var required: set<U16>, covered: set<U16> := {}, {};
    for index := 0 to total
      invariant RootTypes(p, start, 0, total, signed, {}, {}) ==
                RootTypes(p, offset, index, total, signed, required, covered)
    {
      var parsed := ParseRecord(p, offset);
      if parsed.Err? {
        return Err(parsed.error);
      }
      var record := parsed.value;
      offset := record.next;
      if record.class_ != CLASS_IN || record.name != [0] {
        continue;
      }
      if record.rrType == TYPE_RRSIG {
        var typeCovered := CoveredType(p, record);
        if typeCovered.Err? {
          return Err(typeCovered.error);
        }
        covered := covered + {typeCovered.value};
      } else if index < signed && record.rrType != TYPE_OPT && record.rrType != TYPE_TSIG {
        required := required + {record.rrType};
      }
    }
    if offset != |p| {
      return Err(TrailingData);
    }
    return Ok(!(required <= covered));
  }
}
