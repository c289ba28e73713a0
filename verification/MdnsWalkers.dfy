/** The loops of `src/mdns_full.rs` and `src/mdns_responder.rs` that walk and build packets. */
module MdnsWalkers {
  import opened Bytes
  import opened MdnsNames
  import opened MdnsMessages

  /** `canonical_wire_name`: accepts exactly the uncompressed names of at most 255 octets. */
  method CanonicalWireName(input: seq<Byte>) returns (r: Result<seq<Byte>>)
    ensures r == Canonical(input)
    ensures r.Ok? <==> WireName(input)
    ensures r.Ok? ==> r.value == Lower(input) && CanonicalName(r.value)
  {
    hide WireName, CanonicalName;
    CanonicalExact(input);
    if input == [] {
      return Err(Empty);
    }
    var output: seq<Byte> := [];
    var offset: nat := 0;
    while true
      invariant CanonicalFrom(input, offset, output) == Canonical(input)
      decreases |input| - offset
    {
      if offset >= |input| {
        return Err(InvalidLabel);
      }
      var length := input[offset];
      if length >= 0x40 {
        return Err(Compressed);
      }
      if length == 0 {
        if offset + 1 != |input| {
          return Err(TrailingData);
        }
        if |output| + 1 > MAX_NAME {
          return Err(TooLong);
        }
        return Ok(output + [0]);
      }
      var end := offset + 1 + length;
      if end > |input| {
        return Err(InvalidLabel);
      }
      output := output + [length] + Lower(input[offset + 1..end]);
      offset := end;
      if |output| >= MAX_NAME {
        return Err(TooLong);
      }
    }
  }

  /** `skip_name`. */
  method Skip(p: Packet, start: nat) returns (r: Result<nat>)
    ensures r == SkipName(p, start)
  {
    var cursor: nat, next: Option<nat>, expanded: nat, visited: set<nat> := start, None, 1, {};
    for k := 0 to MAX_STEPS
      invariant SkipFrom(p, cursor, next, expanded, visited, MAX_STEPS - k) == SkipName(p, start)
    {
      if cursor >= |p| {
        return Err(Truncated);
      }
      var length := p[cursor];
      if length >= 0xC0 {
        if cursor + 1 >= |p| {
          return Err(Truncated);
        }
        var target := Target(p, cursor);
        if target >= |p| || target >= cursor {
          return Err(InvalidPointer);
        }
        if next.None? {
          next := Some(cursor + 2);
        }
        if target in visited {
          return Err(Loop);
        }
        visited := visited + {target};
        cursor := target;
        continue;
      }
      if length >= 0x40 {
        return Err(InvalidLabel);
      }
      cursor := cursor + 1;
      if length == 0 {
        return Ok(if next.Some? then next.value else cursor);
      }
      if cursor + length > |p| {
        return Err(Truncated);
      }
      cursor := cursor + length;
      expanded := expanded + length + 1;
      if expanded > MAX_NAME {
        return Err(InvalidLabel);
      }
    }
    r := Err(Loop);
  }

  /** `decode_name`. */
  method Decode(p: Packet, start: nat) returns (r: Result<(seq<Byte>, nat)>)
    ensures r == DecodeName(p, start)
    ensures SkipName(p, start).Ok? ==> r.Ok? && CanonicalName(r.value.0) && r.value.1 == SkipName(p, start).value
  {
    hide Canonical, CanonicalName, SkipName, Backward;
    WalkersAgree(p, start);
    var output: seq<Byte>, cursor: nat, next: Option<nat>, visited: set<nat> := [], start, None, {};
    for k := 0 to MAX_STEPS
      invariant DecodeFrom(p, cursor, next, output, visited, MAX_STEPS - k) == DecodeName(p, start)
    {
      if cursor >= |p| {
        return Err(Truncated);
      }
      var length := p[cursor];
      if length >= 0xC0 {
        if cursor + 1 >= |p| {
          return Err(Truncated);
        }
        var target := Target(p, cursor);
        if target >= |p| || target in visited {
          return Err(InvalidPointer);
        }
        visited := visited + {target};
        if next.None? {
          next := Some(cursor + 2);
        }
        cursor := target;
        continue;
      }
      if length >= 0x40 {
        return Err(InvalidLabel);
      }
      if length == 0 {
        var name := CanonicalWireName(output + [0]);
        if name.Err? {
          return Err(name.error);
        }
        return Ok((name.value, if next.Some? then next.value else cursor + 1));
      }
      var end := cursor + 1 + length;
      if end > |p| {
        return Err(Truncated);
      }
      output := output + [length] + Lower(p[cursor + 1..end]);
      cursor := end;
    }
    r := Err(Loop);
  }

  /** `validate_sections`. */
  method Validate(p: Packet, questions: U16, answers: U16, authorities: U16, additionals: U16) returns (r: Outcome<()>)
    ensures r == ValidateSections(p, questions, answers, authorities, additionals)
  {
    hide SkipName;
    var offset: nat := HEADER_LEN;
    for k := 0 to questions
      invariant CheckQuestions(p, offset, questions - k) == CheckQuestions(p, HEADER_LEN, questions)
    {
      var end := Skip(p, offset);
      if end.Err? {
        return Bad(BadName(end.error));
      }
      if end.value + 4 > |p| {
        return Bad(TruncatedQuestion);
      }
      offset := end.value + 4;
    }
    var records := answers as nat + authorities + additionals;
    ghost var first := offset;
    for k := 0 to records
      invariant CheckRecords(p, offset, records - k) == CheckRecords(p, first, records)
    {
      var end := Skip(p, offset);
      if end.Err? {
        return Bad(BadName(end.error));
      }
      if end.value + 10 > |p| {
        return Bad(TruncatedRecord);
      }
      var next := end.value + 10 + U16At(p, end.value + 8);
      if next > |p| {
        return Bad(TruncatedRecord);
      }
      offset := next;
    }
    r := if offset != |p| then Bad(TruncatedRecord) else Good(());
  }

  /** `parse_message`: fails only in RDATA on a packet that validates. */
  method Parse(p: Packet) returns (r: Outcome<Message>)
    ensures r == ParseMessage(p)
    ensures |p| >= HEADER_LEN && ValidateSections(p, U16At(p, 4), U16At(p, 6), U16At(p, 8), U16At(p, 10)).Good? &&
            r.Bad? ==>
              r.error == BadRdata
  {
    hide ReadQuestion, ReadRecord, ValidateSections, U16At;
    if |p| < HEADER_LEN {
      return Bad(ShortPacket);
    }
    if ValidateSections(p, U16At(p, 4), U16At(p, 6), U16At(p, 8), U16At(p, 10)).Good? {
      ValidatedParses(p);
    }
    var questions: seq<Question>, offset: nat := [], HEADER_LEN;
    QuestionsPrepended([], ReadQuestions(p, HEADER_LEN, U16At(p, 4)));
    for k := 0 to U16At(p, 4)
      invariant ReadQuestions(p, HEADER_LEN, U16At(p, 4)) ==
                WithQuestions(questions, ReadQuestions(p, offset, U16At(p, 4) - k))
    {
      var q := ReadQuestion(p, offset);
      if q.Bad? {
        return Bad(q.error);
      }
      QuestionMoved(questions, q.value.0, ReadQuestions(p, q.value.1, U16At(p, 4) - k - 1));
      questions, offset := questions + [q.value.0], q.value.1;
    }
    var answers, authorities := U16At(p, 6), U16At(p, 8);
    var total := answers as nat + authorities + U16At(p, 10);
    ghost var first := offset;
    var records: seq<Record> := [];
    RecordsPrepended([], ReadRecords(p, first, 0, total, answers, authorities));
    for k := 0 to total
      invariant ReadRecords(p, first, 0, total, answers, authorities) ==
                WithRecords(records, ReadRecords(p, offset, k, total, answers, authorities))
    {
      var record := ReadRecord(p, offset, SectionOf(k, answers, authorities));
      if record.Bad? {
        return Bad(record.error);
      }
      RecordMoved(records, record.value.0, ReadRecords(p, record.value.1, k + 1, total, answers, authorities));
      records, offset := records + [record.value.0], record.value.1;
    }
    assert questions + [] == questions && records + [] == records;
    if offset != |p| {
      return Bad(Trailing);
    }
    r := Good(Message(U16At(p, 0), U16At(p, 2), questions, records));
  }

  function WithQuestions(before: seq<Question>, rest: Outcome<(seq<Question>, nat)>): Outcome<(seq<Question>, nat)> {
    match rest
    case Good((qs, end)) => Good((before + qs, end))
    case Bad(e) => Bad(e)
  }

  function WithRecords(before: seq<Record>, rest: Outcome<(seq<Record>, nat)>): Outcome<(seq<Record>, nat)> {
    match rest
    case Good((rs, end)) => Good((before + rs, end))
    case Bad(e) => Bad(e)
  }

  lemma QuestionsPrepended(none: seq<Question>, rest: Outcome<(seq<Question>, nat)>)
    requires none == []
    ensures WithQuestions(none, rest) == rest
  {
    assert rest.Good? ==> none + rest.value.0 == rest.value.0;
  }

  lemma QuestionMoved(before: seq<Question>, q: Question, rest: Outcome<(seq<Question>, nat)>)
    ensures WithQuestions(before, WithQuestions([q], rest)) == WithQuestions(before + [q], rest)
  {
    if rest.Good? {
      Assoc(before, [q], rest.value.0);
    }
  }

  lemma RecordsPrepended(none: seq<Record>, rest: Outcome<(seq<Record>, nat)>)
    requires none == []
    ensures WithRecords(none, rest) == rest
  {
    assert rest.Good? ==> none + rest.value.0 == rest.value.0;
  }

  lemma RecordMoved(before: seq<Record>, r: Record, rest: Outcome<(seq<Record>, nat)>)
    ensures WithRecords(before, WithRecords([r], rest)) == WithRecords(before + [r], rest)
  {
    if rest.Good? {
      Assoc(before, [r], rest.value.0);
    }
  }

  /** `response_packet`: what it builds from canonical records parses back to them. */
  method BuildResponse(id: U16, questions: seq<seq<Byte>>, records: seq<LocalRecord>,
                       legacy: bool) returns (r: Outcome<seq<Byte>>)
    ensures r == ResponsePacket(id, questions, records, legacy)
    ensures r.Good? && (forall q :: q in questions ==> RawQuestion(q)) &&
            (forall x :: x in records ==> PlainRecord(x)) ==>
              ParseMessage(r.value) ==
                  Good(Message(id, FLAGS_QR_AA, QuestionsOf(questions), ReadBackAll(records, legacy, Answer)))
  {
    hide HeaderBytes, RecordBytes, RawQuestion, PlainRecord, ParseMessage;
    if |questions| >= 0x1_0000 || |records| >= 0x1_0000 {
      return Bad(TooMany);
    }
    var header := HeaderBytes(id, FLAGS_QR_AA, |questions|, |records|, 0);
    var qs := JoinQuestions(questions);
    var rs := JoinRecords(records, !legacy);
    if rs.Bad? {
      return Bad(rs.error);
    }
    r := Good(header + qs + rs.value);
    if (forall q :: q in questions ==> RawQuestion(q)) && (forall x :: x in records ==> PlainRecord(x)) {
      ResponseReadsBack(id, questions, records, legacy);
    }
  }

  method JoinQuestions(questions: seq<seq<Byte>>) returns (output: seq<Byte>)
    ensures output == Concat(questions)
  {
    output := [];
    assert questions[0..] == questions;
    for k := 0 to |questions|
      invariant output + Concat(questions[k..]) == Concat(questions)
    {
      assert questions[k..][1..] == questions[k + 1..];
      Assoc(output, questions[k], Concat(questions[k + 1..]));
      output := output + questions[k];
    }
    assert output + [] == output;
  }

  method JoinRecords(records: seq<LocalRecord>, permitFlush: bool) returns (r: Outcome<seq<Byte>>)
    ensures r == Records(records, permitFlush)
  {
    hide RecordBytes;
    var output: seq<Byte> := [];
    assert records[0..] == records;
    assert Records(records, permitFlush).Good? ==>
        output + Records(records, permitFlush).value == Records(records, permitFlush).value;
    for k := 0 to |records|
      invariant match Records(records[k..], permitFlush)
                case Good(rest) => Records(records, permitFlush) == Good(output + rest)
                case Bad(e) => Records(records, permitFlush) == Bad(e)
    {
      assert records[k..][1..] == records[k + 1..];
      if |records[k].rdata| >= 0x1_0000 {
        return Bad(TooMany);
      }
      var bytes := RecordBytes(records[k], permitFlush);
      if Records(records[k + 1..], permitFlush).Good? {
        Assoc(output, bytes, Records(records[k + 1..], permitFlush).value);
      }
      output := output + bytes;
    }
    assert output + [] == output;
    r := Good(output);
  }
}
