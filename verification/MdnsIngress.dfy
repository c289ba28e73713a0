/** Ingress validation against parsing (`src/mdns_full.rs`, `src/mdns_responder.rs`): which packets
    `validate_sections` lets through, and that it lets through what the responder itself sends. */
module MdnsIngress {
  import opened Bytes
  import opened MdnsNames
  import opened MdnsMessages

  // The sections as the decoder reads them, RDATA left alone.

  function QuestionsEnd(p: Packet, offset: nat, n: nat): Outcome<nat>
    decreases n
  {
    if n == 0 then Good(offset)
    else
      var (_, end) :- Lift(DecodeName(p, offset));
      if end + 4 > |p| then Bad(TruncatedQuestion) else QuestionsEnd(p, end + 4, n - 1)
  }

  function RecordsEnd(p: Packet, offset: nat, n: nat): Outcome<nat>
    decreases n
  {
    if n == 0 then Good(offset)
    else
      var (_, end) :- Lift(DecodeName(p, offset));
      if end + 10 > |p| then Bad(TruncatedRecord)
      else
        var next := end + 10 + U16At(p, end + 8);
        if next > |p| then Bad(TruncatedRecord) else RecordsEnd(p, next, n - 1)
  }

  function Total(p: Packet): nat
    requires |p| >= HEADER_LEN
  {
    U16At(p, 6) as nat + U16At(p, 8) + U16At(p, 10)
  }

  /** All sections parse, RDATA aside, and fill the packet. */
  predicate SectionsParse(p: Packet)
    requires |p| >= HEADER_LEN
  {
    var records := QuestionsEnd(p, HEADER_LEN, U16At(p, 4));
    records.Good? && RecordsEnd(p, records.value, Total(p)) == Good(|p|)
  }

  predicate QuestionsBackward(p: Packet, offset: nat, n: nat)
    decreases n
  {
    n > 0 ==>
      && Backward(p, offset, MAX_STEPS)
      && (DecodeName(p, offset).Ok? ==> QuestionsBackward(p, DecodeName(p, offset).value.1 + 4, n - 1))
  }

  predicate OwnersBackward(p: Packet, offset: nat, n: nat)
    decreases n
  {
    n > 0 ==>
      && Backward(p, offset, MAX_STEPS)
      && (DecodeName(p, offset).Ok? && DecodeName(p, offset).value.1 + 10 <= |p| ==>
            var end := DecodeName(p, offset).value.1;
            OwnersBackward(p, end + 10 + U16At(p, end + 8), n - 1))
  }

  /** No question or owner name follows a pointer forward. */
  predicate SectionsBackward(p: Packet)
    requires |p| >= HEADER_LEN
  {
    && QuestionsBackward(p, HEADER_LEN, U16At(p, 4))
    && (QuestionsEnd(p, HEADER_LEN, U16At(p, 4)).Good? ==>
          OwnersBackward(p, QuestionsEnd(p, HEADER_LEN, U16At(p, 4)).value, Total(p)))
  }

  predicate Validates(p: Packet)
    requires |p| >= HEADER_LEN
  {
    ValidateSections(p, U16At(p, 4), U16At(p, 6), U16At(p, 8), U16At(p, 10)).Good?
  }

  lemma {:induction false} QuestionsAgree(p: Packet, offset: nat, n: nat)
    ensures CheckQuestions(p, offset, n).Good? <==> QuestionsEnd(p, offset, n).Good? && QuestionsBackward(p, offset, n)
    ensures CheckQuestions(p, offset, n).Good? ==> CheckQuestions(p, offset, n) == QuestionsEnd(p, offset, n)
    decreases n
  {
    hide SkipName, DecodeName, Backward;
    if n > 0 {
      WalkersAgree(p, offset);
      if DecodeName(p, offset).Ok? {
        QuestionsAgree(p, DecodeName(p, offset).value.1 + 4, n - 1);
      }
    }
  }

  lemma {:induction false} RecordsAgree(p: Packet, offset: nat, n: nat)
    ensures CheckRecords(p, offset, n).Good? <==> RecordsEnd(p, offset, n).Good? && OwnersBackward(p, offset, n)
    ensures CheckRecords(p, offset, n).Good? ==> CheckRecords(p, offset, n) == RecordsEnd(p, offset, n)
    decreases n
  {
    hide SkipName, DecodeName, Backward, U16At;
    if n > 0 {
      WalkersAgree(p, offset);
      if DecodeName(p, offset).Ok? && DecodeName(p, offset).value.1 + 10 <= |p| {
        var end := DecodeName(p, offset).value.1;
        RecordsAgree(p, end + 10 + U16At(p, end + 8), n - 1);
      }
    }
  }

  /** Validation lets a packet through exactly when its sections parse up to RDATA and none of its
      names follows a pointer forward. */
  lemma ValidatesExactly(p: Packet)
    requires |p| >= HEADER_LEN
    ensures Validates(p) <==> SectionsParse(p) && SectionsBackward(p)
  {
    hide CheckQuestions, CheckRecords, QuestionsEnd, RecordsEnd, QuestionsBackward, OwnersBackward, U16At;
    var questions := U16At(p, 4);
    QuestionsAgree(p, HEADER_LEN, questions);
    if QuestionsEnd(p, HEADER_LEN, questions).Good? {
      RecordsAgree(p, QuestionsEnd(p, HEADER_LEN, questions).value, Total(p));
    }
  }

  lemma {:induction false} ReadQuestionsEnd(p: Packet, offset: nat, n: nat)
    requires ReadQuestions(p, offset, n).Good?
    ensures QuestionsEnd(p, offset, n) == Good(ReadQuestions(p, offset, n).value.1)
    decreases n
  {
    hide DecodeName;
    if n > 0 {
      ReadQuestionsEnd(p, DecodeName(p, offset).value.1 + 4, n - 1);
    }
  }

  lemma {:induction false} ReadRecordsEnd(p: Packet, offset: nat, index: nat, total: nat, answers: nat,
                                          authorities: nat)
    requires index <= total && ReadRecords(p, offset, index, total, answers, authorities).Good?
    ensures RecordsEnd(p, offset, total - index) ==
            Good(ReadRecords(p, offset, index, total, answers, authorities).value.1)
    decreases total - index
  {
    hide DecodeName, ExpandRdata, U16At, U32At;
    if index < total {
      var end := DecodeName(p, offset).value.1;
      ReadRecordsEnd(p, end + 10 + U16At(p, end + 8), index + 1, total, answers, authorities);
    }
  }

  /** A packet the parser takes passes validation exactly when its section names point backward. */
  lemma ParsedValidates(p: Packet)
    requires ParseMessage(p).Good?
    ensures |p| >= HEADER_LEN && SectionsParse(p)
    ensures Validates(p) <==> SectionsBackward(p)
  {
    hide ReadQuestions, ReadRecords, QuestionsEnd, RecordsEnd, SectionsBackward, U16At;
    ReadQuestionsEnd(p, HEADER_LEN, U16At(p, 4));
    var offset := ReadQuestions(p, HEADER_LEN, U16At(p, 4)).value.1;
    ReadRecordsEnd(p, offset, 0, Total(p), U16At(p, 6), U16At(p, 8));
    ValidatesExactly(p);
  }

  // What the responder sends holds no pointers.

  lemma {:induction false} UncompressedBackward(p: Packet, start: nat, n: seq<Byte>, i: nat, steps: nat)
    requires WireName(n) && At(p, start, n) && i < |n| && Labels(n[..|n| - 1], i)
    ensures Backward(p, start + i, steps)
    decreases steps
  {
    AtIndex(p, start, n, i);
    if steps > 0 && i < |n| - 1 {
      UncompressedBackward(p, start, n, i + 1 + n[i], steps - 1);
    }
  }

  /** An uncompressed name passes the validator, which stops behind it. */
  lemma WireNameSkips(p: Packet, start: nat, n: seq<Byte>)
    requires WireName(n) && At(p, start, n)
    ensures SkipName(p, start) == Ok(start + |n|)
  {
    hide SkipName, DecodeName, Backward, Labels;
    WireNameDecodes(p, start, n);
    UncompressedBackward(p, start, n, 0, MAX_STEPS);
    WalkersAgree(p, start);
  }

  lemma {:induction false} RawQuestionsCheck(p: Packet, offset: nat, raws: seq<seq<Byte>>)
    requires (forall r :: r in raws ==> RawQuestion(r)) && At(p, offset, Concat(raws))
    ensures CheckQuestions(p, offset, |raws|) == Good(offset + |Concat(raws)|)
    decreases raws
  {
    hide SkipName, WireName;
    if raws != [] {
      var raw := raws[0];
      assert RawQuestion(raw);
      var n := |raw| - 4;
      AtConcat(p, offset, raw, Concat(raws[1..]));
      assert raw == raw[..n] + raw[n..];
      AtConcat(p, offset, raw[..n], raw[n..]);
      WireNameSkips(p, offset, raw[..n]);
      RawQuestionsCheck(p, offset + |raw|, raws[1..]);
    }
  }

  lemma {:induction false} RecordsCheck(p: Packet, offset: nat, rs: seq<LocalRecord>, permitFlush: bool)
    requires Records(rs, permitFlush).Good? && At(p, offset, Records(rs, permitFlush).value)
    requires forall r :: r in rs ==> WireName(r.owner)
    ensures CheckRecords(p, offset, |rs|) == Good(offset + |Records(rs, permitFlush).value|)
    decreases rs
  {
    hide SkipName, WireName, Fixed, U16At, U32At;
    if rs != [] {
      var r, rest := rs[0], Records(rs[1..], permitFlush).value;
      var fixed := Fixed(r, permitFlush);
      AtConcat(p, offset, RecordBytes(r, permitFlush), rest);
      AtConcat(p, offset, r.owner + fixed, r.rdata);
      AtConcat(p, offset, r.owner, fixed);
      WireNameSkips(p, offset, r.owner);
      FixedReads(p, offset + |r.owner|, r, permitFlush);
      RecordsCheck(p, offset + |RecordBytes(r, permitFlush)|, rs[1..], permitFlush);
    }
  }

  /** A packet of a header with these counts, raw questions and encoded records passes validation. */
  lemma BuiltValidates(p: Packet, id: U16, flags: U16, raws: seq<seq<Byte>>, answers: U16, authorities: U16,
                       rs: seq<LocalRecord>, permitFlush: bool)
    requires |raws| < 0x1_0000 && Records(rs, permitFlush).Good? && |rs| == answers as nat + authorities
    requires p == HeaderBytes(id, flags, |raws|, answers, authorities) + Concat(raws) + Records(rs, permitFlush).value
    requires (forall r :: r in raws ==> RawQuestion(r)) && (forall r :: r in rs ==> WireName(r.owner))
    ensures |p| >= HEADER_LEN && Validates(p)
  {
    hide HeaderBytes, Concat, Records, CheckQuestions, CheckRecords, U16At, RawQuestion, WireName;
    var head := HeaderBytes(id, flags, |raws|, answers, authorities);
    assert At(p, 0, head + Concat(raws) + Records(rs, permitFlush).value);
    AtConcat(p, 0, head + Concat(raws), Records(rs, permitFlush).value);
    AtConcat(p, 0, head, Concat(raws));
    HeaderReads(p, id, flags, |raws|, answers, authorities);
    RawQuestionsCheck(p, HEADER_LEN, raws);
    RecordsCheck(p, HEADER_LEN + |Concat(raws)|, rs, permitFlush);
  }

  /** Responses pass the validation of whoever receives them. */
  lemma ResponseValidates(id: U16, questions: seq<seq<Byte>>, records: seq<LocalRecord>, legacy: bool)
    requires forall q :: q in questions ==> RawQuestion(q)
    requires forall r :: r in records ==> WireName(r.owner)
    requires ResponsePacket(id, questions, records, legacy).Good?
    ensures var p := ResponsePacket(id, questions, records, legacy).value; |p| >= HEADER_LEN && Validates(p)
  {
    hide HeaderBytes, Concat, Records, RawQuestion, WireName, Validates;
    var p := ResponsePacket(id, questions, records, legacy).value;
    BuiltValidates(p, id, FLAGS_QR_AA, questions, |records|, 0, records, !legacy);
  }
}
