/** mDNS messages: section validation (`src/mdns_full.rs`), full parsing and response encoding
    (`src/mdns_responder.rs`). */
module MdnsMessages {
  import opened Bytes
  import opened MdnsNames

  const HEADER_LEN := 12
  const TOP_BIT := 0x8000
  const FLAGS_QR_AA := 0x8400
  const TYPE_CNAME := 5
  const TYPE_PTR := 12
  const TYPE_SRV := 33
  const LEGACY_TTL_MAX := 10

  datatype Error =
    | ShortPacket | BadName(name: NameError) | TruncatedQuestion | TruncatedRecord | Trailing | BadRdata | TooMany

  datatype Outcome<+T> = Good(value: T) | Bad(error: Error) {
    predicate IsFailure() { Bad? }
    function PropagateFailure<U>(): Outcome<U> requires Bad? { Bad(error) }
    function Extract(): T requires Good? { value }
  }

  function Lift<T>(r: Result<T>): Outcome<T> {
    match r
    case Ok(v) => Good(v)
    case Err(e) => Bad(BadName(e))
  }

  // The validating walk.

  function CheckQuestions(p: Packet, offset: nat, n: nat): Outcome<nat>
    decreases n
  {
    if n == 0 then Good(offset)
    else
      var end :- Lift(SkipName(p, offset));
      if end + 4 > |p| then Bad(TruncatedQuestion) else CheckQuestions(p, end + 4, n - 1)
  }

  function CheckRecords(p: Packet, offset: nat, n: nat): Outcome<nat>
    decreases n
  {
    if n == 0 then Good(offset)
    else
      var end :- Lift(SkipName(p, offset));
      if end + 10 > |p| then Bad(TruncatedRecord)
      else
        var next := end + 10 + U16At(p, end + 8);
        if next > |p| then Bad(TruncatedRecord) else CheckRecords(p, next, n - 1)
  }

  /** `validate_sections`, on the counts of a packet's header. */
  function ValidateSections(p: Packet, questions: U16, answers: U16, authorities: U16, additionals: U16): Outcome<()> {
    var records :- CheckQuestions(p, HEADER_LEN, questions);
    var end :- CheckRecords(p, records, answers as nat + authorities + additionals);
    if end != |p| then Bad(TruncatedRecord) else Good(())
  }

  // The parser.

  datatype Question = Question(owner: seq<Byte>, rrType: U16, class_: U16, qu: bool, raw: seq<Byte>)

  datatype Section = Answer | Authority | Additional

  datatype Record = Record(owner: seq<Byte>, rrType: U16, class_: U16, ttl: U32, rdata: seq<Byte>, section: Section)

  datatype Message = Message(id: U16, flags: U16, questions: seq<Question>, records: seq<Record>)

  function ReadQuestion(p: Packet, offset: nat): Outcome<(Question, nat)> {
    var (owner, end) :- Lift(DecodeName(p, offset));
    if end + 4 > |p| then Bad(TruncatedQuestion)
    else
      DecodeAdvances(p, offset, None, [], {}, MAX_STEPS);
      var class_ := U16At(p, end + 2);
      Good((Question(owner, U16At(p, end), class_ % TOP_BIT, class_ >= TOP_BIT, p[offset..end + 4]), end + 4))
  }

  function ReadQuestions(p: Packet, offset: nat, n: nat): Outcome<(seq<Question>, nat)>
    decreases n
  {
    if n == 0 then Good(([], offset))
    else
      var (first, next) :- ReadQuestion(p, offset);
      var (rest, end) :- ReadQuestions(p, next, n - 1);
      Good(([first] + rest, end))
  }

  /** `expand_rdata`: names inside RDATA are decompressed. */
  function ExpandRdata(p: Packet, rrType: U16, start: nat, end: nat): Outcome<seq<Byte>>
    requires start <= end <= |p|
  {
    if rrType == TYPE_CNAME || rrType == TYPE_PTR then
      var name := DecodeName(p, start);
      if name.Err? || name.value.1 != end then Bad(BadRdata) else Good(name.value.0)
    else if rrType == TYPE_SRV then
      if start + 6 > end then Bad(BadRdata)
      else
        var name := DecodeName(p, start + 6);
        if name.Err? || name.value.1 != end then Bad(BadRdata) else Good(p[start..start + 6] + name.value.0)
    else Good(p[start..end])
  }

  function ReadRecord(p: Packet, offset: nat, section: Section): Outcome<(Record, nat)> {
    var (owner, end) :- Lift(DecodeName(p, offset));
    if end + 10 > |p| then Bad(TruncatedRecord)
    else
      var start := end + 10;
      var next := start + U16At(p, end + 8);
      if next > |p| then Bad(TruncatedRecord)
      else
        var rdata :- ExpandRdata(p, U16At(p, end), start, next);
        Good((Record(owner, U16At(p, end), U16At(p, end + 2) % TOP_BIT, U32At(p, end + 4), rdata, section), next))
  }

  function SectionOf(index: nat, answers: nat, authorities: nat): Section {
    if index < answers then Answer else if index < answers + authorities then Authority else Additional
  }

  /** The records from the `index`-th on. */
  function ReadRecords(p: Packet, offset: nat, index: nat, total: nat, answers: nat, authorities: nat)
    : Outcome<(seq<Record>, nat)>
    requires index <= total
    decreases total - index
  {
    if index == total then Good(([], offset))
    else
      var (first, next) :- ReadRecord(p, offset, SectionOf(index, answers, authorities));
      var (rest, end) :- ReadRecords(p, next, index + 1, total, answers, authorities);
      Good(([first] + rest, end))
  }

  /** `parse_message`. */
  function ParseMessage(p: Packet): Outcome<Message> {
    if |p| < HEADER_LEN then Bad(ShortPacket)
    else
      var answers, authorities, additionals := U16At(p, 6), U16At(p, 8), U16At(p, 10);
      var (questions, offset) :- ReadQuestions(p, HEADER_LEN, U16At(p, 4));
      var (records, end) :- ReadRecords(p, offset, 0, answers as nat + authorities + additionals, answers, authorities);
      if end != |p| then Bad(Trailing) else Good(Message(U16At(p, 0), U16At(p, 2), questions, records))
  }

  // Validation is all the parser asks for outside RDATA.

  lemma SkippedQuestion(p: Packet, offset: nat)
    requires SkipName(p, offset).Ok?
    requires SkipName(p, offset).value + 4 <= |p|
    ensures ReadQuestion(p, offset).Good? && ReadQuestion(p, offset).value.1 == SkipName(p, offset).value + 4
    ensures CanonicalName(ReadQuestion(p, offset).value.0.owner)
  {
    hide DecodeFrom;
    WalkersAgree(p, offset);
    SkipAdvances(p, offset, None, 1, {}, MAX_STEPS);
  }

  lemma {:induction false} CheckedQuestionsRead(p: Packet, offset: nat, n: nat)
    requires CheckQuestions(p, offset, n).Good?
    ensures ReadQuestions(p, offset, n).Good? && ReadQuestions(p, offset, n).value.1 ==
            CheckQuestions(p, offset, n).value
    ensures forall q :: q in ReadQuestions(p, offset, n).value.0 ==> CanonicalName(q.owner)
    decreases n
  {
    hide SkipName, ReadQuestion, CanonicalName;
    if n > 0 {
      SkippedQuestion(p, offset);
      CheckedQuestionsRead(p, SkipName(p, offset).value + 4, n - 1);
    }
  }

  lemma SkippedRecord(p: Packet, offset: nat, section: Section)
    requires SkipName(p, offset).Ok?
    requires var end := SkipName(p, offset).value;
             end + 10 <= |p| && end + 10 + U16At(p, end + 8) <= |p|
    ensures var end := SkipName(p, offset).value;
            match ReadRecord(p, offset, section)
            case Good((r, next)) => next == end + 10 + U16At(p, end + 8) && CanonicalName(r.owner)
            case Bad(error) => error == BadRdata
  {
    hide DecodeFrom, SkipFrom;
    WalkersAgree(p, offset);
  }

  lemma {:induction false} CheckedRecordsRead(p: Packet, offset: nat, index: nat, total: nat, answers: nat,
                                              authorities: nat)
    requires index <= total && CheckRecords(p, offset, total - index).Good?
    ensures match ReadRecords(p, offset, index, total, answers, authorities)
            case Good((_, end)) => end == CheckRecords(p, offset, total - index).value
            case Bad(error) => error == BadRdata
    decreases total - index
  {
    hide SkipName, ReadRecord, CanonicalName;
    if index < total {
      SkippedRecord(p, offset, SectionOf(index, answers, authorities));
      var end := SkipName(p, offset).value;
      CheckedRecordsRead(p, end + 10 + U16At(p, end + 8), index + 1, total, answers, authorities);
    }
  }

  /** A packet that passed ingress validation can fail to parse only while its RDATA is expanded. */
  lemma ValidatedParses(p: Packet)
    requires |p| >= HEADER_LEN
    requires ValidateSections(p, U16At(p, 4), U16At(p, 6), U16At(p, 8), U16At(p, 10)).Good?
    ensures ParseMessage(p).Bad? ==> ParseMessage(p).error == BadRdata
  {
    hide CheckQuestions, CheckRecords, ReadQuestions, ReadRecords, U16At;
    var questions, answers, authorities, additionals := U16At(p, 4), U16At(p, 6), U16At(p, 8), U16At(p, 10);
    CheckedQuestionsRead(p, HEADER_LEN, questions);
    var offset := CheckQuestions(p, HEADER_LEN, questions).value;
    CheckedRecordsRead(p, offset, 0, answers as nat + authorities + additionals, answers, authorities);
  }

  // Encoding of responses.

  datatype LocalRecord = LocalRecord(owner: seq<Byte>, rrType: U16, class_: U16, ttl: U32, flush: bool,
      rdata: seq<Byte>)

  /** The class field on the wire. */
  function WireClass(r: LocalRecord, permitFlush: bool): U16 {
    if permitFlush && r.flush then r.class_ % TOP_BIT + TOP_BIT else r.class_
  }

  function WireTtl(r: LocalRecord, permitFlush: bool): U32 {
    if permitFlush || r.ttl < LEGACY_TTL_MAX then r.ttl else LEGACY_TTL_MAX
  }

  /** Type, class, TTL and length of a record. */
  function Fixed(r: LocalRecord, permitFlush: bool): (s: seq<Byte>)
    requires |r.rdata| < 0x1_0000
    ensures |s| == 10
  {
    Be16(r.rrType) + Be16(WireClass(r, permitFlush)) + Be32(WireTtl(r, permitFlush)) + Be16(|r.rdata|)
  }

  /** `append_record` without a TTL override. */
  function RecordBytes(r: LocalRecord, permitFlush: bool): seq<Byte>
    requires |r.rdata| < 0x1_0000
  {
    r.owner + Fixed(r, permitFlush) + r.rdata
  }

  function Records(rs: seq<LocalRecord>, permitFlush: bool): Outcome<seq<Byte>> {
    if rs == [] then Good([])
    else if |rs[0].rdata| >= 0x1_0000 then Bad(TooMany)
    else
      var rest :- Records(rs[1..], permitFlush);
      Good(RecordBytes(rs[0], permitFlush) + rest)
  }

  function Concat(questions: seq<seq<Byte>>): seq<Byte> {
    if questions == [] then [] else questions[0] + Concat(questions[1..])
  }

  /** `dns_header` with no additional records. */
  function HeaderBytes(id: U16, flags: U16, questions: U16, answers: U16, authorities: U16): (s: seq<Byte>)
    ensures |s| == HEADER_LEN
  {
    Be16(id) + Be16(flags) + Be16(questions) + Be16(answers) + Be16(authorities) + Be16(0)
  }

  /** `response_packet`. */
  function ResponsePacket(id: U16, questions: seq<seq<Byte>>, records: seq<LocalRecord>,
                          legacy: bool): Outcome<seq<Byte>> {
    if |questions| >= 0x1_0000 || |records| >= 0x1_0000 then Bad(TooMany)
    else
      var body :- Records(records, !legacy);
      Good(HeaderBytes(id, FLAGS_QR_AA, |questions|, |records|, 0) + Concat(questions) + body)
  }

  /** RDATA the decoder leaves as it is: names in it are canonical. */
  ghost predicate PlainRdata(rrType: U16, rdata: seq<Byte>) {
    if rrType == TYPE_CNAME || rrType == TYPE_PTR then CanonicalName(rdata)
    else if rrType == TYPE_SRV then |rdata| >= 6 && CanonicalName(rdata[6..])
    else true
  }

  ghost predicate PlainRecord(r: LocalRecord) {
    CanonicalName(r.owner) && PlainRdata(r.rrType, r.rdata)
  }

  /** What a record reads back as. */
  function ReadBack(r: LocalRecord, legacy: bool, section: Section): Record {
    Record(r.owner, r.rrType, r.class_ % TOP_BIT, WireTtl(r, !legacy), r.rdata, section)
  }

  /** A raw question: an uncompressed name, then type and class. */
  ghost predicate RawQuestion(raw: seq<Byte>) {
    |raw| >= 4 && WireName(raw[..|raw| - 4])
  }

  ghost function QuestionOf(raw: seq<Byte>): Question
    requires RawQuestion(raw)
  {
    var n := |raw| - 4;
    Question(Lower(raw[..n]), U16At(raw, n), U16At(raw, n + 2) % TOP_BIT, U16At(raw, n + 2) >= TOP_BIT, raw)
  }

  ghost function QuestionsOf(raws: seq<seq<Byte>>): (qs: seq<Question>)
    requires forall r :: r in raws ==> RawQuestion(r)
    ensures |qs| == |raws| && forall k :: 0 <= k < |raws| ==> qs[k] == QuestionOf(raws[k])
  {
    if raws == [] then [] else [QuestionOf(raws[0])] + QuestionsOf(raws[1..])
  }

  function ReadBackAll(rs: seq<LocalRecord>, legacy: bool, section: Section): (records: seq<Record>)
    ensures |records| == |rs| && forall k :: 0 <= k < |rs| ==> records[k] == ReadBack(rs[k], legacy, section)
  {
    if rs == [] then [] else [ReadBack(rs[0], legacy, section)] + ReadBackAll(rs[1..], legacy, section)
  }

  lemma RawQuestionReads(p: Packet, offset: nat, raw: seq<Byte>)
    requires RawQuestion(raw) && At(p, offset, raw)
    ensures ReadQuestion(p, offset) == Good((QuestionOf(raw), offset + |raw|))
  {
    hide DecodeFrom, WireName, Lower;
    var n := |raw| - 4;
    AtSlice(p, offset, raw, 0, n);
    WireNameDecodes(p, offset, raw[..n]);
    AtIndex(p, offset, raw, n);
    AtIndex(p, offset, raw, n + 1);
    AtIndex(p, offset, raw, n + 2);
    AtIndex(p, offset, raw, n + 3);
  }

  lemma {:induction false} RawQuestionsRead(p: Packet, offset: nat, raws: seq<seq<Byte>>)
    requires forall r :: r in raws ==> RawQuestion(r)
    requires At(p, offset, Concat(raws))
    ensures ReadQuestions(p, offset, |raws|) ==
            Good((QuestionsOf(raws), offset + |Concat(raws)|))
    decreases raws
  {
    hide ReadQuestion, RawQuestion, QuestionOf;
    if raws != [] {
      AtConcat(p, offset, raws[0], Concat(raws[1..]));
      RawQuestionReads(p, offset, raws[0]);
      RawQuestionsRead(p, offset + |raws[0]|, raws[1..]);
    }
  }

  lemma FixedReads(p: Packet, i: nat, r: LocalRecord, permitFlush: bool)
    requires |r.rdata| < 0x1_0000 && At(p, i, Fixed(r, permitFlush))
    ensures U16At(p, i) == r.rrType && U16At(p, i + 2) == WireClass(r, permitFlush)
    ensures U32At(p, i + 4) == WireTtl(r, permitFlush) && U16At(p, i + 8) == |r.rdata|
  {
    hide U16At, U32At, Be16, Be32, WireClass, WireTtl;
    var t, c, l := Be16(r.rrType), Be16(WireClass(r, permitFlush)), Be32(WireTtl(r, permitFlush));
    AtConcat(p, i, t + c + l, Be16(|r.rdata|));
    AtConcat(p, i, t + c, l);
    AtConcat(p, i, t, c);
    Be16At(p, i, r.rrType);
    Be16At(p, i + 2, WireClass(r, permitFlush));
    Be32At(p, i + 4, WireTtl(r, permitFlush));
    Be16At(p, i + 8, |r.rdata|);
  }

  lemma PlainRdataExpands(p: Packet, start: nat, rrType: U16, rdata: seq<Byte>)
    requires At(p, start, rdata) && PlainRdata(rrType, rdata)
    ensures ExpandRdata(p, rrType, start, start + |rdata|) == Good(rdata)
  {
    hide DecodeName, WireName;
    if rrType == TYPE_CNAME || rrType == TYPE_PTR {
      WireNameDecodes(p, start, rdata);
    } else if rrType == TYPE_SRV {
      AtSlice(p, start, rdata, 0, 6);
      AtSlice(p, start, rdata, 6, |rdata|);
      WireNameDecodes(p, start + 6, rdata[6..]);
      assert rdata == rdata[..6] + rdata[6..];
    }
  }

  lemma RecordReads(p: Packet, i: nat, r: LocalRecord, legacy: bool, section: Section)
    requires |r.rdata| < 0x1_0000 && PlainRecord(r) && At(p, i, RecordBytes(r, !legacy))
    ensures ReadRecord(p, i, section) == Good((ReadBack(r, legacy, section), i + |RecordBytes(r, !legacy)|))
    ensures i + |r.owner| + 4 <= |p| && U16At(p, i + |r.owner| + 2) == WireClass(r, !legacy)
  {
    hide DecodeName, WireName, Fixed, ExpandRdata, U16At, U32At, PlainRdata, Lower;
    var fixed := Fixed(r, !legacy);
    AtConcat(p, i, r.owner + fixed, r.rdata);
    AtConcat(p, i, r.owner, fixed);
    WireNameDecodes(p, i, r.owner);
    FixedReads(p, i + |r.owner|, r, !legacy);
    PlainRdataExpands(p, i + |r.owner| + 10, r.rrType, r.rdata);
    assert WireClass(r, !legacy) % TOP_BIT == r.class_ % TOP_BIT;
  }

  lemma {:induction false} RecordsRead(p: Packet, i: nat, rs: seq<LocalRecord>, legacy: bool, section: Section,
                                        index: nat, total: nat, answers: nat, authorities: nat)
    requires Records(rs, !legacy).Good? && At(p, i, Records(rs, !legacy).value)
    requires forall r :: r in rs ==> PlainRecord(r)
    requires index + |rs| == total
    requires forall k :: index <= k < total ==> SectionOf(k, answers, authorities) == section
    ensures ReadRecords(p, i, index, total, answers, authorities) ==
            Good((ReadBackAll(rs, legacy, section), i + |Records(rs, !legacy).value|))
    decreases rs
  {
    hide ReadRecord, RecordBytes, PlainRecord, ReadBack;
    if rs != [] {
      var first, rest := RecordBytes(rs[0], !legacy), Records(rs[1..], !legacy).value;
      AtConcat(p, i, first, rest);
      RecordReads(p, i, rs[0], legacy, section);
      RecordsRead(p, i + |first|, rs[1..], legacy, section, index + 1, total, answers, authorities);
    }
  }

  lemma HeaderReads(p: Packet, id: U16, flags: U16, questions: U16, answers: U16, authorities: U16)
    requires At(p, 0, HeaderBytes(id, flags, questions, answers, authorities))
    ensures U16At(p, 0) == id && U16At(p, 2) == flags && U16At(p, 4) == questions
    ensures U16At(p, 6) == answers && U16At(p, 8) == authorities && U16At(p, 10) == 0
  {
    var h := HeaderBytes(id, flags, questions, answers, authorities);
    forall k | 0 <= k < 12 ensures p[k] == h[k] {
      AtIndex(p, 0, h, k);
    }
    assert h[0] == id / 0x100 && h[1] == id % 0x100 && h[2] == flags / 0x100 && h[3] == flags % 0x100;
    assert h[4] == questions / 0x100 && h[5] == questions % 0x100 && h[6] == answers / 0x100 && h[7] == answers % 0x100;
    assert h[8] == authorities / 0x100 && h[9] == authorities % 0x100 && h[10] == 0 && h[11] == 0;
  }

  /** A response reads back as what was put in: same id, questions and records in order, the TTL
      capped at 10 exactly in legacy mode. */
  lemma ResponseReadsBack(id: U16, questions: seq<seq<Byte>>, records: seq<LocalRecord>, legacy: bool)
    requires forall q :: q in questions ==> RawQuestion(q)
    requires forall r :: r in records ==> PlainRecord(r)
    requires ResponsePacket(id, questions, records, legacy).Good?
    ensures ParseMessage(ResponsePacket(id, questions, records, legacy).value) ==
            Good(Message(id, FLAGS_QR_AA, QuestionsOf(questions), ReadBackAll(records, legacy, Answer)))
  {
    hide HeaderBytes, Concat, Records, ReadQuestions, ReadRecords, U16At, RawQuestion, PlainRecord, QuestionsOf,
        ReadBackAll;
    var p := ResponsePacket(id, questions, records, legacy).value;
    var h, qs, rs := HeaderBytes(id, FLAGS_QR_AA, |questions|, |records|, 0), Concat(questions),
        Records(records, !legacy).value;
    assert At(p, 0, h + qs + rs);
    AtConcat(p, 0, h + qs, rs);
    AtConcat(p, 0, h, qs);
    HeaderReads(p, id, FLAGS_QR_AA, |questions|, |records|, 0);
    RawQuestionsRead(p, HEADER_LEN, questions);
    RecordsRead(p, HEADER_LEN + |qs|, records, legacy, Answer, 0, |records|, |records|, 0);
  }

  /** Where the `k`-th of the records that start at offset `i` starts. */
  function RecordStart(i: nat, rs: seq<LocalRecord>, k: nat, permitFlush: bool): nat
    requires k < |rs| && Records(rs, permitFlush).Good?
    decreases k
  {
    if k == 0 then i else RecordStart(i + |RecordBytes(rs[0], permitFlush)|, rs[1..], k - 1, permitFlush)
  }

  lemma {:induction false} RecordAt(p: Packet, i: nat, rs: seq<LocalRecord>, k: nat, permitFlush: bool)
    requires k < |rs| && Records(rs, permitFlush).Good? && At(p, i, Records(rs, permitFlush).value)
    ensures |rs[k].rdata| < 0x1_0000 && At(p, RecordStart(i, rs, k, permitFlush), RecordBytes(rs[k], permitFlush))
    decreases k
  {
    hide RecordBytes;
    AtConcat(p, i, RecordBytes(rs[0], permitFlush), Records(rs[1..], permitFlush).value);
    if k > 0 {
      RecordAt(p, i + |RecordBytes(rs[0], permitFlush)|, rs[1..], k - 1, permitFlush);
    }
  }

  /** On the wire a record of an ordinary class carries the cache-flush bit exactly when the record
      asks for it and the response is not a legacy one. */
  lemma FlushBitOnWire(id: U16, questions: seq<seq<Byte>>, records: seq<LocalRecord>, legacy: bool, k: nat)
    requires ResponsePacket(id, questions, records, legacy).Good?
    requires k < |records| && PlainRecord(records[k]) && records[k].class_ < TOP_BIT
    ensures var p := ResponsePacket(id, questions, records, legacy).value;
            var i := RecordStart(HEADER_LEN + |Concat(questions)|, records, k, !legacy) + |records[k].owner| + 2;
            && i + 2 <= |p|
            && (U16At(p, i) >= TOP_BIT <==> records[k].flush && !legacy)
            && U16At(p, i) % TOP_BIT == records[k].class_
  {
    hide HeaderBytes, Concat, Records, U16At, PlainRecord, RecordBytes, RecordStart, ReadRecord;
    var p := ResponsePacket(id, questions, records, legacy).value;
    var h, qs, rs := HeaderBytes(id, FLAGS_QR_AA, |questions|, |records|, 0), Concat(questions),
        Records(records, !legacy).value;
    assert At(p, 0, h + qs + rs);
    AtConcat(p, 0, h + qs, rs);
    RecordAt(p, HEADER_LEN + |qs|, records, k, !legacy);
    RecordReads(p, RecordStart(HEADER_LEN + |qs|, records, k, !legacy), records[k], legacy, Answer);
  }
}
