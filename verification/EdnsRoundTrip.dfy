/** What attaching an OPT record to a query keeps and when it can be undone (`src/edns.rs`). */
module EdnsRoundTrip {
  import opened Bytes
  import opened Wire
  import opened EdnsPacket
  import opened EdnsCut

  lemma {:induction false} OptionsRoundTrip(options: seq<EdnsOption>, p: seq<Byte>, i: nat)
    requires EncodeOptions(options).Ok?
    requires i <= |p| && p[i..] == EncodeOptions(options).value
    ensures ParseOptions(p, i) == Ok(options)
    decreases options
  {
    if options != [] {
      var first := options[0];
      var rest := EncodeOptions(options[1..]).value;
      var code, length := Be16(first.code), Be16(|first.data|);
      assert p[i..] == code + length + first.data + rest;
      assert At(p, i, code) && At(p, i + 2, length) && At(p, i + 4, first.data);
      Be16At(p, i, first.code);
      Be16At(p, i + 2, |first.data|);
      var end := i + 4 + |first.data|;
      assert p[end..] == rest;
      OptionsRoundTrip(options[1..], p, end);
      assert p[i + 4..end] == first.data;
      assert options == [first] + options[1..];
    }
  }

  /** The eleven fixed octets of an OPT record. */
  function OptFixed(opt: OptRecord, length: U16): (s: seq<Byte>)
    ensures |s| == 11
  {
    [0, 0, TYPE_OPT, opt.payloadSize / 0x100, opt.payloadSize % 0x100, opt.extendedRcode, opt.version,
     opt.flags / 0x100, opt.flags % 0x100, length / 0x100, length % 0x100]
  }

  lemma EncodedOpt(opt: OptRecord) returns (rdata: seq<Byte>)
    requires EncodeOpt(opt).Ok?
    ensures |rdata| < 0x1_0000 && EncodeOpt(opt).value == OptFixed(opt, |rdata|) + rdata
    ensures ParseOptions(rdata, 0) == Ok(opt.options)
  {
    rdata := EncodeOptions(opt.options).value;
    assert [0] + Be16(TYPE_OPT) + Be16(opt.payloadSize) + [opt.extendedRcode, opt.version]
           + Be16(opt.flags) + Be16(|rdata|) == OptFixed(opt, |rdata|);
    OptionsRoundTrip(opt.options, rdata, 0);
  }

  /** An encoded OPT record at the end of a packet reads back as what was encoded. */
  lemma EncodedOptReads(p: Packet, i: nat, opt: OptRecord)
    requires EncodeOpt(opt).Ok?
    requires i <= |p| && p[i..] == EncodeOpt(opt).value
    ensures ParseRecord(p, i).Ok?
    ensures var r := ParseRecord(p, i).value;
            r.name == [0] && r.rrType == TYPE_OPT && r.next == |p| && OptOf(r) == Ok(opt)
  {
    hide NameFrom, EncodeOpt, EncodeOptions, ParseOptions, OptFixed, TtlOf, U16At, U32At;
    var rdata := EncodedOpt(opt);
    var fixed := OptFixed(opt, |rdata|);
    forall k | 0 <= k < 11 ensures p[i + k] == fixed[k] {
      assert p[i + k] == p[i..][k];
    }
    OptFields(p, i, opt, |rdata|);
    RootReads(p, i, None, 0);
    TtlFields(opt);
    assert p[i + 11..i + 11 + |rdata|] == rdata;
  }

  /** Octets and flags of an OPT record share the 32 bits of a TTL. */
  function TtlOf(opt: OptRecord): U32 {
    opt.extendedRcode as int * 0x100_0000 + opt.version as int * 0x1_0000 + opt.flags
  }

  lemma TtlFields(opt: OptRecord)
    ensures TtlOf(opt) / 0x100_0000 == opt.extendedRcode
    ensures TtlOf(opt) / 0x1_0000 % 0x100 == opt.version
    ensures TtlOf(opt) % 0x1_0000 == opt.flags
  {}

  lemma OptFields(p: Packet, i: nat, opt: OptRecord, length: U16)
    requires i + 11 <= |p|
    requires forall k :: 0 <= k < 11 ==> p[i + k] == OptFixed(opt, length)[k]
    ensures p[i] == 0 && U16At(p, i + 1) == TYPE_OPT && U16At(p, i + 3) == opt.payloadSize
    ensures U32At(p, i + 5) == TtlOf(opt)
    ensures U16At(p, i + 9) == length
  {
    var fixed := OptFixed(opt, length);
    assert p[i + 0] == fixed[0];
    assert p[i + 1] == fixed[1] && p[i + 2] == fixed[2] && p[i + 3] == fixed[3] && p[i + 4] == fixed[4];
    assert p[i + 5] == fixed[5] && p[i + 6] == fixed[6] && p[i + 7] == fixed[7] && p[i + 8] == fixed[8];
    assert p[i + 9] == fixed[9] && p[i + 10] == fixed[10];
  }

  // Names and records read in a packet `p` and in the longer packet `p'` it becomes: all octets
  // of `p` but its header reappear at the same place.

  ghost predicate BodyKept(p: Packet, p': Packet) {
    |p| <= |p'| && forall i :: HEADER_LEN <= i < |p| ==> p'[i] == p[i]
  }

  /** Where a name ends does not depend on what its pointers lead to. */
  lemma {:induction false} NextKept(p: Packet, p': Packet, cursor: nat, wire: seq<Byte>)
    requires BodyKept(p, p') && cursor >= HEADER_LEN
    requires NameFrom(p, cursor, None, 0, wire).Ok? && NameFrom(p', cursor, None, 0, wire).Ok?
    ensures NameFrom(p', cursor, None, 0, wire).value.next == NameFrom(p, cursor, None, 0, wire).value.next
    ensures cursor < NameFrom(p, cursor, None, 0, wire).value.next <= |p|
    decreases |p| - cursor
  {
    if p[cursor] >= 0xC0 {
      NextGiven(p, Target(p, cursor), cursor + 2, 1, wire);
      NextGiven(p', Target(p', cursor), cursor + 2, 1, wire);
    } else if p[cursor] > 0 {
      var end := cursor + 1 + p[cursor];
      assert p'[cursor + 1..end] == p[cursor + 1..end];
      NextKept(p, p', end, wire + [p[cursor]] + Lower(p[cursor + 1..end]));
    }
  }

  /** If the owner still reads, the whole record does, with the same fields. */
  lemma RecordKept(p: Packet, p': Packet, i: nat)
    requires BodyKept(p, p') && i >= HEADER_LEN
    requires ParseRecord(p, i).Ok? && ReadName(p', i).Ok?
    ensures ParseRecord(p', i) == Ok(ParseRecord(p, i).value.(name := ReadName(p', i).value.wire))
    ensures i < ParseRecord(p, i).value.next <= |p|
  {
    hide NameFrom;
    NextKept(p, p', i, []);
    var r := ParseRecord(p, i).value;
    assert p'[r.rdataOffset..r.next] == p[r.rdataOffset..r.next];
  }

  lemma QuestionKept(p: Packet, p': Packet, i: nat)
    requires BodyKept(p, p') && i >= HEADER_LEN
    requires QuestionEnd(p, i).Ok? && ReadName(p', i).Ok?
    ensures QuestionEnd(p', i) == QuestionEnd(p, i)
    ensures i < QuestionEnd(p, i).value <= |p|
  {
    hide NameFrom;
    NextKept(p, p', i, []);
  }

  /** The names of `n` questions of `q`, from offset `i` on, read in `p` too. */
  ghost predicate QuestionNamesRead(q: Packet, p: Packet, i: nat, n: nat)
    decreases n
  {
    n > 0 ==> ReadName(p, i).Ok? && QuestionEnd(q, i).Ok? && QuestionNamesRead(q, p, QuestionEnd(q, i).value, n - 1)
  }

  /** The owners of `n` records of `q`, from offset `i` on, read in `p` too. */
  ghost predicate OwnersRead(q: Packet, p: Packet, i: nat, n: nat)
    decreases n
  {
    n > 0 ==> ReadName(p, i).Ok? && ParseRecord(q, i).Ok? && OwnersRead(q, p, ParseRecord(q, i).value.next, n - 1)
  }

  /** Every name of `q` reads in `p` as well. */
  ghost predicate NamesRead(q: Packet, p: Packet) {
    && ParseHeader(q).Ok?
    && var header := ParseHeader(q).value;
    && QuestionNamesRead(q, p, HEADER_LEN, header.questions)
    && SkipQuestions(q, HEADER_LEN, header.questions).Ok?
    && OwnersRead(q, p, SkipQuestions(q, HEADER_LEN, header.questions).value, header.TotalRecords())
  }

  lemma {:induction false} QuestionsKept(q: Packet, p: Packet, i: nat, n: nat)
    requires BodyKept(q, p) && i >= HEADER_LEN && SkipQuestions(q, i, n).Ok?
    ensures QuestionNamesRead(q, p, i, n) ==> SkipQuestions(p, i, n) == SkipQuestions(q, i, n)
    ensures !QuestionNamesRead(q, p, i, n) ==> SkipQuestions(p, i, n).Err?
    ensures SkipQuestions(q, i, n).value >= HEADER_LEN
    decreases n
  {
    if n > 0 {
      QuestionKept(q, q, i);
      QuestionsKept(q, p, QuestionEnd(q, i).value, n - 1);
      if ReadName(p, i).Ok? {
        QuestionKept(q, p, i);
      }
    }
  }

  /** A layout found so far is never forgotten. */
  lemma {:induction false} ScanMonotone(p: Packet, i: nat, index: nat, total: nat, start: nat, layout: Layout)
    requires index <= total && ScanRecords(p, i, index, total, start, layout).Ok?
    ensures var found := ScanRecords(p, i, index, total, start, layout).value.0;
            (layout.opt.Some? ==> found.opt.Some?) && (layout.hasTsig ==> found.hasTsig)
    decreases total - index
  {
    hide ParseRecord, OptOf;
    if index < total {
      var r := ParseRecord(p, i).value;
      var layout' := if r.rrType == TYPE_OPT then layout.(opt := Some(OptSpan(i, r.next, OptOf(r).value)))
                     else if r.rrType == TYPE_TSIG then layout.(hasTsig := true) else layout;
      ScanMonotone(p, r.next, index + 1, total, start, layout');
    }
  }

  const PLAIN := Layout(None, false)

  /** A packet that scans as plain holds neither an OPT nor a TSIG record next. */
  lemma PlainRecordFirst(q: Packet, i: nat, index: nat, total: nat, start: nat)
    requires index < total && ScanRecords(q, i, index, total, start, PLAIN).Ok?
    requires ScanRecords(q, i, index, total, start, PLAIN).value.0 == PLAIN
    ensures ParseRecord(q, i).Ok?
    ensures ParseRecord(q, i).value.rrType != TYPE_OPT && ParseRecord(q, i).value.rrType != TYPE_TSIG
  {
    hide ParseRecord, OptOf;
    var r := ParseRecord(q, i).value;
    if r.rrType == TYPE_OPT {
      ScanMonotone(q, r.next, index + 1, total, start, PLAIN.(opt := Some(OptSpan(i, r.next, OptOf(r).value))));
    } else if r.rrType == TYPE_TSIG {
      ScanMonotone(q, r.next, index + 1, total, start, PLAIN.(hasTsig := true));
    }
  }

  /** Scanning the records of a packet without OPT and TSIG inside a longer packet: it reaches
      their end if the owners still read there, and fails otherwise. */
  lemma {:induction false} ScanKept(q: Packet, p: Packet, i: nat, index: nat, total: nat, start: nat)
    requires BodyKept(q, p) && i >= HEADER_LEN && index <= total
    requires ScanRecords(q, i, index, total, start, PLAIN).Ok?
    requires ScanRecords(q, i, index, total, start, PLAIN).value.0 == PLAIN
    ensures RecordsEnd(q, i, total - index) == Ok(ScanRecords(q, i, index, total, start, PLAIN).value.1)
    ensures OwnersRead(q, p, i, total - index) ==>
              ScanRecords(p, i, index, total + 1, start, PLAIN) ==
              ScanRecords(p, ScanRecords(q, i, index, total, start, PLAIN).value.1, total, total + 1, start, PLAIN)
    ensures !OwnersRead(q, p, i, total - index) ==> ScanRecords(p, i, index, total + 1, start, PLAIN).Err?
    decreases total - index
  {
    hide ParseRecord, OptOf, ReadName, BodyKept;
    if index < total {
      var r := ParseRecord(q, i).value;
      PlainRecordFirst(q, i, index, total, start);
      RecordForward(q, i);
      ScanKept(q, p, r.next, index + 1, total, start);
      if ReadName(p, i).Ok? {
        RecordKept(q, p, i);
      } else {
        UnreadRecord(p, i);
      }
    }
  }

  /** A scan that succeeds has read every record. */
  lemma {:induction false} ScanReads(p: Packet, i: nat, index: nat, total: nat, start: nat, layout: Layout)
    requires index <= total && ScanRecords(p, i, index, total, start, layout).Ok?
    ensures RecordsEnd(p, i, total - index) == Ok(ScanRecords(p, i, index, total, start, layout).value.1)
    decreases total - index
  {
    hide ParseRecord, OptOf;
    if index < total {
      var r := ParseRecord(p, i).value;
      var layout' := if r.rrType == TYPE_OPT then layout.(opt := Some(OptSpan(i, r.next, OptOf(r).value)))
                     else if r.rrType == TYPE_TSIG then layout.(hasTsig := true) else layout;
      ScanReads(p, r.next, index + 1, total, start, layout');
    }
  }

  /** A query that carries neither OPT nor TSIG. */
  ghost predicate PlainQuery(q: Packet) {
    Validate(q, false).Ok? && ScanPacket(q) == Ok(PLAIN)
  }

  /** `q` with one OPT record appended, as `append_opt` lays it out. */
  ghost predicate Appended(q: Packet, opt: OptRecord, p: Packet) {
    && EncodeOpt(opt).Ok?
    && AppendOpt(q, EncodeOpt(opt).value) == Ok(p)
  }

  lemma AppendedShape(q: Packet, opt: OptRecord, p: Packet)
    requires |q| >= HEADER_LEN && Appended(q, opt, p)
    ensures BodyKept(q, p) && AllButCount(q, p) && |p| == |q| + |EncodeOpt(opt).value| && p[|q|..] ==
            EncodeOpt(opt).value
    ensures ParseHeader(q).value.additionals + 1 < 0x1_0000
    ensures ParseHeader(p) == Ok(ParseHeader(q).value.(additionals := ParseHeader(q).value.additionals + 1))
  {
    hide EncodeOpt;
    var o := EncodeOpt(opt).value;
    var n: U16 := ParseHeader(q).value.additionals + 1;
    assert p == (q + o)[..10] + Be16(n) + (q + o)[12..];
    assert p[10] == Be16(n)[0] && p[11] == Be16(n)[1];
    assert p[|q|..] == o;
  }

  lemma PlainHeader(q: Packet)
    requires ScanPacket(q) == Ok(PLAIN)
    ensures |q| >= HEADER_LEN && ParseHeader(q).Ok?
    ensures var header := ParseHeader(q).value;
            ScanSections(q, header.questions, header.TotalRecords(), header.answers as nat + header.authorities) ==
                Ok(PLAIN)
  {
    hide ScanSections;
  }

  /** The sections of the longer packet scan exactly when every name still reads in it. */
  lemma SectionsScan(q: Packet, opt: OptRecord, p: Packet, questions: nat, total: nat, start: nat)
    requires BodyKept(q, p) && EncodeOpt(opt).Ok? && p[|q|..] == EncodeOpt(opt).value
    requires |q| <= |p| && ScanSections(q, questions, total, start) == Ok(PLAIN) && start <= total
    ensures SkipQuestions(q, HEADER_LEN, questions).Ok?
    ensures var i := SkipQuestions(q, HEADER_LEN, questions).value;
            && RecordsEnd(q, i, total).Ok?
            && (QuestionNamesRead(q, p, HEADER_LEN, questions) && OwnersRead(q, p, i, total) ==>
                  ScanSections(p, questions, total + 1, start) == Ok(Layout(Some(OptSpan(|q|, |p|, opt)), false)))
            && (!(QuestionNamesRead(q, p, HEADER_LEN, questions) && OwnersRead(q, p, i, total)) ==>
                  ScanSections(p, questions, total + 1, start).Err?)
  {
    hide EncodeOpt, SkipQuestions, ScanRecords, RecordsEnd, OwnersRead, QuestionNamesRead, BodyKept;
    LastRecordScans(p, |q|, opt, total, start);
    QuestionsKept(q, p, HEADER_LEN, questions);
    ScanKept(q, p, SkipQuestions(q, HEADER_LEN, questions).value, 0, total, start);
  }

  lemma ScanPacketSections(p: Packet, header: Header)
    requires ParseHeader(p) == Ok(header)
    ensures ScanPacket(p) ==
            ScanSections(p, header.questions, header.TotalRecords(), header.answers as nat + header.authorities)
  {
    hide ParseHeader, ScanSections;
  }

  lemma HeaderBumped(h: Header, h': Header)
    requires h.additionals + 1 < 0x1_0000 && h' == h.(additionals := h.additionals + 1)
    ensures h'.TotalRecords() == h.TotalRecords() + 1 && h.answers as nat + h.authorities <= h.TotalRecords()
  {}

  lemma NamesReadSections(q: Packet, p: Packet, header: Header)
    requires ParseHeader(q) == Ok(header)
    ensures NamesRead(q, p) <==>
            && QuestionNamesRead(q, p, HEADER_LEN, header.questions)
            && SkipQuestions(q, HEADER_LEN, header.questions).Ok?
            && OwnersRead(q, p, SkipQuestions(q, HEADER_LEN, header.questions).value, header.TotalRecords())
  {
    hide ParseHeader, SkipQuestions, OwnersRead, QuestionNamesRead;
  }

  /** Both packets' scans in terms of their sections. */
  lemma AppendedSections(q: Packet, opt: OptRecord, p: Packet) returns (questions: nat, total: nat, start: nat)
    requires ScanPacket(q) == Ok(PLAIN) && Appended(q, opt, p)
    ensures BodyKept(q, p) && p[|q|..] == EncodeOpt(opt).value && start <= total
    ensures ScanSections(q, questions, total, start) == Ok(PLAIN)
    ensures ScanPacket(p) == ScanSections(p, questions, total + 1, start)
    ensures NamesRead(q, p) <==>
            && QuestionNamesRead(q, p, HEADER_LEN, questions)
            && SkipQuestions(q, HEADER_LEN, questions).Ok?
            && OwnersRead(q, p, SkipQuestions(q, HEADER_LEN, questions).value, total)
  {
    hide *;
    PlainHeader(q);
    AppendedShape(q, opt, p);
    var header := ParseHeader(q).value;
    var header' := header.(additionals := header.additionals + 1);
    HeaderBumped(header, header');
    ScanPacketSections(p, header');
    NamesReadSections(q, p, header);
    questions, total, start := header.questions, header.TotalRecords(), header.answers as nat + header.authorities;
  }

  /** The prepared packet scans exactly when every name of the query still reads in it, and
      then its OPT record is the appended one. */
  lemma AppendedScans(q: Packet, opt: OptRecord, p: Packet)
    requires ScanPacket(q) == Ok(PLAIN) && Appended(q, opt, p)
    ensures NamesRead(q, p) ==> ScanPacket(p) == Ok(Layout(Some(OptSpan(|q|, |p|, opt)), false))
    ensures !NamesRead(q, p) ==> ScanPacket(p).Err?
  {
    hide EncodeOpt, SkipQuestions, ScanSections, ScanPacket, NamesRead, OwnersRead, QuestionNamesRead;
    var questions, total, start := AppendedSections(q, opt, p);
    SectionsScan(q, opt, p, questions, total, start);
  }

  /** A packet that scans has well-formed sections that fill it. */
  lemma ScannedSections(p: Packet)
    requires ScanPacket(p).Ok?
    ensures ParseHeader(p).Ok?
    ensures SkipQuestions(p, HEADER_LEN, ParseHeader(p).value.questions).Ok?
    ensures var header := ParseHeader(p).value;
            RecordsEnd(p, SkipQuestions(p, HEADER_LEN, header.questions).value, header.TotalRecords()) == Ok(|p|)
  {
    hide ParseHeader, SkipQuestions, ScanRecords, RecordsEnd;
    var header := ParseHeader(p).value;
    var i := SkipQuestions(p, HEADER_LEN, header.questions).value;
    ScanReads(p, i, 0, header.TotalRecords(), header.answers as nat + header.authorities, Layout(None, false));
  }

  lemma AppendedValidates(q: Packet, response: bool, opt: OptRecord, p: Packet)
    requires Validate(q, response).Ok? && ScanPacket(q) == Ok(PLAIN) && Appended(q, opt, p) && ScanPacket(p).Ok?
    ensures Validate(p, response).Ok? && ParseHeader(p).Ok? && ParseHeader(q).Ok?
    ensures ParseHeader(p).value.Rcode() == ParseHeader(q).value.Rcode()
  {
    hide ScanPacket, SkipQuestions, RecordsEnd, Appended, BodyKept, ParseHeader;
    PlainHeader(q);
    AppendedShape(q, opt, p);
    ScannedSections(p);
  }

  lemma LastRecordScans(p: Packet, i: nat, opt: OptRecord, total: nat, start: nat)
    requires EncodeOpt(opt).Ok? && i <= |p| && p[i..] == EncodeOpt(opt).value && start <= total
    ensures ScanRecords(p, i, total, total + 1, start, PLAIN) == Ok((Layout(Some(OptSpan(i, |p|, opt)), false), |p|))
  {
    hide EncodeOpt, ParseRecord, OptOf;
    EncodedOptReads(p, i, opt);
  }

  function OurOptLength(level: Level): nat {
    if level.DnssecOk? then 33 else 11
  }

  lemma OurOptEncodes(level: Level, payloadSize: U16)
    ensures EncodeOpt(OurOpt(level, payloadSize)).Ok?
    ensures |EncodeOpt(OurOpt(level, payloadSize)).value| == OurOptLength(level)
  {
    if level.DnssecOk? {
      assert EncodeOptions(RFC6975_OPTIONS[3..]) == Ok([]);
      assert RFC6975_OPTIONS[2..][1..] == RFC6975_OPTIONS[3..] && RFC6975_OPTIONS[1..][1..] == RFC6975_OPTIONS[2..];
      assert EncodeOptions(RFC6975_OPTIONS[2..]).Ok? && |EncodeOptions(RFC6975_OPTIONS[2..]).value| == 5;
      assert EncodeOptions(RFC6975_OPTIONS[1..]).Ok? && |EncodeOptions(RFC6975_OPTIONS[1..]).value| == 12;
      assert EncodeOptions(RFC6975_OPTIONS).Ok? && |EncodeOptions(RFC6975_OPTIONS).value| == 22;
    }
  }

  /** Taking the appended record out again restores the query octet for octet. */
  lemma RemovesAppended(q: Packet, opt: OptRecord, p: Packet)
    requires |q| >= HEADER_LEN && Appended(q, opt, p)
    ensures RemoveOpt(p, OptSpan(|q|, |p|, opt)) == Ok(q)
  {
    hide EncodeOpt;
    AppendedShape(q, opt, p);
    var a := ParseHeader(q).value.additionals;
    assert p[..|q|] + [] + p[|p|..] == p[..|q|];
    assert SetAdditionals(p[..|q|], a) == q by {
      assert p[..|q|][12..] == q[12..];
      assert p[..10] == q[..10];
      assert q[10..12] == Be16(a);
      assert q == q[..10] + q[10..12] + q[12..];
    }
  }

  /** Preparing a plain query at an EDNS level and then at plain UDP gives back its octets if and
      only if every name in it still reads once the additional count is one higher; otherwise
      the second preparation fails. Pointers may lead into that count, so this can happen. */
  lemma PrepareThenUnprepare(q: Packet, level: Level, size: U16, size': U16)
    requires PlainQuery(q) && level.UsesEdns() && PrepareQuery(q, level, size).Ok?
    ensures var p := PrepareQuery(q, level, size).value.packet;
            && (PrepareQuery(p, Udp, size') == Ok(PreparedQuery(q, false, true)) <==> NamesRead(q, p))
            && (PrepareQuery(p, Udp, size').Err? <==> !NamesRead(q, p))
  {
    hide Validate, ScanPacket, EncodeOpt, NamesRead, RemoveOpt, OurOpt, AppendOpt;
    PlainHeader(q);
    var opt, p := OurOpt(level, size), PrepareQuery(q, level, size).value.packet;
    AppendedScans(q, opt, p);
    RemovesAppended(q, opt, p);
    if ScanPacket(p).Ok? {
      AppendedValidates(q, false, opt, p);
    }
  }

  /** Exactly where the names still read, preparing again at the same level changes nothing and
      the encoded payload size, DO flag and options are recovered; elsewhere both fail. */
  lemma PrepareTwice(q: Packet, level: Level, size: U16)
    requires PlainQuery(q) && level.UsesEdns() && PrepareQuery(q, level, size).Ok?
    ensures var p := PrepareQuery(q, level, size).value.packet;
            if NamesRead(q, p) then
              && PrepareQuery(p, level, size) == Ok(PreparedQuery(p, true, true))
              && InspectOpt(p) == Ok(Some(OurOpt(level, size)))
            else
              PrepareQuery(p, level, size).Err? && InspectOpt(p).Err?
  {
    hide Validate, ScanPacket, EncodeOpt, NamesRead, OurOpt;
    PlainHeader(q);
    var opt, p := OurOpt(level, size), PrepareQuery(q, level, size).value.packet;
    AppendedScans(q, opt, p);
    if ScanPacket(p).Ok? {
      AppendedValidates(q, false, opt, p);
      AppendedShape(q, opt, p);
      assert p[..|q|] + p[|q|..] + p[|p|..] == p;
    }
  }

  /** Preparing a plain query fails only on the two limits: packet size and record count. */
  lemma PrepareFits(q: Packet, level: Level, size: U16)
    requires PlainQuery(q) && level.UsesEdns()
    ensures ParseHeader(q).Ok?
    ensures PrepareQuery(q, level, size).Ok? <==>
            ParseHeader(q).value.additionals < 0xFFFF && |q| + OurOptLength(level) <= 0xFFFF
  {
    hide Validate, ScanPacket, EncodeOpt, OurOpt, ParseHeader;
    PlainHeader(q);
    OurOptEncodes(level, size);
  }

  /** A client that sent no OPT record gets the server's response without its OPT record, octet for
      octet, unless the extended response code does not fit the header: then with SERVFAIL. */
  lemma ClientGetsPlainResponse(q: Packet, r: Packet, opt: OptRecord, p: Packet)
    requires PlainQuery(q) && Validate(r, true).Ok? && ScanPacket(r) == Ok(PLAIN)
    requires Appended(r, opt, p) && NamesRead(r, p)
    ensures |r| >= HEADER_LEN
    ensures ResponseForClient(q, p) == Ok(if opt.extendedRcode == 0 then r else ServfailRcode(r))
  {
    hide Validate, ScanPacket, Appended, NamesRead, RemoveOpt, ParseHeader, ServfailRcode;
    PlainHeader(r);
    AppendedScans(r, opt, p);
    AppendedValidates(r, true, opt, p);
    RemovesAppended(r, opt, p);
  }

  /** Reading the name at `cursor` looks at neither octet of the additional count. */
  ghost predicate AvoidsCount(p: Packet, cursor: nat, pointers: nat)
    requires pointers <= MAX_JUMPS
    decreases MAX_JUMPS - pointers, |p| - cursor
  {
    if cursor >= |p| then true
    else if p[cursor] == 0 then cursor != 10 && cursor != 11
    else if p[cursor] >= 0xC0 then
      cursor + 1 >= |p| || Target(p, cursor) >= cursor || pointers == MAX_JUMPS ||
      ((cursor + 2 <= 10 || 12 <= cursor) && AvoidsCount(p, Target(p, cursor), pointers + 1))
    else
      var end := cursor + 1 + p[cursor];
      (end <= 10 || 12 <= cursor) && AvoidsCount(p, end, pointers)
  }

  /** All octets of `q` but its additional count reappear at the same place. */
  ghost predicate AllButCount(q: Packet, p: Packet) {
    |q| <= |p| && forall i :: 0 <= i < |q| && i != 10 && i != 11 ==> p[i] == q[i]
  }

  lemma {:induction false} NameKept(q: Packet, p: Packet, cursor: nat, next: Option<nat>, pointers: nat,
                                    wire: seq<Byte>)
    requires AllButCount(q, p) && pointers <= MAX_JUMPS
    requires NameFrom(q, cursor, next, pointers, wire).Ok? && AvoidsCount(q, cursor, pointers)
    ensures NameFrom(p, cursor, next, pointers, wire) == NameFrom(q, cursor, next, pointers, wire)
    decreases MAX_JUMPS - pointers, |q| - cursor
  {
    hide Lower, NameFrom;
    NameStep(q, cursor, next, pointers, wire);
    NameStep(p, cursor, next, pointers, wire);
    if q[cursor] >= 0xC0 {
      NameKept(q, p, Target(q, cursor), Some(if next.Some? then next.value else cursor + 2), pointers + 1, wire);
    } else if q[cursor] > 0 {
      var end := cursor + 1 + q[cursor];
      assert p[cursor + 1..end] == q[cursor + 1..end];
      NameKept(q, p, end, next, pointers, wire + [q[cursor]] + Lower(q[cursor + 1..end]));
    }
  }

  ghost predicate QuestionsAvoidCount(q: Packet, i: nat, n: nat)
    decreases n
  {
    n > 0 && QuestionEnd(q, i).Ok? ==> AvoidsCount(q, i, 0) && QuestionsAvoidCount(q, QuestionEnd(q, i).value, n - 1)
  }

  ghost predicate OwnersAvoidCount(q: Packet, i: nat, n: nat)
    decreases n
  {
    n > 0 && ParseRecord(q, i).Ok? ==> AvoidsCount(q, i, 0) && OwnersAvoidCount(q, ParseRecord(q, i).value.next, n - 1)
  }

  /** No name of the query is compressed into its additional count. */
  ghost predicate QueryAvoidsCount(q: Packet) {
    ParseHeader(q).Ok? ==>
      var header := ParseHeader(q).value;
      && QuestionsAvoidCount(q, HEADER_LEN, header.questions)
      && (SkipQuestions(q, HEADER_LEN, header.questions).Ok? ==>
            OwnersAvoidCount(q, SkipQuestions(q, HEADER_LEN, header.questions).value, header.TotalRecords()))
  }

  lemma KeptBody(q: Packet, p: Packet)
    requires AllButCount(q, p)
    ensures BodyKept(q, p)
  {}

  lemma {:induction false} QuestionsStillRead(q: Packet, p: Packet, i: nat, n: nat)
    requires AllButCount(q, p) && i >= HEADER_LEN && SkipQuestions(q, i, n).Ok? && QuestionsAvoidCount(q, i, n)
    ensures QuestionNamesRead(q, p, i, n)
    decreases n
  {
    hide AllButCount, BodyKept;
    KeptBody(q, p);
    if n > 0 {
      NameKept(q, p, i, None, 0, []);
      QuestionForward(q, i);
      QuestionsStillRead(q, p, QuestionEnd(q, i).value, n - 1);
    }
  }

  lemma {:induction false} OwnersStillRead(q: Packet, p: Packet, i: nat, n: nat)
    requires AllButCount(q, p) && i >= HEADER_LEN && RecordsEnd(q, i, n).Ok? && OwnersAvoidCount(q, i, n)
    ensures OwnersRead(q, p, i, n)
    decreases n
  {
    hide AllButCount, BodyKept;
    KeptBody(q, p);
    if n > 0 {
      NameKept(q, p, i, None, 0, []);
      RecordForward(q, i);
      OwnersStillRead(q, p, ParseRecord(q, i).value.next, n - 1);
    }
  }

  /** For every query whose names stay out of the additional count, preparing can be undone. */
  lemma UncountedUnprepares(q: Packet, level: Level, size: U16, size': U16)
    requires PlainQuery(q) && QueryAvoidsCount(q) && level.UsesEdns() && PrepareQuery(q, level, size).Ok?
    ensures var p := PrepareQuery(q, level, size).value.packet;
            NamesRead(q, p) && PrepareQuery(p, Udp, size') == Ok(PreparedQuery(q, false, true))
  {
    hide EncodeOpt, ParseRecord, QuestionEnd, ScanSections, OurOpt, ParseHeader;
    PlainHeader(q);
    var p := PrepareQuery(q, level, size).value.packet;
    AppendedShape(q, OurOpt(level, size), p);
    var questions := ParseHeader(q).value.questions;
    QuestionsStillRead(q, p, HEADER_LEN, questions);
    QuestionsKept(q, p, HEADER_LEN, questions);
    OwnersStillRead(q, p, SkipQuestions(q, HEADER_LEN, questions).value, ParseHeader(q).value.TotalRecords());
    PrepareThenUnprepare(q, level, size, size');
  }

  /** A query for the root name, spelled as a pointer to the low octet of the additional count. */
  const HEADER_TARGET_QUERY: Packet :=
    [0, 1, 1, 0, 0, 1, 0, 0, 0, 0, 0, 0, 0xC0, 11, 0, 1, 0, 1]

  /** That query is plain and can be prepared, but not unprepared: the added OPT record turns
      its name into labels that run into the record's DO flag. */
  lemma HeaderPointerDoesNotUnprepare()
    ensures PlainQuery(HEADER_TARGET_QUERY)
    ensures PrepareQuery(HEADER_TARGET_QUERY, DnssecOk, 1232).Ok?
    ensures PrepareQuery(PrepareQuery(HEADER_TARGET_QUERY, DnssecOk, 1232).value.packet, Udp, 1232).Err?
  {
    var q := HEADER_TARGET_QUERY;
    HeaderPointerQueryIsPlain();
    PrepareFits(q, DnssecOk, 1232);
    PrepareThenUnprepare(q, DnssecOk, 1232, 1232);
    var p := PrepareQuery(q, DnssecOk, 1232).value.packet;
    HeaderPointerBreaks(p, OurOpt(DnssecOk, 1232));
  }

  lemma HeaderPointerName()
    ensures ReadName(HEADER_TARGET_QUERY, 12) == Ok(NameAt([0], 14))
  {
    var q := HEADER_TARGET_QUERY;
    var none: seq<Byte> := [];
    assert NameFrom(q, 12, None, 0, none) == NameFrom(q, 11, Some(14), 1, none);
    assert NameFrom(q, 11, Some(14), 1, none) == Ok(NameAt(none + [0], 14));
    assert none + [0] == [0];
  }

  lemma HeaderPointerSections()
    ensures SkipQuestions(HEADER_TARGET_QUERY, HEADER_LEN, 1) == Ok(|HEADER_TARGET_QUERY|)
  {
    hide NameFrom;
    var q := HEADER_TARGET_QUERY;
    HeaderPointerName();
    assert QuestionEnd(q, 12) == Ok(18);
    assert SkipQuestions(q, 12, 1) == SkipQuestions(q, 18, 0);
  }

  lemma QuestionOnlyIsPlain(q: Packet, header: Header)
    requires ParseHeader(q) == Ok(header) && header == Header(header.id, 0x100, 1, 0, 0, 0)
    requires SkipQuestions(q, HEADER_LEN, 1) == Ok(|q|)
    ensures PlainQuery(q)
  {
    hide ParseHeader, SkipQuestions, ParseRecord;
    assert RecordsEnd(q, |q|, 0) == Ok(|q|);
    assert ScanRecords(q, |q|, 0, 0, 0, PLAIN) == Ok((PLAIN, |q|));
  }

  lemma HeaderPointerHeader()
    ensures ParseHeader(HEADER_TARGET_QUERY) == Ok(Header(1, 0x100, 1, 0, 0, 0))
  {}

  lemma HeaderPointerQueryIsPlain()
    ensures PlainQuery(HEADER_TARGET_QUERY)
    ensures ParseHeader(HEADER_TARGET_QUERY) == Ok(Header(1, 0x100, 1, 0, 0, 0))
  {
    hide *;
    HeaderPointerHeader();
    HeaderPointerSections();
    QuestionOnlyIsPlain(HEADER_TARGET_QUERY, Header(1, 0x100, 1, 0, 0, 0));
  }

  lemma HeaderPointerBreaks(p: Packet, opt: OptRecord)
    requires Appended(HEADER_TARGET_QUERY, opt, p) && 0x4000 <= opt.flags < 0xC000
    ensures !NamesRead(HEADER_TARGET_QUERY, p)
  {
    hide ScanPacket, SkipQuestions, EncodeOpt, PlainQuery, Appended, NameFrom;
    HeaderPointerQueryIsPlain();
    HeaderPointerWalk(p, opt);
  }

  lemma HeaderPointerWalk(p: Packet, opt: OptRecord)
    requires Appended(HEADER_TARGET_QUERY, opt, p) && 0x4000 <= opt.flags < 0xC000
    ensures ReadName(p, 12).Err?
  {
    var none: seq<Byte> := [];
    HeaderPointerOctets(p, opt);
    assert NameFrom(p, 12, None, 0, none) == NameFrom(p, 11, Some(14), 1, none);
    var first := none + [1] + Lower(p[12..13]);
    assert NameFrom(p, 11, Some(14), 1, none) == NameFrom(p, 13, Some(14), 1, first);
    var second := first + [11] + Lower(p[14..25]);
    assert NameFrom(p, 13, Some(14), 1, first) == NameFrom(p, 25, Some(14), 1, second);
  }

  lemma HeaderPointerOctets(p: Packet, opt: OptRecord)
    requires Appended(HEADER_TARGET_QUERY, opt, p)
    ensures |p| >= 29 && p[11] == 1 && p[12] == 0xC0 && p[13] == 11 && p[25] == opt.flags / 0x100
  {
    hide EncodeOpt, NameFrom, ScanPacket, SkipQuestions, PlainQuery;
    HeaderPointerQueryIsPlain();
    AppendedShape(HEADER_TARGET_QUERY, opt, p);
    var rdata := EncodedOpt(opt);
    assert p[25] == p[18..][7];
    assert U16At(p, 10) == 1;
  }
}
