/** What a client without EDNS gets of a response that carries an OPT record anywhere among its
    additional records (`src/edns.rs`). */
module EdnsClient {
  import opened Bytes
  import opened Wire
  import opened WireSignatures
  import opened EdnsPacket
  import opened EdnsCut
  import opened EdnsStrip

  function Questions(p: Packet): nat
    requires |p| >= HEADER_LEN
  {
    ParseHeader(p).value.questions
  }

  /** The records of `p` around its OPT record. */
  ghost predicate Parted(p: Packet, span: OptSpan, before: seq<Record>, behind: seq<Record>) {
    && |p| >= HEADER_LEN && HEADER_LEN <= span.start < span.end <= |p|
    && SkipQuestions(p, HEADER_LEN, Questions(p)).Ok?
    && RecordsFrom(p, SkipQuestions(p, HEADER_LEN, Questions(p)).value, |before|) == Ok((before, span.start))
    && ParseRecord(p, span.start).Ok? && ParseRecord(p, span.start).value.next == span.end
    && ParseRecord(p, span.start).value.rrType == TYPE_OPT && OptOf(ParseRecord(p, span.start).value) == Ok(span.opt)
    && RecordsFrom(p, span.end, |behind|) == Ok((behind, |p|))
    && |before| + 1 + |behind| == ParseHeader(p).value.TotalRecords()
    && ParseHeader(p).value.answers as nat + ParseHeader(p).value.authorities <= |before|
    && (forall r :: r in before + behind ==> r.rrType != TYPE_OPT)
  }

  /** A packet that scans with an OPT record has it somewhere among its additional records. */
  lemma ScanParts(p: Packet, layout: Layout) returns (before: seq<Record>, behind: seq<Record>)
    requires ScanPacket(p) == Ok(layout) && layout.opt.Some?
    ensures Parted(p, layout.opt.value, before, behind)
  {
    hide SkipQuestions, ScanRecords, RecordsFrom, ParseRecord, OptOf;
    var header := ParseHeader(p).value;
    var first := SkipQuestions(p, HEADER_LEN, header.questions).value;
    var total, start := header.TotalRecords(), header.answers as nat + header.authorities;
    var k := OptFound(p, first, 0, total, start, Layout(None, false));
    var span := layout.opt.value;
    before, behind := RecordsFrom(p, first, k).value.0, RecordsFrom(p, span.end, total - k - 1).value.0;
    RecordsForward(p, first, k);
    RecordsForward(p, span.end, total - k - 1);
    RecordForward(p, span.start);
    SkipForward(p, HEADER_LEN, header.questions);
  }

  ghost function CutOf(p: Packet, span: OptSpan): Span
    requires HEADER_LEN <= span.start < span.end
  {
    Span(span.start, span.end)
  }

  /** Every name of `p`, the OPT record's aside, reads in `o` as well. */
  ghost predicate NamesRead(p: Packet, o: Packet, span: OptSpan, before: seq<Record>, behind: seq<Record>)
    requires Parted(p, span, before, behind)
  {
    && QuestionsRead(p, o, HEADER_LEN, Questions(p))
    && OwnersRead(p, o, SkipQuestions(p, HEADER_LEN, Questions(p)).value, |before|, 0)
    && OwnersRead(p, o, span.end, |behind|, span.end - span.start)
  }

  /** None of them looks at an octet that is cut out or changes, or follows a pointer to the OPT
      record or behind it. */
  ghost predicate NamesSteady(p: Packet, o: Packet, span: OptSpan, before: seq<Record>, behind: seq<Record>)
    requires Parted(p, span, before, behind)
  {
    && QuestionsSteady(p, o, CutOf(p, span), HEADER_LEN, Questions(p))
    && OwnersSteady(p, o, CutOf(p, span), SkipQuestions(p, HEADER_LEN, Questions(p)).value, |before|)
    && OwnersSteady(p, o, CutOf(p, span), span.end, |behind|)
  }

  /** All of them are read from the same octets as before. */
  ghost predicate NamesSame(p: Packet, o: Packet, span: OptSpan, before: seq<Record>, behind: seq<Record>)
    requires Parted(p, span, before, behind)
  {
    && QuestionsSame(p, o, CutOf(p, span), HEADER_LEN, Questions(p))
    && OwnersSame(p, o, CutOf(p, span), SkipQuestions(p, HEADER_LEN, Questions(p)).value, |before|)
    && OwnersSame(p, o, CutOf(p, span), span.end, |behind|)
  }

  lemma {:induction false} RecordsSplit(p: Packet, i: nat, a: nat, b: nat)
    requires RecordsFrom(p, i, a + b).Ok?
    ensures RecordsFrom(p, i, a).Ok? && RecordsFrom(p, RecordsFrom(p, i, a).value.1, b).Ok?
    decreases a
  {
    hide ParseRecord;
    if a > 0 {
      RecordsSplit(p, ParseRecord(p, i).value.next, a - 1, b);
    }
  }

  /** What is left parses exactly when the names still read, and then holds the other records with
      their fields, in order. */
  lemma OthersLeft(p: Packet, o: Packet, span: OptSpan, before: seq<Record>, behind: seq<Record>)
    requires Parted(p, span, before, behind) && CutOut(p, o, CutOf(p, span))
    ensures var first := SkipQuestions(p, HEADER_LEN, Questions(p)).value;
            var left := RecordsFrom(o, first, |before| + |behind|);
            && (NamesRead(p, o, span, before, behind) <==>
                SkipQuestions(o, HEADER_LEN, Questions(p)) == Ok(first) && left.Ok?)
            && (SkipQuestions(o, HEADER_LEN, Questions(p)).Ok? ==>
                  SkipQuestions(o, HEADER_LEN, Questions(p)) == Ok(first))
            && (NamesRead(p, o, span, before, behind) ==>
                  && left.value.1 == |o| && |left.value.0| == |before| + |behind|
                  && SameRecords(before, left.value.0[..|before|], 0)
                  && SameRecords(behind, left.value.0[|before|..], span.end - span.start))
  {
    hide CutOut, SkipQuestions, RecordsFrom, ParseRecord, OptOf, QuestionsRead, OwnersRead, ParseHeader, SameFields;
    var s, questions := CutOf(p, span), Questions(p);
    var first := SkipQuestions(p, HEADER_LEN, questions).value;
    SkipForward(p, HEADER_LEN, questions);
    RecordsForward(p, first, |before|);
    QuestionsMove(p, o, s, HEADER_LEN, questions);
    RecordsMove(p, o, s, first, |before|);
    RecordsMove(p, o, s, span.end, |behind|);
    if RecordsFrom(o, first, |before| + |behind|).Ok? {
      RecordsSplit(o, first, |before|, |behind|);
    }
    if RecordsFrom(o, first, |before|).Ok? && RecordsFrom(o, span.start, |behind|).Ok? {
      RecordsJoin(o, first, |before|, |behind|);
      RecordsForward(o, first, |before|);
      CutLength(p, o, s);
    }
  }

  lemma CutLength(p: Packet, o: Packet, s: Span)
    requires CutOut(p, o, s)
    ensures |o| == |p| - (s.end - s.start)
  {}

  /** Steady names still read, and as the same names. */
  lemma SteadyKeepsOwners(p: Packet, o: Packet, span: OptSpan, before: seq<Record>, behind: seq<Record>)
    requires Parted(p, span, before, behind) && CutOut(p, o, CutOf(p, span)) && NamesSteady(p, o, span, before, behind)
    ensures NamesRead(p, o, span, before, behind)
    ensures var left := RecordsFrom(o, SkipQuestions(p, HEADER_LEN, Questions(p)).value, |before| + |behind|);
            left.Ok? && SameOwners(before + behind, left.value.0)
  {
    hide CutOut, SkipQuestions, RecordsFrom, ParseRecord, OptOf, QuestionsRead, OwnersRead, ParseHeader, OwnersSteady,
      QuestionsSteady, SameOwners, SameRecords;
    var s, questions := CutOf(p, span), Questions(p);
    var first := SkipQuestions(p, HEADER_LEN, questions).value;
    SkipForward(p, HEADER_LEN, questions);
    RecordsForward(p, first, |before|);
    QuestionsMove(p, o, s, HEADER_LEN, questions);
    SteadyOwners(p, o, s, first, |before|);
    SteadyOwners(p, o, s, span.end, |behind|);
    RecordsMove(p, o, s, first, |before|);
    RecordsJoin(o, first, |before|, |behind|);
    OwnersConcat(before, behind, RecordsFrom(o, first, |before|).value.0, RecordsFrom(o, span.start, |behind|).value.0);
  }

  lemma OwnersConcat(a: seq<Record>, b: seq<Record>, a': seq<Record>, b': seq<Record>)
    requires SameOwners(a, a') && SameOwners(b, b')
    ensures SameOwners(a + b, a' + b')
  {}

  /** The names are read from the same octets as before exactly when they are steady. */
  lemma SameIffSteady(p: Packet, o: Packet, span: OptSpan, before: seq<Record>, behind: seq<Record>)
    requires Parted(p, span, before, behind) && CutOut(p, o, CutOf(p, span))
    ensures NamesSame(p, o, span, before, behind) <==> NamesSteady(p, o, span, before, behind)
  {
    hide CutOut, SkipQuestions, RecordsFrom, ParseRecord, OptOf, ParseHeader, OwnersSteady, QuestionsSteady, OwnersSame,
      QuestionsSame;
    var s, questions := CutOf(p, span), Questions(p);
    var first := SkipQuestions(p, HEADER_LEN, questions).value;
    SkipForward(p, HEADER_LEN, questions);
    RecordsForward(p, first, |before|);
    QuestionsSameIff(p, o, s, HEADER_LEN, questions);
    OwnersSameIff(p, o, s, first, |before|);
    OwnersSameIff(p, o, s, span.end, |behind|);
  }

  /** The header of what is left: one additional record less, and SERVFAIL where the extended
      response code does not fit it. */
  function StrippedHeader(h: Header, opt: OptRecord): Header
    requires h.additionals > 0
  {
    h.(additionals := h.additionals - 1,
       flags := if opt.extendedRcode == 0 then h.flags else h.flags - h.flags % 16 + 2)
  }

  /** Removing the record cuts out its octets and lowers the count. */
  lemma RemoveCuts(p: Packet, span: OptSpan)
    requires |p| >= HEADER_LEN && HEADER_LEN <= span.start < span.end <= |p| && ParseHeader(p).value.additionals > 0
    requires |p| - (span.end - span.start) < 0x1_0000
    ensures RemoveOpt(p, span).Ok?
    ensures var o := RemoveOpt(p, span).value;
            var h := ParseHeader(p).value;
            CutOut(p, o, CutOf(p, span)) && ParseHeader(o) == Ok(h.(additionals := h.additionals - 1))
  {
    var h, cut := ParseHeader(p).value, p[..span.start] + [] + p[span.end..];
    var n: U16 := h.additionals - 1;
    var o := cut[..10] + Be16(n) + cut[12..];
    assert RemoveOpt(p, span) == Ok(o);
    assert o[10] == Be16(n)[0] && o[11] == Be16(n)[1];
    forall j | 0 <= j < 10 ensures o[j] == p[j] {}
  }

  lemma ServfailCuts(p: Packet, o: Packet, s: Span)
    requires |p| >= HEADER_LEN && CutOut(p, o, s)
    ensures CutOut(p, ServfailRcode(o), s)
    ensures var h := ParseHeader(o).value; ParseHeader(ServfailRcode(o)) == Ok(h.(flags := h.flags - h.flags % 16 + 2))
  {
    var flags := U16At(o, 2);
    var n: U16 := flags - flags % 16 + 2;
    var o' := ServfailRcode(o);
    assert o' == o[..2] + Be16(n) + o[4..];
    assert o'[2] == Be16(n)[0] && o'[3] == Be16(n)[1];
  }

  /** What the client of a plain query gets: the response without the octets of its OPT record, with
      the stripped header. Only the size limit can fail. */
  lemma ClientGetsCut(q: Packet, p: Packet, layout: Layout)
    requires Validate(q, false).Ok? && ScanPacket(q) == Ok(Layout(None, false))
    requires Validate(p, true).Ok? && ScanPacket(p) == Ok(layout) && layout.opt.Some?
    ensures |p| >= HEADER_LEN && ParseHeader(p).value.additionals > 0
    ensures var span := layout.opt.value;
            && HEADER_LEN <= span.start < span.end <= |p|
            && (ResponseForClient(q, p).Ok? <==> |p| - (span.end - span.start) < 0x1_0000)
            && (ResponseForClient(q, p).Ok? ==>
                  && CutOut(p, ResponseForClient(q, p).value, CutOf(p, span))
                  && ParseHeader(ResponseForClient(q, p).value) == Ok(StrippedHeader(ParseHeader(p).value, span.opt)))
  {
    hide Validate, ScanPacket, CutOut, SkipQuestions, RecordsFrom, ParseRecord, OptOf, ServfailRcode, U16At;
    var before, behind := ScanParts(p, layout);
    var span := layout.opt.value;
    if |p| - (span.end - span.start) < 0x1_0000 {
      RemoveCuts(p, span);
      ServfailCuts(p, RemoveOpt(p, span).value, CutOf(p, span));
    }
  }

  lemma {:induction false} EndOfRecords(p: Packet, i: nat, n: nat)
    ensures RecordsEnd(p, i, n).Ok? <==> RecordsFrom(p, i, n).Ok?
    ensures RecordsEnd(p, i, n).Ok? ==> RecordsEnd(p, i, n).value == RecordsFrom(p, i, n).value.1
    decreases n
  {
    hide ParseRecord;
    if n > 0 && ParseRecord(p, i).Ok? {
      EndOfRecords(p, ParseRecord(p, i).value.next, n - 1);
    }
  }

  /** A client that sent neither OPT nor TSIG, and any response with an OPT record, wherever it
      stands. The client gets a valid response exactly when the names around the record still read;
      then it holds the other records in order with their types, classes, TTLs and RDATA octets. The
      names are read from the octets they were read from exactly when none of them follows a pointer
      to the OPT record or behind it or looks at a header octet that changes, and then they are the
      same names. */
  lemma ClientGetsOthers(q: Packet, p: Packet, layout: Layout) returns (before: seq<Record>, behind: seq<Record>)
    requires Validate(q, false).Ok? && ScanPacket(q) == Ok(Layout(None, false))
    requires Validate(p, true).Ok? && ScanPacket(p) == Ok(layout) && layout.opt.Some?
    requires ResponseForClient(q, p).Ok?
    ensures var span, o := layout.opt.value, ResponseForClient(q, p).value;
            && Parted(p, span, before, behind)
            && (Validate(o, true).Ok? <==> NamesRead(p, o, span, before, behind))
            && (NamesSame(p, o, span, before, behind) <==> NamesSteady(p, o, span, before, behind))
            && (NamesSteady(p, o, span, before, behind) ==> NamesRead(p, o, span, before, behind))
            && var left := RecordsFrom(o, SkipQuestions(p, HEADER_LEN, Questions(p)).value, |before| + |behind|);
            && (NamesRead(p, o, span, before, behind) ==>
                  && left.Ok? && left.value.1 == |o| && |left.value.0| == |before| + |behind|
                  && SameRecords(before, left.value.0[..|before|], 0)
                  && SameRecords(behind, left.value.0[|before|..], span.end - span.start))
            && (NamesSteady(p, o, span, before, behind) ==> SameOwners(before + behind, left.value.0))
  {
    hide Validate, ScanPacket, CutOut, SkipQuestions, RecordsFrom, ParseRecord, OptOf, ParseHeader, NamesRead,
        NamesSame,
      NamesSteady, SameRecords, SameOwners, ResponseForClient;
    ClientGetsCut(q, p, layout);
    before, behind := ScanParts(p, layout);
    var span, o := layout.opt.value, ResponseForClient(q, p).value;
    OthersLeft(p, o, span, before, behind);
    SameIffSteady(p, o, span, before, behind);
    if NamesSteady(p, o, span, before, behind) {
      SteadyKeepsOwners(p, o, span, before, behind);
    }
    LeftValidates(p, o, span, before, behind);
  }

  lemma LeftValidates(p: Packet, o: Packet, span: OptSpan, before: seq<Record>, behind: seq<Record>)
    requires Parted(p, span, before, behind) && CutOut(p, o, CutOf(p, span)) && Validate(p, true).Ok?
    requires ParseHeader(p).value.additionals > 0
    requires ParseHeader(o) == Ok(StrippedHeader(ParseHeader(p).value, span.opt))
    ensures Validate(o, true).Ok? <==> NamesRead(p, o, span, before, behind)
  {
    hide CutOut, SkipQuestions, RecordsFrom, RecordsEnd, ParseRecord, OptOf, ParseHeader, NamesRead, SameFields, U16At;
    OthersLeft(p, o, span, before, behind);
    EndOfRecords(o, SkipQuestions(p, HEADER_LEN, Questions(p)).value, |before| + |behind|);
    FlagsKept(ParseHeader(p).value, span.opt);
  }

  lemma FlagsKept(h: Header, opt: OptRecord)
    requires h.additionals > 0
    ensures var h' := StrippedHeader(h, opt);
            && h'.IsResponse() == h.IsResponse() && h'.Opcode() == h.Opcode() && h'.TotalRecords() ==
                h.TotalRecords() - 1
            && h'.Rcode() == if opt.extendedRcode == 0 then h.Rcode() else 2
  {}
}
