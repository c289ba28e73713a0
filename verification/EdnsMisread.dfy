/** Two responses whose OPT record stands before compressed owners (`src/edns.rs`): taking it out
    changes what an owner reads as in one, and by coincidence does not in the other. */
module EdnsMisread {
  import opened Bytes
  import opened Wire
  import opened EdnsPacket
  import opened EdnsCut

  // A root question, an OPT record at 17, an address of `a.` at 28, and one at 45 with owner `C0 target`.

  const HEAD: seq<Byte> := [0, 7, 0x81, 0x80, 0, 1, 0, 0, 0, 0, 0, 3]
  const LEFT_HEAD: seq<Byte> := [0, 7, 0x81, 0x80, 0, 1, 0, 0, 0, 0, 0, 2]
  const QUESTION: seq<Byte> := [0, 0, 1, 0, 1]
  const OPT_OCTETS: seq<Byte> := [0, 0, 41, 4, 208, 0, 0, 0, 0, 0, 0]
  const FIELDS: seq<Byte> := [0, 1, 0, 1, 0, 0, 0, 60, 0, 4]
  const LETTER: seq<Byte> := [1, 97, 0]
  const OUR_OPT := OptRecord(1232, 0, 0, 0, [])

  function Address(owner: seq<Byte>, octet: Byte): seq<Byte> {
    owner + FIELDS + [octet, octet, octet, octet]
  }

  function Tail(host: Byte, target: Byte): (s: seq<Byte>)
    ensures |s| == 33
  {
    Address(LETTER, host) + Address([0xC0, target], 5)
  }

  function Response(host: Byte, target: Byte): (p: Packet)
    ensures |p| == 61
  {
    HEAD + QUESTION + OPT_OCTETS + Tail(host, target)
  }

  /** The response without its OPT record. */
  function Left(host: Byte, target: Byte): (p: Packet)
    ensures |p| == 50
  {
    LEFT_HEAD + QUESTION + Tail(host, target)
  }

  // Reading at places where these octets stand.

  lemma LetterReads(p: Packet, i: nat, next: Option<nat>, pointers: nat)
    requires pointers <= MAX_JUMPS && At(p, i, LETTER)
    ensures NameFrom(p, i, next, pointers, []) == Ok(NameAt(LETTER, if next.Some? then next.value else i + 3))
  {
    hide NameFrom, Lower;
    AtIndex(p, i, LETTER, 0);
    AtIndex(p, i, LETTER, 1);
    AtIndex(p, i, LETTER, 2);
    NameStep(p, i, next, pointers, []);
    var none: seq<Byte> := [];
    assert p[i + 1..i + 2] == [97];
    assert none + [1] + Lower([97]) == [1, 97];
    NameStep(p, i + 2, next, pointers, [1, 97]);
    assert [1, 97] + [0] == LETTER;
  }

  lemma PointerReads(p: Packet, i: nat, target: Byte)
    requires At(p, i, [0xC0, target]) && target < i
    ensures ReadName(p, i) == NameFrom(p, target, Some(i + 2), 1, [])
  {
    hide NameFrom;
    AtIndex(p, i, [0xC0, target], 0);
    AtIndex(p, i, [0xC0, target], 1);
    NameStep(p, i, None, 0, []);
  }

  lemma FieldsRead(p: Packet, j: nat)
    requires At(p, j, FIELDS)
    ensures U16At(p, j) == 1 && U16At(p, j + 2) == 1 && U16At(p, j + 8) == 4
  {
    AtIndex(p, j, FIELDS, 0);
    AtIndex(p, j, FIELDS, 1);
    AtIndex(p, j, FIELDS, 2);
    AtIndex(p, j, FIELDS, 3);
    AtIndex(p, j, FIELDS, 8);
    AtIndex(p, j, FIELDS, 9);
  }

  lemma AddressReads(p: Packet, i: nat, owner: seq<Byte>, octet: Byte, name: seq<Byte>)
    requires At(p, i, Address(owner, octet)) && ReadName(p, i) == Ok(NameAt(name, i + |owner|))
    ensures ParseRecord(p, i).Ok?
    ensures var r := ParseRecord(p, i).value; r.name == name && r.rrType == 1 && r.next == i + |owner| + 14
  {
    hide NameFrom, U16At, U32At;
    AtConcat(p, i, owner + FIELDS, [octet, octet, octet, octet]);
    AtConcat(p, i, owner, FIELDS);
    FieldsRead(p, i + |owner|);
  }

  lemma QuestionReads(p: Packet)
    requires At(p, HEADER_LEN, QUESTION)
    ensures SkipQuestions(p, HEADER_LEN, 1) == Ok(17)
  {
    hide NameFrom;
    AtIndex(p, HEADER_LEN, QUESTION, 0);
    RootReads(p, HEADER_LEN, None, 0);
    assert QuestionEnd(p, HEADER_LEN) == Ok(17);
    assert SkipQuestions(p, 17, 0) == Ok(17);
  }

  lemma OptReads(p: Packet)
    requires At(p, 17, OPT_OCTETS)
    ensures ParseRecord(p, 17).Ok?
    ensures var r := ParseRecord(p, 17).value;
            r.name == [0] && r.rrType == TYPE_OPT && r.next == 28 && OptOf(r) == Ok(OUR_OPT)
  {
    hide NameFrom;
    assert p[17..28] == OPT_OCTETS;
    assert p[17] == p[17..28][0] && p[18] == p[17..28][1] && p[19] == p[17..28][2] && p[20] == p[17..28][3];
    assert p[21] == p[17..28][4] && p[22] == p[17..28][5] && p[23] == p[17..28][6] && p[24] == p[17..28][7];
    assert p[25] == p[17..28][8] && p[26] == p[17..28][9] && p[27] == p[17..28][10];
    RootReads(p, 17, None, 0);
    assert U16At(p, 18) == 41 && U16At(p, 20) == 1232 && U32At(p, 22) == 0 && U16At(p, 26) == 0;
    assert p[28..28] == [];
  }

  // The two packets.

  /** Where the parts stand in the response. */
  lemma ResponsePlaces(host: Byte, target: Byte)
    ensures var p := Response(host, target);
            && At(p, 0, HEAD) && At(p, 12, QUESTION) && At(p, 17, OPT_OCTETS)
            && At(p, 28, Address(LETTER, host)) && At(p, 45, Address([0xC0, target], 5))
            && At(p, 28, LETTER) && At(p, 45, [0xC0, target])
  {
    hide Address;
    var p := Response(host, target);
    var first, last := Address(LETTER, host), Address([0xC0, target], 5);
    AddressParts(p, 28, LETTER, host);
    AddressParts(p, 45, [0xC0, target], 5);
    assert At(p, 0, HEAD + QUESTION + OPT_OCTETS + Tail(host, target));
    AtConcat(p, 0, HEAD + QUESTION + OPT_OCTETS, Tail(host, target));
    AtConcat(p, 0, HEAD + QUESTION, OPT_OCTETS);
    AtConcat(p, 0, HEAD, QUESTION);
    AtConcat(p, 28, first, last);
  }

  lemma LeftPlaces(host: Byte, target: Byte)
    ensures var p := Left(host, target);
            && At(p, 0, LEFT_HEAD) && At(p, 12, QUESTION)
            && At(p, 17, Address(LETTER, host)) && At(p, 34, Address([0xC0, target], 5))
            && At(p, 17, LETTER) && At(p, 20, FIELDS) && At(p, 34, [0xC0, target]) && p[30] == host
  {
    hide Address;
    var p := Left(host, target);
    var first, last := Address(LETTER, host), Address([0xC0, target], 5);
    AddressParts(p, 17, LETTER, host);
    AddressParts(p, 34, [0xC0, target], 5);
    assert At(p, 0, LEFT_HEAD + QUESTION + Tail(host, target));
    AtConcat(p, 0, LEFT_HEAD + QUESTION, Tail(host, target));
    AtConcat(p, 0, LEFT_HEAD, QUESTION);
    AtConcat(p, 17, first, last);
  }

  lemma AddressParts(p: Packet, i: nat, owner: seq<Byte>, octet: Byte)
    ensures |Address(owner, octet)| == |owner| + 14
    ensures At(p, i, Address(owner, octet)) ==>
              At(p, i, owner) && At(p, i + |owner|, FIELDS) && i + |owner| + 10 < |p| && p[i + |owner| + 10] == octet
  {
    if At(p, i, Address(owner, octet)) {
      var last := [octet, octet, octet, octet];
      AtConcat(p, i, owner + FIELDS, last);
      AtConcat(p, i, owner, FIELDS);
      AtIndex(p, i + |owner| + 10, last, 0);
    }
  }

  lemma HeadReads(p: Packet, head: seq<Byte>)
    requires |head| == 12 && At(p, 0, head)
    ensures ParseHeader(p) == Ok(Header(U16At(head, 0), U16At(head, 2), U16At(head, 4), U16At(head, 6), U16At(head, 8),
                                        U16At(head, 10)))
  {
    forall k | 0 <= k < 12 ensures p[k] == head[k] {
      AtIndex(p, 0, head, k);
    }
  }

  lemma ResponseReads(host: Byte, target: Byte, name: seq<Byte>)
    requires target < 45 && NameFrom(Response(host, target), target, Some(47), 1, []) == Ok(NameAt(name, 47))
    ensures var p := Response(host, target);
            && ParseHeader(p) == Ok(Header(7, 0x8180, 1, 0, 0, 3)) && SkipQuestions(p, HEADER_LEN, 1) == Ok(17)
            && ParseRecord(p, 17).Ok? && ParseRecord(p, 17).value.name == [0] && ParseRecord(p, 17).value.rrType ==
                TYPE_OPT
            && ParseRecord(p, 17).value.next == 28 && OptOf(ParseRecord(p, 17).value) == Ok(OUR_OPT)
            && ParseRecord(p, 28).Ok? && ParseRecord(p, 28).value.rrType == 1 && ParseRecord(p, 28).value.next == 45
            && ParseRecord(p, 45).Ok? && ParseRecord(p, 45).value.rrType == 1 && ParseRecord(p, 45).value.next == 61
            && ParseRecord(p, 45).value.name == name
  {
    hide NameFrom, Response, ParseRecord, SkipQuestions, OptOf, ParseHeader, Address;
    var p := Response(host, target);
    ResponsePlaces(host, target);
    HeadReads(p, HEAD);
    QuestionReads(p);
    OptReads(p);
    LetterReads(p, 28, None, 0);
    AddressReads(p, 28, LETTER, host, LETTER);
    PointerReads(p, 45, target);
    AddressReads(p, 45, [0xC0, target], 5, name);
  }

  lemma LeftReads(host: Byte, target: Byte, name: seq<Byte>)
    requires target < 34 && NameFrom(Left(host, target), target, Some(36), 1, []) == Ok(NameAt(name, 36))
    ensures var p := Left(host, target);
            && ParseHeader(p) == Ok(Header(7, 0x8180, 1, 0, 0, 2)) && SkipQuestions(p, HEADER_LEN, 1) == Ok(17)
            && ParseRecord(p, 17).Ok? && ParseRecord(p, 17).value.next == 34
            && ParseRecord(p, 34).Ok? && ParseRecord(p, 34).value.next == 50 && ParseRecord(p, 34).value.name == name
  {
    hide NameFrom, Left, ParseRecord, SkipQuestions, ParseHeader, Address;
    var p := Left(host, target);
    LeftPlaces(host, target);
    HeadReads(p, LEFT_HEAD);
    QuestionReads(p);
    LetterReads(p, 17, None, 0);
    AddressReads(p, 17, LETTER, host, LETTER);
    PointerReads(p, 34, target);
    AddressReads(p, 34, [0xC0, target], 5, name);
  }

  lemma ResponseScans(p: Packet)
    requires |p| == 61 && ParseHeader(p) == Ok(Header(7, 0x8180, 1, 0, 0, 3)) && SkipQuestions(p, HEADER_LEN, 1) ==
             Ok(17)
    requires ParseRecord(p, 17).Ok? && ParseRecord(p, 17).value.name == [0] && ParseRecord(p, 17).value.rrType ==
             TYPE_OPT
    requires ParseRecord(p, 17).value.next == 28 && OptOf(ParseRecord(p, 17).value) == Ok(OUR_OPT)
    requires ParseRecord(p, 28).Ok? && ParseRecord(p, 28).value.rrType == 1 && ParseRecord(p, 28).value.next == 45
    requires ParseRecord(p, 45).Ok? && ParseRecord(p, 45).value.rrType == 1 && ParseRecord(p, 45).value.next == 61
    ensures Validate(p, true).Ok? && ScanPacket(p) == Ok(Layout(Some(OptSpan(17, 28, OUR_OPT)), false))
  {
    hide ParseRecord, OptOf, ParseHeader, SkipQuestions;
    var found := Layout(Some(OptSpan(17, 28, OUR_OPT)), false);
    assert ScanRecords(p, 45, 2, 3, 0, found) == ScanRecords(p, 61, 3, 3, 0, found);
    assert ScanRecords(p, 28, 1, 3, 0, found) == ScanRecords(p, 45, 2, 3, 0, found);
    assert ScanRecords(p, 17, 0, 3, 0, Layout(None, false)) == ScanRecords(p, 28, 1, 3, 0, found);
    assert RecordsEnd(p, 45, 1) == RecordsEnd(p, 61, 0) == Ok(61);
    assert RecordsEnd(p, 28, 2) == RecordsEnd(p, 45, 1);
    assert RecordsEnd(p, 17, 3) == RecordsEnd(p, 28, 2);
  }

  lemma LeftScans(p: Packet)
    requires |p| == 50 && ParseHeader(p) == Ok(Header(7, 0x8180, 1, 0, 0, 2)) && SkipQuestions(p, HEADER_LEN, 1) ==
             Ok(17)
    requires ParseRecord(p, 17).Ok? && ParseRecord(p, 17).value.next == 34
    requires ParseRecord(p, 34).Ok? && ParseRecord(p, 34).value.next == 50
    ensures Validate(p, true).Ok?
  {
    hide ParseRecord, ParseHeader, SkipQuestions;
    assert RecordsEnd(p, 34, 1) == RecordsEnd(p, 50, 0) == Ok(50);
    assert RecordsEnd(p, 17, 2) == RecordsEnd(p, 34, 1);
  }

  lemma Strips(host: Byte, target: Byte)
    ensures RemoveOpt(Response(host, target), OptSpan(17, 28, OUR_OPT)) == Ok(Left(host, target))
  {
    hide Tail;
    var p, tail := Response(host, target), Tail(host, target);
    ResponsePlaces(host, target);
    HeadReads(p, HEAD);
    assert p[..17] == HEAD + QUESTION && p[28..] == tail;
    var cut := p[..17] + [] + p[28..];
    assert cut == HEAD + (QUESTION + tail);
    assert cut[..10] + Be16(2) == LEFT_HEAD && cut[12..] == QUESTION + tail;
    Assoc(LEFT_HEAD, QUESTION, tail);
  }

  /** The client of any plain query gets this response stripped to `Left`. */
  lemma ClientGetsLeft(q: Packet, host: Byte, target: Byte, name: seq<Byte>)
    requires Validate(q, false).Ok? && ScanPacket(q) == Ok(Layout(None, false))
    requires target < 45 && NameFrom(Response(host, target), target, Some(47), 1, []) == Ok(NameAt(name, 47))
    ensures Validate(Response(host, target), true).Ok?
    ensures ResponseForClient(q, Response(host, target)) == Ok(Left(host, target))
  {
    hide Validate, ScanPacket, NameFrom, Response, Left, RemoveOpt, ParseRecord, OptOf, SkipQuestions, ParseHeader;
    ResponseReads(host, target, name);
    Strips(host, target);
    ResponseScans(Response(host, target));
  }

  /** The last owner points at `a.` behind the OPT record: to the client it reads as the root, in a
      response that still parses. */
  lemma OwnerChanges(q: Packet)
    requires Validate(q, false).Ok? && ScanPacket(q) == Ok(Layout(None, false))
    ensures var p, o := Response(1, 28), Left(1, 28);
            && Validate(p, true).Ok? && ResponseForClient(q, p) == Ok(o) && Validate(o, true).Ok?
            && ParseRecord(p, 45).Ok? && ParseRecord(p, 45).value.name == LETTER
            && ParseRecord(o, 34).Ok? && ParseRecord(o, 34).value.name == [0]
  {
    hide Validate, ScanPacket, NameFrom, ParseRecord, OptOf, SkipQuestions, ParseHeader, ResponseForClient, Response,
        Left,
      Address;
    ResponsePlaces(1, 28);
    LeftPlaces(1, 28);
    LetterReads(Response(1, 28), 28, Some(47), 1);
    AtIndex(Left(1, 28), 20, FIELDS, 8);
    RootReads(Left(1, 28), 28, Some(36), 1);
    ClientGetsLeft(q, 1, 28, LETTER);
    ResponseReads(1, 28, LETTER);
    LeftReads(1, 28, [0]);
    LeftScans(Left(1, 28));
  }

  /** The last owner points at a zero octet behind the OPT record, and another zero octet takes its
      place: the owner is read from other octets and stays the root. So keeping the owner does not
      mean that no pointer leads there. */
  lemma OwnerStaysByChance(q: Packet)
    requires Validate(q, false).Ok? && ScanPacket(q) == Ok(Layout(None, false))
    ensures var p, o := Response(0, 30), Left(0, 30);
            && ResponseForClient(q, p) == Ok(o) && Validate(o, true).Ok?
            && ParseRecord(p, 45).Ok? && ParseRecord(o, 34).Ok?
            && ParseRecord(p, 45).value.name == ParseRecord(o, 34).value.name == [0]
            && !Steady(p, o, Span(17, 28), 45, 0)
  {
    hide Validate, ScanPacket, NameFrom, ParseRecord, OptOf, SkipQuestions, ParseHeader, ResponseForClient, Response,
        Left,
      Address, Steady;
    ResponsePlaces(0, 30);
    LeftPlaces(0, 30);
    AtIndex(Response(0, 30), 28, LETTER, 2);
    RootReads(Response(0, 30), 30, Some(47), 1);
    RootReads(Left(0, 30), 30, Some(36), 1);
    ClientGetsLeft(q, 0, 30, [0]);
    ResponseReads(0, 30, [0]);
    LeftReads(0, 30, [0]);
    LeftScans(Left(0, 30));
    var pointer: seq<Byte> := [0xC0, 30];
    AtIndex(Response(0, 30), 45, pointer, 0);
    AtIndex(Response(0, 30), 45, pointer, 1);
    SteadyRound(Response(0, 30), Left(0, 30), Span(17, 28), 45, 0);
  }
}
