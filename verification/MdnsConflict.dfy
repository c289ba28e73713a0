/** Probe tie-break and conflict detection of the mDNS responder (`src/mdns_full.rs`,
    `src/mdns_responder.rs`, section 8.2 of RFC 6762), up to two hosts that read each other's
    probe packets. */
module MdnsConflict {
  import opened Bytes
  import opened MdnsNames
  import opened MdnsMessages
  import opened MdnsIngress
  import Order
  import Text

  const TYPE_A := 1
  const TYPE_AAAA := 28
  const TYPE_ANY := 255
  const CLASS_IN := 1
  const HOST_TTL := 120

  predicate BytesLeq(a: seq<Byte>, b: seq<Byte>) {
    Order.LexLeq(a, b, ByteLeq)
  }

  lemma BytesOrder()
    ensures Order.TotalOrder(BytesLeq)
  {
    forall a, b ensures BytesLeq(a, b) || BytesLeq(b, a) {
      Order.LexTotal(a, b, ByteLeq);
    }
    forall a, b | BytesLeq(a, b) && BytesLeq(b, a) ensures a == b {
      Order.LexAntisymmetric(a, b, ByteLeq);
    }
    forall a, b, c | BytesLeq(a, b) && BytesLeq(b, c) ensures BytesLeq(a, c) {
      Order.LexTransitive(a, b, c, ByteLeq);
    }
  }

  type Data = seq<seq<Byte>>

  datatype TieBreak = WeWin | WeLose | Equal

  /** `probe_tie_break`. */
  function Compare(ours: Data, theirs: Data): TieBreak {
    var a, b := Order.Sort(ours, BytesLeq), Order.Sort(theirs, BytesLeq);
    if a == b then Equal
    else if Order.LexLeq(a, b, BytesLeq) then WeLose
    else WeWin
  }

  /** `sets_equal`. */
  predicate SetsEqual(a: Data, b: Data) {
    Order.Sort(a, BytesLeq) == Order.Sort(b, BytesLeq)
  }

  /** Equal exactly for equal multisets; otherwise one side wins and the other loses. */
  lemma TieBreakDecides(a: Data, b: Data)
    ensures SetsEqual(a, b) <==> multiset(a) == multiset(b)
    ensures Compare(a, b).Equal? <==> multiset(a) == multiset(b)
    ensures Compare(a, b).WeWin? <==> Compare(b, a).WeLose?
    ensures Compare(a, b).WeLose? <==> Compare(b, a).WeWin?
  {
    BytesOrder();
    Order.SortEqualIffPermutation(a, b, BytesLeq);
    var x, y := Order.Sort(a, BytesLeq), Order.Sort(b, BytesLeq);
    Order.LexTotal(x, y, BytesLeq);
    if Order.LexLeq(x, y, BytesLeq) && Order.LexLeq(y, x, BytesLeq) {
      Order.LexAntisymmetric(x, y, BytesLeq);
    }
  }

  /** The order in which either side lists its records does not matter. */
  lemma TieBreakIgnoresOrder(a: Data, a': Data, b: Data, b': Data)
    requires multiset(a) == multiset(a') && multiset(b) == multiset(b')
    ensures Compare(a, b) == Compare(a', b')
  {
    BytesOrder();
    Order.SortEqualIffPermutation(a, a', BytesLeq);
    Order.SortEqualIffPermutation(b, b', BytesLeq);
  }

  // Conflict detection.

  /** Our unique RDATA of one type for the name. */
  function OurData(rs: seq<LocalRecord>, owner: seq<Byte>, rrType: U16): Data {
    if rs == [] then []
    else (if rs[0].owner == owner && rs[0].rrType ==
        rrType then [rs[0].rdata] else []) + OurData(rs[1..], owner, rrType)
  }

  /** Does a received record bear on the name? In a query only the authority section does. */
  predicate Bears(r: Record, owner: seq<Byte>, rrType: U16, response: bool) {
    r.owner == owner && r.rrType == rrType && r.class_ == CLASS_IN && (response || r.section == Authority)
  }

  function TheirData(rs: seq<Record>, owner: seq<Byte>, rrType: U16, response: bool): Data {
    if rs == [] then []
    else (if Bears(rs[0], owner, rrType, response) then [rs[0].rdata] else []) + TheirData(rs[1..], owner, rrType,
        response)
  }

  datatype Verdict = Next | Decided(conflict: bool)

  /** One round of the loop over record types. */
  function Judge(ours: Data, theirs: Data, established: bool, response: bool): Verdict {
    if ours == [] || theirs == [] || SetsEqual(ours, theirs) then Next
    else if !established && !response then Decided(Compare(ours, theirs).WeLose?)
    else Decided(true)
  }

  function JudgeType(ours: seq<LocalRecord>, owner: seq<Byte>, established: bool, records: seq<Record>, response: bool,
                     rrType: U16): Verdict {
    Judge(OurData(ours, owner, rrType), TheirData(records, owner, rrType, response), established, response)
  }

  /** `detect_conflict`. */
  predicate Conflict(ours: seq<LocalRecord>, owner: seq<Byte>, established: bool, records: seq<Record>,
                     response: bool) {
    var a := JudgeType(ours, owner, established, records, response, TYPE_A);
    var b := JudgeType(ours, owner, established, records, response, TYPE_AAAA);
    if a.Decided? then a.conflict else b.Decided? && b.conflict
  }

  method DetectConflict(ours: seq<LocalRecord>, owner: seq<Byte>, established: bool, records: seq<Record>,
                        response: bool)
    returns (conflict: bool)
    ensures conflict == Conflict(ours, owner, established, records, response)
  {
    hide OurData, TheirData, SetsEqual, Compare;
    var types: seq<U16> := [TYPE_A, TYPE_AAAA];
    for i := 0 to |types|
      invariant forall k :: 0 <= k < i ==> JudgeType(ours, owner, established, records, response, types[k]).Next?
    {
      assert types[0] == TYPE_A && types[1] == TYPE_AAAA;
      assert i == 1 ==> JudgeType(ours, owner, established, records, response, types[0]).Next?;
      var ourData := OurData(ours, owner, types[i]);
      if ourData == [] {
        continue;
      }
      var theirData := TheirData(records, owner, types[i], response);
      if theirData == [] || SetsEqual(ourData, theirData) {
        continue;
      }
      if !established && !response {
        return Compare(ourData, theirData).WeLose?;
      }
      return true;
    }
    assert types[0] == TYPE_A && types[1] == TYPE_AAAA;
    return false;
  }

  /** Both sides have records of a type, and not the same ones. */
  ghost predicate Differ(ours: Data, theirs: Data) {
    ours != [] && theirs != [] && multiset(ours) != multiset(theirs)
  }

  /** An established host, or one that hears a response, sees a conflict exactly when the records
      of some address type differ. */
  lemma ConflictOutsideProbing(ours: seq<LocalRecord>, owner: seq<Byte>, established: bool, records: seq<Record>,
                               response: bool)
    requires established || response
    ensures Conflict(ours, owner, established, records, response) <==>
            || Differ(OurData(ours, owner, TYPE_A), TheirData(records, owner, TYPE_A, response))
            || Differ(OurData(ours, owner, TYPE_AAAA), TheirData(records, owner, TYPE_AAAA, response))
  {
    hide OurData, TheirData, Compare, SetsEqual;
    TieBreakDecides(OurData(ours, owner, TYPE_A), TheirData(records, owner, TYPE_A, response));
    TieBreakDecides(OurData(ours, owner, TYPE_AAAA), TheirData(records, owner, TYPE_AAAA, response));
  }

  /** What `a` holds of a type is what `b` was told of it. */
  ghost predicate Heard(a: seq<LocalRecord>, heard: seq<Record>, owner: seq<Byte>) {
    && TheirData(heard, owner, TYPE_A, false) == OurData(a, owner, TYPE_A)
    && TheirData(heard, owner, TYPE_AAAA, false) == OurData(a, owner, TYPE_AAAA)
  }

  /** Two hosts that probe for one name and hear each other's records: never both see a conflict,
      and one of them does exactly when the records of some address type differ. */
  lemma ProbersDecide(a: seq<LocalRecord>, b: seq<LocalRecord>, fromA: seq<Record>, fromB: seq<Record>,
                      owner: seq<Byte>)
    requires Heard(a, fromA, owner) && Heard(b, fromB, owner)
    ensures !(Conflict(a, owner, false, fromB, false) && Conflict(b, owner, false, fromA, false))
    ensures (Conflict(a, owner, false, fromB, false) || Conflict(b, owner, false, fromA, false)) <==>
            || Differ(OurData(a, owner, TYPE_A), OurData(b, owner, TYPE_A))
            || Differ(OurData(a, owner, TYPE_AAAA), OurData(b, owner, TYPE_AAAA))
  {
    hide OurData, TheirData, Compare, SetsEqual;
    TieBreakDecides(OurData(a, owner, TYPE_A), OurData(b, owner, TYPE_A));
    TieBreakDecides(OurData(b, owner, TYPE_A), OurData(a, owner, TYPE_A));
    TieBreakDecides(OurData(a, owner, TYPE_AAAA), OurData(b, owner, TYPE_AAAA));
    TieBreakDecides(OurData(b, owner, TYPE_AAAA), OurData(a, owner, TYPE_AAAA));
  }

  // The hosts.

  datatype Address_ = Address(ipv6: bool, octets: seq<Byte>)
  type Address = a: Address_ | |a.octets| == (if a.ipv6 then 16 else 4) witness Address(false, [0, 0, 0, 0])

  /** A name, the family of the interface, and the addresses on it. */
  datatype Host = Host(name: seq<Byte>, ipv6: bool, addresses: seq<Address>)

  const LOCAL: seq<Byte> := [108, 111, 99, 97, 108]
  const IN_ADDR: seq<Byte> := [105, 110, 45, 97, 100, 100, 114]
  const IP6: seq<Byte> := [105, 112, 54]
  const ARPA: seq<Byte> := [97, 114, 112, 97]

  function JoinLabels(labels: seq<seq<Byte>>): seq<Byte> {
    if labels == [] then []
    else
      var length := if |labels[0]| < 63 then |labels[0]| else 63;
      [length as Byte] + Lower(labels[0][..length]) + JoinLabels(labels[1..])
  }

  /** `wire_name`. */
  function WireNameOf(labels: seq<seq<Byte>>): seq<Byte> {
    match Canonical(JoinLabels(labels) + [0])
    case Ok(name) => name
    case Err(_) => [0]
  }

  lemma WireNameOfCanonical(labels: seq<seq<Byte>>)
    ensures CanonicalName(WireNameOf(labels))
  {
    hide Canonical, JoinLabels;
    CanonicalExact(JoinLabels(labels) + [0]);
    var root: seq<Byte> := [0];
    assert root[..0] == [] && Lower(root) == root;
  }

  function Owner(h: Host): seq<Byte> {
    WireNameOf([h.name, LOCAL])
  }

  /** The nibble labels of an IPv6 address, last octet first. */
  function Nibbles(octets: seq<Byte>): seq<seq<Byte>> {
    if octets == [] then []
    else
      var last := octets[|octets| - 1];
      [[Text.HexByte(last as nat % 16)], [Text.HexByte(last as nat / 16)]] + Nibbles(octets[..|octets| - 1])
  }

  /** `reverse_owner`. */
  function ReverseOwner(a: Address): seq<Byte> {
    if a.ipv6 then WireNameOf(Nibbles(a.octets) + [IP6, ARPA])
    else
      WireNameOf([Text.Digits(a.octets[3]), Text.Digits(a.octets[2]), Text.Digits(a.octets[1]),
          Text.Digits(a.octets[0]),
                  IN_ADDR, ARPA])
  }

  function AddressType(h: Host): U16 {
    if h.ipv6 then TYPE_AAAA else TYPE_A
  }

  /** The forward and reverse records of one address of the interface's family. */
  function AddressRecords(h: Host, a: Address): seq<LocalRecord> {
    if a.ipv6 != h.ipv6 then []
    else [LocalRecord(Owner(h), AddressType(h), CLASS_IN, HOST_TTL, true, a.octets),
          LocalRecord(ReverseOwner(a), TYPE_PTR, CLASS_IN, HOST_TTL, true, Owner(h))]
  }

  function Unsorted(h: Host, addresses: seq<Address>): seq<LocalRecord> {
    if addresses == [] then [] else AddressRecords(h, addresses[0]) + Unsorted(h, addresses[1..])
  }

  /** The derived order of local records, field by field. */
  predicate RecordLeq(a: LocalRecord, b: LocalRecord) {
    if a.owner != b.owner then BytesLeq(a.owner, b.owner)
    else if a.rrType != b.rrType then a.rrType < b.rrType
    else if a.class_ != b.class_ then a.class_ < b.class_
    else if a.ttl != b.ttl then a.ttl < b.ttl
    else if a.flush != b.flush then b.flush
    else BytesLeq(a.rdata, b.rdata)
  }

  /** `local_records`; all of them are unique records. */
  function LocalRecords(h: Host): seq<LocalRecord> {
    Order.Sort(Unsorted(h, h.addresses), RecordLeq)
  }

  function ProbeQuestion(h: Host): seq<Byte> {
    Owner(h) + Be16(TYPE_ANY) + Be16(CLASS_IN)
  }

  /** The packet of `send_probe`; a host without records sends none. */
  function ProbePacket(h: Host): Outcome<Option<seq<Byte>>> {
    var records := LocalRecords(h);
    if records == [] then Good(None)
    else
      var body :- Records(records, false);
      Good(Some(HeaderBytes(0, 0, 1, 0, |records| % 0x1_0000) + ProbeQuestion(h) + body))
  }

  /** The addresses of the interface's family. */
  function Octets(h: Host, addresses: seq<Address>): Data {
    if addresses == [] then []
    else (if addresses[0].ipv6 == h.ipv6 then [addresses[0].octets] else []) + Octets(h, addresses[1..])
  }

  /** What every record of a host is. */
  ghost predicate HostRecord(h: Host, r: LocalRecord) {
    PlainRecord(r) && |r.rdata| < 0x1_0000 && r.class_ == CLASS_IN && r.flush
  }

  lemma AddressRecordsPlain(h: Host, a: Address)
    ensures forall r :: r in AddressRecords(h, a) ==> HostRecord(h, r)
  {
    hide WireNameOf, Nibbles, Text.Digits, Canonical, Lower, Labels;
    WireNameOfCanonical([h.name, LOCAL]);
    if a.ipv6 {
      WireNameOfCanonical(Nibbles(a.octets) + [IP6, ARPA]);
    } else {
      WireNameOfCanonical([Text.Digits(a.octets[3]), Text.Digits(a.octets[2]), Text.Digits(a.octets[1]),
                           Text.Digits(a.octets[0]), IN_ADDR, ARPA]);
    }
  }

  lemma {:induction false} UnsortedPlain(h: Host, addresses: seq<Address>)
    ensures forall r :: r in Unsorted(h, addresses) ==> HostRecord(h, r)
  {
    hide HostRecord, AddressRecords;
    if addresses != [] {
      AddressRecordsPlain(h, addresses[0]);
      UnsortedPlain(h, addresses[1..]);
    }
  }

  lemma LocalRecordsPlain(h: Host)
    ensures forall r :: r in LocalRecords(h) ==> HostRecord(h, r)
  {
    hide HostRecord, AddressRecords;
    var unsorted := Unsorted(h, h.addresses);
    Order.SortPermutes(unsorted, RecordLeq);
    UnsortedPlain(h, h.addresses);
    forall r | r in LocalRecords(h) ensures HostRecord(h, r) {
      assert r in multiset(LocalRecords(h));
      assert r in multiset(unsorted);
    }
  }

  ghost function Picked(x: LocalRecord, owner: seq<Byte>, rrType: U16): Data {
    if x.owner == owner && x.rrType == rrType then [x.rdata] else []
  }

  lemma DataCons(x: LocalRecord, rest: seq<LocalRecord>, owner: seq<Byte>, rrType: U16)
    ensures OurData([x] + rest, owner, rrType) == Picked(x, owner, rrType) + OurData(rest, owner, rrType)
  {
    assert ([x] + rest)[1..] == rest;
  }

  lemma AddressData(h: Host, a: Address, rest: seq<LocalRecord>, rrType: U16)
    requires rrType == TYPE_A || rrType == TYPE_AAAA
    ensures OurData(AddressRecords(h, a) + rest, Owner(h), rrType) ==
            (if a.ipv6 == h.ipv6 && rrType == AddressType(h) then [a.octets] else []) + OurData(rest, Owner(h), rrType)
  {
    hide OurData, Owner, ReverseOwner;
    var rs := AddressRecords(h, a);
    if a.ipv6 == h.ipv6 {
      assert rs + rest == [rs[0]] + ([rs[1]] + rest);
      DataCons(rs[0], [rs[1]] + rest, Owner(h), rrType);
      DataCons(rs[1], rest, Owner(h), rrType);
    } else {
      assert rs + rest == rest;
    }
  }

  /** The host's data of the interface's type are its addresses, of the other type none. */
  lemma {:induction false} UnsortedData(h: Host, addresses: seq<Address>, rrType: U16)
    requires rrType == TYPE_A || rrType == TYPE_AAAA
    ensures OurData(Unsorted(h, addresses), Owner(h), rrType) ==
            if rrType == AddressType(h) then Octets(h, addresses) else []
  {
    hide Owner, AddressRecords;
    if addresses != [] {
      hide OurData;
      UnsortedData(h, addresses[1..], rrType);
      AddressData(h, addresses[0], Unsorted(h, addresses[1..]), rrType);
    }
  }

  lemma {:induction false} InsertedData(x: LocalRecord, s: seq<LocalRecord>, owner: seq<Byte>, rrType: U16)
    ensures multiset(OurData(Order.Insert(x, s, RecordLeq), owner, rrType)) ==
            multiset(Picked(x, owner, rrType)) + multiset(OurData(s, owner, rrType))
  {
    hide RecordLeq, OurData, Picked;
    DataCons(x, s, owner, rrType);
    if s == [] {
      assert [x] + s == [x];
    } else if !RecordLeq(x, s[0]) {
      InsertedData(x, s[1..], owner, rrType);
      assert s == [s[0]] + s[1..];
      DataCons(s[0], s[1..], owner, rrType);
      DataCons(s[0], Order.Insert(x, s[1..], RecordLeq), owner, rrType);
    }
  }

  /** Sorting the records does not change what data they hold. */
  lemma {:induction false} SortedData(s: seq<LocalRecord>, owner: seq<Byte>, rrType: U16)
    ensures multiset(OurData(Order.Sort(s, RecordLeq), owner, rrType)) == multiset(OurData(s, owner, rrType))
  {
    hide RecordLeq;
    if s != [] {
      SortedData(s[1..], owner, rrType);
      var rest := Order.Sort(s[1..], RecordLeq);
      InsertedData(s[0], rest, owner, rrType);
      assert s == [s[0]] + s[1..];
      DataCons(s[0], s[1..], owner, rrType);
    }
  }

  /** The authority section of a probe tells the other host exactly our data. */
  lemma {:induction false} ProbeTells(rs: seq<LocalRecord>, owner: seq<Byte>, rrType: U16)
    requires forall r :: r in rs ==> r.class_ == CLASS_IN
    ensures TheirData(ReadBackAll(rs, true, Authority), owner, rrType, false) == OurData(rs, owner, rrType)
  {
    if rs != [] {
      ProbeTells(rs[1..], owner, rrType);
      assert ReadBackAll(rs, true, Authority)[1..] == ReadBackAll(rs[1..], true, Authority);
    }
  }

  lemma {:induction false} RecordsEncode(rs: seq<LocalRecord>, permitFlush: bool)
    requires forall r :: r in rs ==> |r.rdata| < 0x1_0000
    ensures Records(rs, permitFlush).Good?
  {
    if rs != [] {
      RecordsEncode(rs[1..], permitFlush);
    }
  }

  lemma ProbeQuestionRaw(h: Host)
    ensures RawQuestion(ProbeQuestion(h))
    ensures QuestionOf(ProbeQuestion(h)) == Question(Owner(h), TYPE_ANY, CLASS_IN, false, ProbeQuestion(h))
  {
    hide WireNameOf, Labels;
    WireNameOfCanonical([h.name, LOCAL]);
    var q, n := ProbeQuestion(h), |Owner(h)|;
    assert q[..n] == Owner(h);
    assert q[n..] == Be16(TYPE_ANY) + Be16(CLASS_IN);
    assert q[n] == 0 && q[n + 1] == 255 && q[n + 2] == 0 && q[n + 3] == 1;
  }

  lemma OneQuestion(q: seq<Byte>)
    requires RawQuestion(q)
    ensures Concat([q]) == q && QuestionsOf([q]) == [QuestionOf(q)]
  {
    hide RawQuestion, QuestionOf;
    var none: seq<seq<Byte>> := [];
    assert [q][1..] == none && Concat(none) == [] && QuestionsOf(none) == [];
  }

  /** A probe reads back as the question for the name and the host's records as authorities. */
  lemma ProbeReadsBack(h: Host)
    requires 0 < |LocalRecords(h)| < 0x1_0000
    ensures ProbePacket(h).Good? && ProbePacket(h).value.Some?
    ensures ParseMessage(ProbePacket(h).value.value) ==
            Good(Message(0, 0, [Question(Owner(h), TYPE_ANY, CLASS_IN, false, ProbeQuestion(h))],
                         ReadBackAll(LocalRecords(h), true, Authority)))
  {
    hide HeaderBytes, Records, ReadQuestions, ReadRecords, U16At, RawQuestion, PlainRecord, ReadBackAll, LocalRecords,
      ProbeQuestion, Owner, QuestionOf;
    var records := LocalRecords(h);
    LocalRecordsPlain(h);
    RecordsEncode(records, false);
    var p := ProbePacket(h).value.value;
    var head, q, rs := HeaderBytes(0, 0, 1, 0, |records|), ProbeQuestion(h), Records(records, false).value;
    assert At(p, 0, head + q + rs);
    AtConcat(p, 0, head + q, rs);
    AtConcat(p, 0, head, q);
    HeaderReads(p, 0, 0, 1, 0, |records|);
    ProbeQuestionRaw(h);
    OneQuestion(q);
    RawQuestionsRead(p, HEADER_LEN, [q]);
    RecordsRead(p, HEADER_LEN + |q|, records, true, Authority, 0, |records|, 0, |records|);
  }

  /** A probe passes the validation its receiver runs before parsing it. */
  lemma ProbeValidates(h: Host)
    requires 0 < |LocalRecords(h)| < 0x1_0000
    ensures ProbePacket(h).Good? && ProbePacket(h).value.Some?
    ensures |ProbePacket(h).value.value| >= HEADER_LEN && Validates(ProbePacket(h).value.value)
  {
    hide HeaderBytes, Records, RawQuestion, PlainRdata, LocalRecords, ProbeQuestion, Owner, WireName, Validates;
    var records := LocalRecords(h);
    LocalRecordsPlain(h);
    RecordsEncode(records, false);
    ProbeQuestionRaw(h);
    var q := ProbeQuestion(h);
    assert Concat([q]) == q;
    BuiltValidates(ProbePacket(h).value.value, 0, 0, [q], 0, |records|, records, false);
  }

  /** What a host concludes from a datagram: one that fails validation or parsing is dropped. */
  predicate SeesConflict(h: Host, established: bool, p: Packet) {
    && |p| >= HEADER_LEN && Validates(p)
    && var message := ParseMessage(p);
    && message.Good?
    && Conflict(LocalRecords(h), Owner(h), established, message.value.records, message.value.flags >= TOP_BIT)
  }

  lemma HostData(h: Host, rrType: U16)
    requires rrType == TYPE_A || rrType == TYPE_AAAA
    ensures multiset(OurData(LocalRecords(h), Owner(h), rrType)) ==
            if rrType == AddressType(h) then multiset(Octets(h, h.addresses)) else multiset{}
  {
    hide Owner, OurData, Unsorted, Octets;
    SortedData(Unsorted(h, h.addresses), Owner(h), rrType);
    UnsortedData(h, h.addresses, rrType);
  }

  lemma {:induction false} RecordsMeanOctets(h: Host, addresses: seq<Address>)
    ensures Unsorted(h, addresses) == [] <==> Octets(h, addresses) == []
  {
    if addresses != [] {
      RecordsMeanOctets(h, addresses[1..]);
    }
  }

  lemma HasOctets(h: Host)
    requires LocalRecords(h) != []
    ensures Octets(h, h.addresses) != []
  {
    hide AddressRecords, Octets;
    Order.SortPermutes(Unsorted(h, h.addresses), RecordLeq);
    assert LocalRecords(h)[0] in multiset(Unsorted(h, h.addresses));
    RecordsMeanOctets(h, h.addresses);
  }

  /** Two hosts probe for one name and receive each other's probes: exactly one of them concludes
      that it must rename if they probe in the same family with different addresses, and neither
      otherwise. */
  lemma OneProberRenames(a: Host, b: Host)
    requires Owner(a) == Owner(b)
    requires 0 < |LocalRecords(a)| < 0x1_0000 && 0 < |LocalRecords(b)| < 0x1_0000
    ensures ProbePacket(a).Good? && ProbePacket(a).value.Some? && ProbePacket(b).Good? && ProbePacket(b).value.Some?
    ensures var fromA, fromB := ProbePacket(a).value.value, ProbePacket(b).value.value;
            && !(SeesConflict(a, false, fromB) && SeesConflict(b, false, fromA))
            && ((SeesConflict(a, false, fromB) || SeesConflict(b, false, fromA)) <==>
                a.ipv6 == b.ipv6 && multiset(Octets(a, a.addresses)) != multiset(Octets(b, b.addresses)))
  {
    hide ParseMessage, ProbePacket, LocalRecords, Owner, Conflict, TheirData, OurData, ReadBackAll, Octets, PlainRecord,
      ProbeQuestion, Validates;
    ProbeValidates(a);
    ProbeValidates(b);
    ProbeReadsBack(a);
    ProbeReadsBack(b);
    var fromA, fromB := ReadBackAll(LocalRecords(a), true, Authority), ReadBackAll(LocalRecords(b), true, Authority);
    LocalRecordsPlain(a);
    LocalRecordsPlain(b);
    ProbeTells(LocalRecords(a), Owner(a), TYPE_A);
    ProbeTells(LocalRecords(a), Owner(a), TYPE_AAAA);
    ProbeTells(LocalRecords(b), Owner(a), TYPE_A);
    ProbeTells(LocalRecords(b), Owner(a), TYPE_AAAA);
    ProbersDecide(LocalRecords(a), LocalRecords(b), fromA, fromB, Owner(a));
    HostsDiffer(a, b);
  }

  /** In terms of addresses. */
  lemma HostsDiffer(a: Host, b: Host)
    requires Owner(a) == Owner(b) && LocalRecords(a) != [] && LocalRecords(b) != []
    ensures (|| Differ(OurData(LocalRecords(a), Owner(a), TYPE_A), OurData(LocalRecords(b), Owner(b), TYPE_A))
             || Differ(OurData(LocalRecords(a), Owner(a), TYPE_AAAA),
                 OurData(LocalRecords(b), Owner(b), TYPE_AAAA))) <==>
            a.ipv6 == b.ipv6 && multiset(Octets(a, a.addresses)) != multiset(Octets(b, b.addresses))
  {
    hide LocalRecords, Owner, OurData, Octets;
    HasOctets(a);
    HasOctets(b);
    HostData(a, TYPE_A);
    HostData(a, TYPE_AAAA);
    HostData(b, TYPE_A);
    HostData(b, TYPE_AAAA);
    NoData(OurData(LocalRecords(a), Owner(a), TYPE_A));
    NoData(OurData(LocalRecords(a), Owner(a), TYPE_AAAA));
    NoData(OurData(LocalRecords(b), Owner(b), TYPE_A));
    NoData(OurData(LocalRecords(b), Owner(b), TYPE_AAAA));
  }

  lemma NoData(d: Data)
    ensures d == [] <==> multiset(d) == multiset{}
  {
    if d != [] {
      assert d[0] in multiset(d);
    }
  }
}
