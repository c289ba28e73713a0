/** Splicing OPT records in and out of packets (`src/edns.rs`, section 6.1 of RFC 6891). */
module EdnsPacket {
  import opened Bytes
  import opened Wire

  datatype Level = Udp | Edns0 | DnssecOk {
    predicate UsesEdns() { !Udp? }
    function Rank(): nat { match this case Udp => 0 case Edns0 => 1 case DnssecOk => 2 }
    function Lower(): Level { if DnssecOk? then Edns0 else Udp }
    predicate Leq(that: Level) { Rank() <= that.Rank() }
  }

  const DO_FLAG := 0x8000

  datatype EdnsOption = EdnsOption(code: U16, data: seq<Byte>)

  datatype OptRecord = OptRecord(payloadSize: U16, extendedRcode: Byte, version: Byte, flags: U16,
      options: seq<EdnsOption>) {
    predicate DnssecOk() { flags >= DO_FLAG }
  }

  /** Where the OPT record of a packet lies and what it carries. */
  datatype OptSpan = OptSpan(start: nat, end: nat, opt: OptRecord)

  datatype Layout = Layout(opt: Option<OptSpan>, hasTsig: bool)

  datatype PreparedQuery = PreparedQuery(packet: Packet, sentEdns: bool, managedOpt: bool)

  /** `parse_options` from an offset on. */
  function ParseOptions(rdata: seq<Byte>, offset: nat): Result<seq<EdnsOption>>
    decreases |rdata| - offset
  {
    if offset >= |rdata| then Ok([])
    else if offset + 4 > |rdata| then Err(InvalidRecord)
    else
      var end := offset + 4 + U16At(rdata, offset + 2);
      if end > |rdata| then Err(InvalidRecord)
      else
        var rest :- ParseOptions(rdata, end);
        Ok([EdnsOption(U16At(rdata, offset), rdata[offset + 4..end])] + rest)
  }

  function OptOf(record: Record): Result<OptRecord> {
    var options :- ParseOptions(record.rdata, 0);
    Ok(OptRecord(record.class_, record.ttl / 0x100_0000, record.ttl / 0x1_0000 % 0x100, record.ttl % 0x1_0000, options))
  }

  /** The record loop of `scan_packet`, `index` records in. */
  function ScanRecords(p: Packet, offset: nat, index: nat, total: nat, additionalStart: nat, layout: Layout)
    : Result<(Layout, nat)>
    requires index <= total
    decreases total - index
  {
    if index == total then Ok((layout, offset))
    else
      var record :- ParseRecord(p, offset);
      if record.rrType == TYPE_OPT then
        if index < additionalStart || record.name != [0] || layout.opt.Some? then Err(InvalidRecord)
        else
          var opt :- OptOf(record);
          ScanRecords(p, record.next, index + 1, total, additionalStart,
              layout.(opt := Some(OptSpan(offset, record.next, opt))))
      else if record.rrType == TYPE_TSIG then
        ScanRecords(p, record.next, index + 1, total, additionalStart, layout.(hasTsig := true))
      else
        ScanRecords(p, record.next, index + 1, total, additionalStart, layout)
  }

  /** `scan_packet` behind the header. */
  function ScanSections(p: Packet, questions: nat, total: nat, additionalStart: nat): Result<Layout> {
    var offset :- SkipQuestions(p, HEADER_LEN, questions);
    var (layout, end) :- ScanRecords(p, offset, 0, total, additionalStart, Layout(None, false));
    if end != |p| then Err(TrailingData) else Ok(layout)
  }

  /** `scan_packet`. */
  function ScanPacket(p: Packet): Result<Layout> {
    var header :- ParseHeader(p);
    ScanSections(p, header.questions, header.TotalRecords(), header.answers as nat + header.authorities)
  }

  function EncodeOptions(options: seq<EdnsOption>): Result<seq<Byte>> {
    if options == [] then Ok([])
    else
      var first := options[0];
      if |first.data| >= 0x1_0000 then Err(ResponseTooLarge)
      else
        var rest :- EncodeOptions(options[1..]);
        Ok(Be16(first.code) + Be16(|first.data|) + first.data + rest)
  }

  /** `encode_opt`. */
  function EncodeOpt(opt: OptRecord): Result<seq<Byte>> {
    var rdata :- EncodeOptions(opt.options);
    if |rdata| >= 0x1_0000 then Err(ResponseTooLarge)
    else Ok([0] + Be16(TYPE_OPT) + Be16(opt.payloadSize) + [opt.extendedRcode, opt.version]
            + Be16(opt.flags) + Be16(|rdata|) + rdata)
  }

  /** `copy_from_slice` of a count into octets 10 and 11. */
  function SetAdditionals(p: Packet, n: U16): Packet
    requires |p| >= HEADER_LEN
  {
    p[..10] + Be16(n) + p[12..]
  }

  function ReplaceSpan(p: Packet, start: nat, end: nat, replacement: seq<Byte>): Result<Packet> {
    if start > end || end > |p| then Err(InvalidRecord)
    else if |p| - (end - start) + |replacement| >= 0x1_0000 then Err(ResponseTooLarge)
    else Ok(p[..start] + replacement + p[end..])
  }

  function AppendOpt(p: Packet, opt: seq<Byte>): Result<Packet> {
    var header :- ParseHeader(p);
    if header.additionals + 1 >= 0x1_0000 || |p| + |opt| >= 0x1_0000 then Err(ResponseTooLarge)
    else Ok(SetAdditionals(p + opt, header.additionals + 1))
  }

  function RemoveOpt(p: Packet, span: OptSpan): (r: Result<Packet>)
    ensures r.Ok? ==> |r.value| >= HEADER_LEN
  {
    var header :- ParseHeader(p);
    if header.additionals == 0 then Err(InvalidRecord)
    else
      var output :- ReplaceSpan(p, span.start, span.end, []);
      if |output| < HEADER_LEN then Err(ShortPacket)
      else Ok(SetAdditionals(output, header.additionals - 1))
  }

  /** The algorithms advertised with the DO flag (RFC 6975). */
  const RFC6975_OPTIONS: seq<EdnsOption> := [
    EdnsOption(5, [5, 7, 8, 10, 13, 14]),
    EdnsOption(6, [1, 2, 4]),
    EdnsOption(7, [1])]

  /** The OPT record a query is sent with at a level that uses EDNS. */
  function OurOpt(level: Level, payloadSize: U16): OptRecord {
    OptRecord(if payloadSize < 512 then 512 else payloadSize, 0, 0,
              if level.DnssecOk? then DO_FLAG else 0,
              if level.DnssecOk? then RFC6975_OPTIONS else [])
  }

  /** `prepare_query`. */
  function PrepareQuery(query: Packet, level: Level, payloadSize: U16): Result<PreparedQuery> {
    var _ :- Validate(query, false);
    var layout :- ScanPacket(query);
    if layout.hasTsig then Ok(PreparedQuery(query, layout.opt.Some?, false))
    else if !level.UsesEdns() then
      var packet :- if layout.opt.Some? then RemoveOpt(query, layout.opt.value) else Ok(query);
      Ok(PreparedQuery(packet, false, true))
    else
      var replacement :- EncodeOpt(OurOpt(level, payloadSize));
      var packet :- if layout.opt.Some? then ReplaceSpan(query, layout.opt.value.start, layout.opt.value.end,
          replacement)
                    else AppendOpt(query, replacement);
      Ok(PreparedQuery(packet, true, true))
  }

  /** `inspect_opt`. */
  function InspectOpt(p: Packet): Result<Option<OptRecord>> {
    var layout :- ScanPacket(p);
    Ok(if layout.opt.Some? then Some(layout.opt.value.opt) else None)
  }

  /** `full_rcode`. */
  function FullRcode(p: Packet, opt: Option<OptRecord>): Result<nat> {
    var header :- ParseHeader(p);
    Ok(if opt.Some? then opt.value.extendedRcode as nat * 16 + header.Rcode() else header.Rcode())
  }

  /** Puts SERVFAIL into the header of a packet. */
  function ServfailRcode(p: Packet): Packet
    requires |p| >= HEADER_LEN
  {
    var flags := U16At(p, 2);
    p[..2] + Be16(flags - flags % 16 + 2) + p[4..]
  }

  /** `response_for_client`: strips the OPT record the client did not ask for. */
  function ResponseForClient(query: Packet, response: Packet): Result<Packet> {
    var _ :- Validate(query, false);
    var _ :- Validate(response, true);
    var queryLayout :- ScanPacket(query);
    if queryLayout.hasTsig || queryLayout.opt.Some? then Ok(response)
    else
      var layout :- ScanPacket(response);
      if layout.opt.None? then Ok(response)
      else
        var rcode :- FullRcode(response, Some(layout.opt.value.opt));
        var output :- RemoveOpt(response, layout.opt.value);
        Ok(if rcode > 15 then ServfailRcode(output) else output)
  }
}
