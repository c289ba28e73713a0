/** The scanning and encoding loops of `src/edns.rs`, in place. */
module EdnsScan {
  import opened Bytes
  import opened Wire
  import opened EdnsPacket
  import EdnsRoundTrip

  /** `parse_options`. */
  method ReadOptions(rdata: seq<Byte>) returns (r: Result<seq<EdnsOption>>)
    ensures r == ParseOptions(rdata, 0)
  {
    var options: seq<EdnsOption> := [];
    var offset: nat := 0;
    assert ParseOptions(rdata, 0).Ok? ==> options + ParseOptions(rdata, 0).value == ParseOptions(rdata, 0).value;
    while offset < |rdata|
      invariant match ParseOptions(rdata, offset)
                case Ok(rest) => ParseOptions(rdata, 0) == Ok(options + rest)
                case Err(e) => ParseOptions(rdata, 0) == Err(e)
      decreases |rdata| - offset
    {
      if offset + 4 > |rdata| {
        return Err(InvalidRecord);
      }
      var end := offset + 4 + U16At(rdata, offset + 2);
      if end > |rdata| {
        return Err(InvalidRecord);
      }
      var option := EdnsOption(U16At(rdata, offset), rdata[offset + 4..end]);
      if ParseOptions(rdata, end).Ok? {
        Assoc(options, [option], ParseOptions(rdata, end).value);
      }
      options := options + [option];
      offset := end;
    }
    assert options + [] == options;
    r := Ok(options);
  }

  /** `scan_packet`. */
  method Scan(p: Packet) returns (r: Result<Layout>)
    ensures r == ScanPacket(p)
  {
    hide ParseRecord, QuestionEnd, ParseOptions;
    var header := ParseHeader(p);
    if header.Err? {
      return Err(header.error);
    }
    var h := header.value;
    var offset: nat := HEADER_LEN;
    for k := 0 to h.questions
      invariant SkipQuestions(p, offset, h.questions - k) == SkipQuestions(p, HEADER_LEN, h.questions)
    {
      var next := QuestionEnd(p, offset);
      if next.Err? {
        return Err(next.error);
      }
      offset := next.value;
    }
    ghost var first := offset;
    var start := h.answers as nat + h.authorities;
    var total := h.TotalRecords();
    var layout := Layout(None, false);
    for index := 0 to total
      invariant ScanRecords(p, offset, index, total, start, layout) ==
                ScanRecords(p, first, 0, total, start, Layout(None, false))
    {
      var record := ParseRecord(p, offset);
      if record.Err? {
        return Err(record.error);
      }
      if record.value.rrType == TYPE_OPT {
        if index < start || record.value.name != [0] || layout.opt.Some? {
          return Err(InvalidRecord);
        }
        var options := ReadOptions(record.value.rdata);
        if options.Err? {
          return Err(options.error);
        }
        var ttl := record.value.ttl;
        var opt := OptRecord(record.value.class_, ttl / 0x100_0000, ttl / 0x1_0000 % 0x100, ttl % 0x1_0000,
            options.value);
        layout := layout.(opt := Some(OptSpan(offset, record.value.next, opt)));
      } else if record.value.rrType == TYPE_TSIG {
        layout := layout.(hasTsig := true);
      }
      offset := record.value.next;
    }
    if offset != |p| {
      return Err(TrailingData);
    }
    r := Ok(layout);
  }

  /** `encode_opt`: the record it builds reads back as what was asked for. */
  method BuildOpt(opt: OptRecord) returns (r: Result<seq<Byte>>)
    ensures r == EncodeOpt(opt)
    ensures r.Ok? ==> ParseRecord(r.value, 0).Ok? && OptOf(ParseRecord(r.value, 0).value) == Ok(opt)
  {
    hide ParseRecord, OptOf;
    var rdata: seq<Byte> := [];
    assert opt.options[0..] == opt.options;
    assert EncodeOptions(opt.options).Ok? ==>
        rdata + EncodeOptions(opt.options).value == EncodeOptions(opt.options).value;
    for k := 0 to |opt.options|
      invariant match EncodeOptions(opt.options[k..])
                case Ok(rest) => EncodeOptions(opt.options) == Ok(rdata + rest)
                case Err(e) => EncodeOptions(opt.options) == Err(e)
    {
      var option := opt.options[k];
      assert opt.options[k..][1..] == opt.options[k + 1..];
      if |option.data| >= 0x1_0000 {
        return Err(ResponseTooLarge);
      }
      var bytes := Be16(option.code) + Be16(|option.data|) + option.data;
      if EncodeOptions(opt.options[k + 1..]).Ok? {
        Assoc(rdata, bytes, EncodeOptions(opt.options[k + 1..]).value);
      }
      rdata := rdata + bytes;
    }
    assert rdata + [] == rdata;
    if |rdata| >= 0x1_0000 {
      return Err(ResponseTooLarge);
    }
    var record: seq<Byte> := [0];
    record := record + Be16(TYPE_OPT);
    record := record + Be16(opt.payloadSize);
    record := record + [opt.extendedRcode, opt.version];
    record := record + Be16(opt.flags);
    record := record + Be16(|rdata|);
    record := record + rdata;
    assert record[0..] == record;
    EdnsRoundTrip.EncodedOptReads(record, 0, opt);
    r := Ok(record);
  }
}
