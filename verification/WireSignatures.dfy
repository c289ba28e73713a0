/** What `root_rrsig_missing` finds, stated over the records of the packet (`src/wire/dnssec.rs`). */
module WireSignatures {
  import opened Bytes
  import opened Wire

  /** `n` records from an offset on, and where they end. */
  function RecordsFrom(p: Packet, offset: nat, n: nat): Result<(seq<Record>, nat)>
    decreases n
  {
    if n == 0 then Ok(([], offset))
    else
      var r :- ParseRecord(p, offset);
      var (rest, end) :- RecordsFrom(p, r.next, n - 1);
      Ok(([r] + rest, end))
  }

  predicate OfRoot(r: Record) {
    r.class_ == CLASS_IN && r.name == [0]
  }

  /** A root record of the answer or authority section that has to be signed. */
  predicate NeedsSignature(r: Record, index: nat, signed: nat) {
    OfRoot(r) && index < signed && r.rrType !in {TYPE_RRSIG, TYPE_OPT, TYPE_TSIG}
  }

  /** A root signature over records of type `t`. */
  predicate Signs(p: Packet, r: Record, t: U16) {
    OfRoot(r) && r.rrType == TYPE_RRSIG && CoveredType(p, r) == Ok(t)
  }

  ghost predicate Needed(rs: seq<Record>, index: nat, signed: nat, t: U16) {
    exists k :: 0 <= k < |rs| && rs[k].rrType == t && NeedsSignature(rs[k], index + k, signed)
  }

  ghost predicate Signed(p: Packet, rs: seq<Record>, t: U16) {
    exists k :: 0 <= k < |rs| && Signs(p, rs[k], t)
  }

  lemma NeededCons(r: Record, rest: seq<Record>, index: nat, signed: nat, t: U16)
    ensures Needed([r] + rest, index, signed, t) <==>
            (r.rrType == t && NeedsSignature(r, index, signed)) || Needed(rest, index + 1, signed, t)
  {
    var rs := [r] + rest;
    if k :| 0 <= k < |rest| && rest[k].rrType == t && NeedsSignature(rest[k], index + 1 + k, signed) {
      assert rs[k + 1] == rest[k];
    }
    if k :| 0 <= k < |rs| && rs[k].rrType == t && NeedsSignature(rs[k], index + k, signed) {
      if k > 0 {
        assert rest[k - 1] == rs[k];
      }
    }
    if r.rrType == t && NeedsSignature(r, index, signed) {
      assert rs[0] == r;
    }
  }

  lemma SignedCons(p: Packet, r: Record, rest: seq<Record>, t: U16)
    ensures Signed(p, [r] + rest, t) <==> Signs(p, r, t) || Signed(p, rest, t)
  {
    hide Signs;
    var rs := [r] + rest;
    if k :| 0 <= k < |rest| && Signs(p, rest[k], t) {
      assert rs[k + 1] == rest[k];
    }
    if k :| 0 <= k < |rs| && Signs(p, rs[k], t) {
      if k > 0 {
        assert rest[k - 1] == rs[k];
      }
    }
    if Signs(p, r, t) {
      assert rs[0] == r;
    }
  }

  /** The two sets the loop collects. */
  lemma {:induction false} RootTypesMean(p: Packet, offset: nat, index: nat, total: nat, signed: nat,
                                         required: set<U16>, covered: set<U16>, t: U16)
    requires index <= total
    requires RootTypes(p, offset, index, total, signed, required, covered).Ok?
    ensures RecordsFrom(p, offset, total - index).Ok?
    ensures var (rs, end) := RecordsFrom(p, offset, total - index).value;
            var found := RootTypes(p, offset, index, total, signed, required, covered).value;
            && found.2 == end
            && (t in found.0 <==> t in required || Needed(rs, index, signed, t))
            && (t in found.1 <==> t in covered || Signed(p, rs, t))
    decreases total - index
  {
    hide ParseRecord, CoveredType, Needed, Signed;
    if index == total {
      NothingFound(p, index, signed, t);
    } else {
      var r := ParseRecord(p, offset).value;
      var required' := if NeedsSignature(r, index, signed) then required + {r.rrType} else required;
      var covered' := if OfRoot(r) && r.rrType == TYPE_RRSIG then covered + {CoveredType(p, r).value} else covered;
      RootTypesMean(p, r.next, index + 1, total, signed, required', covered', t);
      var rest := RecordsFrom(p, r.next, total - index - 1).value.0;
      NeededCons(r, rest, index, signed, t);
      SignedCons(p, r, rest, t);
    }
  }

  lemma NothingFound(p: Packet, index: nat, signed: nat, t: U16)
    ensures !Needed([], index, signed, t) && !Signed(p, [], t)
  {}

  /** Where the scan succeeds, no signature is missing exactly when every type the root needs
      signed in the answer and authority sections is covered by some root signature of the packet. */
  lemma RootSigned(p: Packet)
    requires RootRrsigMissing(p).Ok?
    ensures ParseHeader(p).Ok? && SkipQuestions(p, HEADER_LEN, ParseHeader(p).value.questions).Ok?
    ensures var header := ParseHeader(p).value;
            var records := RecordsFrom(p, SkipQuestions(p, HEADER_LEN, header.questions).value, header.TotalRecords());
            && records.Ok? && records.value.1 == |p|
            && (RootRrsigMissing(p) == Ok(false) <==>
                forall t: U16 :: Needed(records.value.0, 0, header.answers as nat + header.authorities, t) ==>
                  Signed(p, records.value.0, t))
  {
    hide ParseHeader, SkipQuestions, RootTypes, RecordsFrom, Needed, Signed;
    var header := ParseHeader(p).value;
    var offset := SkipQuestions(p, HEADER_LEN, header.questions).value;
    var signed := header.answers as nat + header.authorities;
    var found := RootTypes(p, offset, 0, header.TotalRecords(), signed, {}, {}).value;
    RootTypesMean(p, offset, 0, header.TotalRecords(), signed, {}, {}, 0);
    var rs := RecordsFrom(p, offset, header.TotalRecords()).value.0;
    forall t: U16 ensures (t in found.0 <==> Needed(rs, 0, signed, t)) && (t in found.1 <==> Signed(p, rs, t)) {
      RootTypesMean(p, offset, 0, header.TotalRecords(), signed, {}, {}, t);
    }
  }
}
