/** Taking the OPT record out of a packet, wherever it stands among the additional records: which
    questions and records are left (`src/edns.rs`). */
module EdnsStrip {
  import opened Bytes
  import opened Wire
  import opened WireSignatures
  import opened EdnsPacket
  import opened EdnsCut

  /** Two readings of one record: same type, class, TTL and RDATA octets, moved to the front. */
  ghost predicate SameFields(r: Record, r': Record, shift: nat) {
    && r'.rrType == r.rrType && r'.class_ == r.class_ && r'.ttl == r.ttl && r'.rdata == r.rdata
    && r'.rdataOffset == r.rdataOffset - shift && r'.next == r.next - shift
  }

  predicate OneSide(s: Span, i: nat, j: nat) {
    j <= s.start || s.end <= i
  }

  /** Octets behind the header, on one side of the span. */
  lemma SideMoves(p: Packet, o: Packet, s: Span, i: nat, j: nat)
    requires CutOut(p, o, s) && HEADER_LEN <= i < j <= |p| && OneSide(s, i, j)
    ensures 0 <= i - Shift(s, i) && j - Shift(s, i) <= |o| && o[i - Shift(s, i)..j - Shift(s, i)] == p[i..j]
  {
    hide CutOut, Untouched;
    BehindHeader(p, o, s, i, j);
    FirstRound(p, o, s, i, j);
  }

  lemma FieldsMove(p: Packet, o: Packet, s: Span, i: nat)
    requires CutOut(p, o, s) && HEADER_LEN <= i && i + 10 <= |p| && OneSide(s, i, i + 10)
    ensures var i' := i - Shift(s, i);
            && 0 <= i' && i' + 10 <= |o|
            && U16At(o, i') == U16At(p, i) && U16At(o, i' + 2) == U16At(p, i + 2) && U32At(o, i' + 4) == U32At(p, i + 4)
            && U16At(o, i' + 8) == U16At(p, i + 8)
  {
    hide CutOut;
    SideMoves(p, o, s, i, i + 10);
    var i' := i - Shift(s, i);
    var a, b := o[i'..i' + 10], p[i..i + 10];
    assert a == b;
    assert a[0] == o[i'] && a[1] == o[i' + 1] && a[2] == o[i' + 2] && a[3] == o[i' + 3] && a[4] == o[i' + 4];
    assert a[5] == o[i' + 5] && a[6] == o[i' + 6] && a[7] == o[i' + 7] && a[8] == o[i' + 8] && a[9] == o[i' + 9];
    assert b[0] == p[i] && b[1] == p[i + 1] && b[2] == p[i + 2] && b[3] == p[i + 3] && b[4] == p[i + 4];
    assert b[5] == p[i + 5] && b[6] == p[i + 6] && b[7] == p[i + 7] && b[8] == p[i + 8] && b[9] == p[i + 9];
  }

  /** A record on one side of the span reads there again exactly when its owner does, with the same
      fields. */
  lemma RecordMoves(p: Packet, o: Packet, s: Span, i: nat)
    requires CutOut(p, o, s) && i >= HEADER_LEN && ParseRecord(p, i).Ok? && OneSide(s, i, ParseRecord(p, i).value.next)
    ensures var i' := i - Shift(s, i);
            && i < ParseRecord(p, i).value.next <= |p|
            && (ReadName(o, i').Ok? <==> ParseRecord(o, i').Ok?)
            && (ReadName(o, i').Ok? ==>
                  && SameFields(ParseRecord(p, i).value, ParseRecord(o, i').value, Shift(s, i))
                  && ParseRecord(o, i').value.name == ReadName(o, i').value.wire)
  {
    hide CutOut, NameFrom, U16At, U32At, SameFields, ParseRecord;
    var i' := i - Shift(s, i);
    RecordForward(p, i);
    if ReadName(o, i').Ok? {
      ReadRecordMoves(p, o, s, i);
    } else {
      UnreadRecord(o, i');
    }
  }

  lemma ReadRecordMoves(p: Packet, o: Packet, s: Span, i: nat)
    requires CutOut(p, o, s) && i >= HEADER_LEN && ParseRecord(p, i).Ok? && OneSide(s, i, ParseRecord(p, i).value.next)
    requires ReadName(o, i - Shift(s, i)).Ok?
    ensures ParseRecord(o, i - Shift(s, i)).Ok?
    ensures SameFields(ParseRecord(p, i).value, ParseRecord(o, i - Shift(s, i)).value, Shift(s, i))
    ensures ParseRecord(o, i - Shift(s, i)).value.name == ReadName(o, i - Shift(s, i)).value.wire
  {
    hide CutOut, NameFrom, U16At, U32At;
    var r, name := ParseRecord(p, i).value, ReadName(p, i).value;
    NextBounds(p, i, []);
    NextMoves(p, o, s, i, []);
    FieldsMove(p, o, s, name.next);
    assert Shift(s, name.next) == Shift(s, i);
    if r.rdata != [] {
      SideMoves(p, o, s, r.rdataOffset, r.next);
      assert Shift(s, r.rdataOffset) == Shift(s, i);
    }
    CutSize(p, o, s, r.next);
  }

  lemma CutSize(p: Packet, o: Packet, s: Span, j: nat)
    requires CutOut(p, o, s) && j <= |p| && (j <= s.start || s.end <= j)
    ensures j - Shift(s, j) <= |o| && (j <= s.start ==> j <= |o|)
  {}

  lemma QuestionMoves(p: Packet, o: Packet, s: Span, i: nat)
    requires CutOut(p, o, s) && i >= HEADER_LEN && QuestionEnd(p, i).Ok? && QuestionEnd(p, i).value <= s.start
    ensures i < QuestionEnd(p, i).value <= |p|
    ensures ReadName(o, i).Ok? <==> QuestionEnd(o, i).Ok?
    ensures ReadName(o, i).Ok? ==> QuestionEnd(o, i) == QuestionEnd(p, i)
  {
    hide CutOut, NameFrom;
    NextBounds(p, i, []);
    CutSize(p, o, s, QuestionEnd(p, i).value);
    if ReadName(o, i).Ok? {
      NextMoves(p, o, s, i, []);
    }
  }

  // Runs of questions and records.

  /** The names of `n` questions from `i` on read in `o` too. */
  ghost predicate QuestionsRead(p: Packet, o: Packet, i: nat, n: nat)
    decreases n
  {
    n > 0 ==> ReadName(o, i).Ok? && QuestionEnd(p, i).Ok? && QuestionsRead(p, o, QuestionEnd(p, i).value, n - 1)
  }

  /** The owners of `n` records from `i` on read in `o` too, `shift` octets to the front. */
  ghost predicate OwnersRead(p: Packet, o: Packet, i: nat, n: nat, shift: nat)
    decreases n
  {
    n > 0 ==>
      && shift <= i && ReadName(o, i - shift).Ok? && ParseRecord(p, i).Ok?
      && OwnersRead(p, o, ParseRecord(p, i).value.next, n - 1, shift)
  }

  ghost predicate QuestionsSteady(p: Packet, o: Packet, s: Span, i: nat, n: nat)
    decreases n
  {
    n > 0 && QuestionEnd(p, i).Ok? ==> Steady(p, o, s, i, 0) && QuestionsSteady(p, o, s, QuestionEnd(p, i).value, n - 1)
  }

  ghost predicate OwnersSteady(p: Packet, o: Packet, s: Span, i: nat, n: nat)
    decreases n
  {
    n > 0 && ParseRecord(p, i).Ok? ==>
      Steady(p, o, s, i, 0) && OwnersSteady(p, o, s, ParseRecord(p, i).value.next, n - 1)
  }

  lemma {:induction false} SkipForward(p: Packet, i: nat, n: nat)
    requires SkipQuestions(p, i, n).Ok?
    ensures i <= SkipQuestions(p, i, n).value
    decreases n
  {
    hide QuestionEnd;
    if n > 0 {
      QuestionForward(p, i);
      SkipForward(p, QuestionEnd(p, i).value, n - 1);
    }
  }

  lemma {:induction false} RecordsForward(p: Packet, i: nat, n: nat)
    requires RecordsFrom(p, i, n).Ok?
    ensures i <= RecordsFrom(p, i, n).value.1 && |RecordsFrom(p, i, n).value.0| == n
    decreases n
  {
    hide ParseRecord;
    if n > 0 {
      RecordForward(p, i);
      RecordsForward(p, ParseRecord(p, i).value.next, n - 1);
    }
  }

  lemma {:induction false} QuestionsMove(p: Packet, o: Packet, s: Span, i: nat, n: nat)
    requires CutOut(p, o, s) && i >= HEADER_LEN && SkipQuestions(p, i, n).Ok? && SkipQuestions(p, i, n).value <= s.start
    ensures i <= SkipQuestions(p, i, n).value
    ensures QuestionsRead(p, o, i, n) <==> SkipQuestions(o, i, n).Ok?
    ensures QuestionsRead(p, o, i, n) ==> SkipQuestions(o, i, n) == SkipQuestions(p, i, n)
    ensures QuestionsSteady(p, o, s, i, n) ==> QuestionsRead(p, o, i, n)
    decreases n
  {
    hide CutOut, QuestionEnd, Steady, ReadName;
    if n > 0 {
      var next := QuestionEnd(p, i).value;
      SkipForward(p, next, n - 1);
      QuestionMoves(p, o, s, i);
      QuestionsMove(p, o, s, next, n - 1);
      QuestionForward(p, i);
      if Steady(p, o, s, i, 0) {
        SteadyName(p, o, s, i);
      }
    }
  }

  lemma SteadyName(p: Packet, o: Packet, s: Span, i: nat)
    requires CutOut(p, o, s) && Outside(s, i) && ReadName(p, i).Ok? && Steady(p, o, s, i, 0)
    ensures ReadName(o, i - Shift(s, i)).Ok?
    ensures ReadName(o, i - Shift(s, i)).value.wire == ReadName(p, i).value.wire
  {
    SteadyReads(p, o, s, i, None, None, 0, []);
  }

  /** Two readings of a run of records. */
  ghost predicate SameRecords(rs: seq<Record>, rs': seq<Record>, shift: nat) {
    |rs'| == |rs| && forall k :: 0 <= k < |rs| ==> SameFields(rs[k], rs'[k], shift)
  }

  ghost predicate SameOwners(rs: seq<Record>, rs': seq<Record>) {
    |rs'| == |rs| && forall k :: 0 <= k < |rs| ==> rs'[k].name == rs[k].name
  }

  lemma {:induction false} RecordsMove(p: Packet, o: Packet, s: Span, i: nat, n: nat)
    requires CutOut(p, o, s) && i >= HEADER_LEN && RecordsFrom(p, i, n).Ok?
    requires OneSide(s, i, RecordsFrom(p, i, n).value.1)
    ensures var shift := Shift(s, i);
            var moved := RecordsFrom(o, i - shift, n);
            && (OwnersRead(p, o, i, n, shift) <==> moved.Ok?)
            && (moved.Ok? ==>
                  && moved.value.1 == RecordsFrom(p, i, n).value.1 - shift
                  && SameRecords(RecordsFrom(p, i, n).value.0, moved.value.0, shift))
    decreases n
  {
    hide CutOut, ParseRecord, ReadName, SameFields;
    if n > 0 {
      var next := ParseRecord(p, i).value.next;
      RecordsForward(p, next, n - 1);
      RecordMoves(p, o, s, i);
      RecordsMove(p, o, s, next, n - 1);
      assert Shift(s, next) == Shift(s, i) || n == 1;
      FieldsEnd(p, o, i, i - Shift(s, i), Shift(s, i));
    }
  }

  lemma FieldsEnd(p: Packet, o: Packet, i: nat, i': nat, shift: nat)
    ensures ParseRecord(p, i).Ok? && ParseRecord(o, i').Ok? &&
            SameFields(ParseRecord(p, i).value, ParseRecord(o, i').value, shift) ==>
              ParseRecord(o, i').value.next == ParseRecord(p, i).value.next - shift
  {}

  /** Steady owners are the owners they were. */
  lemma {:induction false} SteadyOwners(p: Packet, o: Packet, s: Span, i: nat, n: nat)
    requires CutOut(p, o, s) && i >= HEADER_LEN && RecordsFrom(p, i, n).Ok?
    requires OneSide(s, i, RecordsFrom(p, i, n).value.1) && OwnersSteady(p, o, s, i, n)
    ensures OwnersRead(p, o, i, n, Shift(s, i)) && RecordsFrom(o, i - Shift(s, i), n).Ok?
    ensures SameOwners(RecordsFrom(p, i, n).value.0, RecordsFrom(o, i - Shift(s, i), n).value.0)
    decreases n
  {
    hide CutOut, ParseRecord, ReadName, SameFields, Steady;
    RecordsMove(p, o, s, i, n);
    if n > 0 {
      var next := ParseRecord(p, i).value.next;
      RecordForward(p, i);
      RecordsForward(p, next, n - 1);
      SteadyName(p, o, s, i);
      RecordMoves(p, o, s, i);
      SteadyOwners(p, o, s, next, n - 1);
      FieldsEnd(p, o, i, i - Shift(s, i), Shift(s, i));
    }
  }

  /** Every owner of a run of records is read from the same octets as before. */
  ghost predicate OwnersSame(p: Packet, o: Packet, s: Span, i: nat, n: nat)
    decreases n
  {
    n > 0 && ParseRecord(p, i).Ok? ==>
      Outside(s, i) && SameReading(p, o, s, i, 0) && OwnersSame(p, o, s, ParseRecord(p, i).value.next, n - 1)
  }

  ghost predicate QuestionsSame(p: Packet, o: Packet, s: Span, i: nat, n: nat)
    decreases n
  {
    n > 0 && QuestionEnd(p, i).Ok? ==>
      Outside(s, i) && SameReading(p, o, s, i, 0) && QuestionsSame(p, o, s, QuestionEnd(p, i).value, n - 1)
  }

  lemma NameSameIff(p: Packet, o: Packet, s: Span, i: nat)
    requires CutOut(p, o, s) && ReadName(p, i).Ok? && Outside(s, i)
    ensures SameReading(p, o, s, i, 0) <==> Steady(p, o, s, i, 0)
  {
    hide CutOut, NameFrom, Steady;
    ReadingIff(p, o, s, i, None, 0, []);
  }

  lemma {:induction false} OwnersSameIff(p: Packet, o: Packet, s: Span, i: nat, n: nat)
    requires CutOut(p, o, s) && i >= HEADER_LEN && RecordsFrom(p, i, n).Ok?
    requires OneSide(s, i, RecordsFrom(p, i, n).value.1)
    ensures OwnersSame(p, o, s, i, n) <==> OwnersSteady(p, o, s, i, n)
    decreases n
  {
    hide CutOut, ParseRecord, ReadName, SameReading, Steady;
    if n > 0 {
      RecordForward(p, i);
      RecordsForward(p, ParseRecord(p, i).value.next, n - 1);
      NameSameIff(p, o, s, i);
      OwnersSameIff(p, o, s, ParseRecord(p, i).value.next, n - 1);
    }
  }

  lemma {:induction false} QuestionsSameIff(p: Packet, o: Packet, s: Span, i: nat, n: nat)
    requires CutOut(p, o, s) && i >= HEADER_LEN && SkipQuestions(p, i, n).Ok? && SkipQuestions(p, i, n).value <= s.start
    ensures QuestionsSame(p, o, s, i, n) <==> QuestionsSteady(p, o, s, i, n)
    decreases n
  {
    hide CutOut, QuestionEnd, ReadName, SameReading, Steady;
    if n > 0 {
      QuestionForward(p, i);
      SkipForward(p, QuestionEnd(p, i).value, n - 1);
      NameSameIff(p, o, s, i);
      QuestionsSameIff(p, o, s, QuestionEnd(p, i).value, n - 1);
    }
  }

  // Where the scan finds the OPT record.

  lemma {:induction false} RecordsJoin(p: Packet, i: nat, a: nat, b: nat)
    requires RecordsFrom(p, i, a).Ok? && RecordsFrom(p, RecordsFrom(p, i, a).value.1, b).Ok?
    ensures RecordsFrom(p, i, a + b) ==
            Ok((RecordsFrom(p, i, a).value.0 + RecordsFrom(p, RecordsFrom(p, i, a).value.1, b).value.0,
                RecordsFrom(p, RecordsFrom(p, i, a).value.1, b).value.1))
    decreases a
  {
    hide ParseRecord;
    if a == 0 {
      var none: seq<Record> := [];
      assert none + RecordsFrom(p, i, b).value.0 == RecordsFrom(p, i, b).value.0;
    } else {
      var r := ParseRecord(p, i).value;
      RecordsJoin(p, r.next, a - 1, b);
      Assoc([r], RecordsFrom(p, r.next, a - 1).value.0,
            RecordsFrom(p, RecordsFrom(p, r.next, a - 1).value.1, b).value.0);
    }
  }

  /** A found layout entry is kept as it is. */
  lemma {:induction false} OptFoundStays(p: Packet, i: nat, index: nat, total: nat, start: nat, layout: Layout)
    requires index <= total && layout.opt.Some? && ScanRecords(p, i, index, total, start, layout).Ok?
    ensures ScanRecords(p, i, index, total, start, layout).value.0.opt == layout.opt
    ensures RecordsFrom(p, i, total - index).Ok?
    ensures RecordsFrom(p, i, total - index).value.1 == ScanRecords(p, i, index, total, start, layout).value.1
    ensures forall r :: r in RecordsFrom(p, i, total - index).value.0 ==> r.rrType != TYPE_OPT
    decreases total - index
  {
    hide ParseRecord, OptOf;
    if index < total {
      var r := ParseRecord(p, i).value;
      OptFoundStays(p, r.next, index + 1, total, start, if r.rrType ==
          TYPE_TSIG then layout.(hasTsig := true) else layout);
    }
  }

  /** `k` records, none of them an OPT record, stand before the OPT record the scan finds. */
  lemma {:induction false} OptFound(p: Packet, i: nat, index: nat, total: nat, start: nat,
                                    layout: Layout) returns (k: nat)
    requires index <= total && layout.opt.None? && ScanRecords(p, i, index, total, start, layout).Ok?
    requires ScanRecords(p, i, index, total, start, layout).value.0.opt.Some?
    ensures var (found, end) := ScanRecords(p, i, index, total, start, layout).value;
            var span := found.opt.value;
            && index <= k < total && start <= k
            && RecordsFrom(p, i, k - index).Ok? && RecordsFrom(p, i, k - index).value.1 == span.start
            && ParseRecord(p, span.start).Ok? && ParseRecord(p, span.start).value.next == span.end
            && ParseRecord(p, span.start).value.rrType == TYPE_OPT && OptOf(ParseRecord(p, span.start).value) ==
                Ok(span.opt)
            && RecordsFrom(p, span.end, total - k - 1).Ok? && RecordsFrom(p, span.end, total - k - 1).value.1 == end
            && (forall r :: r in RecordsFrom(p, i, k - index).value.0 ==> r.rrType != TYPE_OPT)
            && (forall r :: r in RecordsFrom(p, span.end, total - k - 1).value.0 ==> r.rrType != TYPE_OPT)
    decreases total - index
  {
    hide ParseRecord, OptOf;
    var r := ParseRecord(p, i).value;
    if r.rrType == TYPE_OPT {
      k := index;
      OptFoundStays(p, r.next, index + 1, total, start, layout.(opt := Some(OptSpan(i, r.next, OptOf(r).value))));
    } else {
      k := OptFound(p, r.next, index + 1, total, start, if r.rrType ==
          TYPE_TSIG then layout.(hasTsig := true) else layout);
    }
  }
}
