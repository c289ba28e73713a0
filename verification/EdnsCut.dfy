/** Names in a packet some octets are cut out of: what taking an OPT record from the middle of a
    packet does to the names around it (`src/edns.rs`, `src/wire/codec.rs`). */
module EdnsCut {
  import opened Bytes
  import opened Wire

  /** The octets from `start` up to `end` are cut out. */
  datatype Span_ = Span(start: nat, end: nat)
  type Span = s: Span_ | HEADER_LEN <= s.start < s.end witness Span(HEADER_LEN, HEADER_LEN + 1)

  /** `o` is `p` without the span, and with another header. */
  ghost predicate CutOut(p: Packet, o: Packet, s: Span) {
    && s.end <= |p| && |o| == |p| - (s.end - s.start)
    && (forall j :: HEADER_LEN <= j < s.start ==> o[j] == p[j])
    && (forall j :: s.start <= j < |o| ==> o[j] == p[j + (s.end - s.start)])
  }

  /** Where an octet goes; those cut out go nowhere. */
  function Image(s: Span, j: nat): int {
    if j < s.start then j else if j < s.end then -1 else j - (s.end - s.start)
  }

  /** How far a place outside the span moves to the front. */
  function Shift(s: Span, j: nat): nat {
    if j < s.end then 0 else s.end - s.start
  }

  predicate Outside(s: Span, j: nat) {
    j < s.start || s.end <= j
  }

  /** Octets read in one go: a label with its length, a pointer, or the root. */
  datatype Piece = Piece(first: int, last: int, octets: seq<Byte>)

  /** Everything reading a name looks at, in order. */
  function Pieces(p: Packet, cursor: nat, pointers: nat): seq<Piece>
    requires pointers <= MAX_JUMPS
    decreases MAX_JUMPS - pointers, |p| - cursor
  {
    if cursor >= |p| then []
    else if p[cursor] == 0 then [Piece(cursor, cursor, [0])]
    else if p[cursor] >= 0xC0 then
      if cursor + 1 >= |p| || Target(p, cursor) >= cursor || pointers == MAX_JUMPS then []
      else [Piece(cursor, cursor + 1, p[cursor..cursor + 2])] + Pieces(p, Target(p, cursor), pointers + 1)
    else if p[cursor] >= 0x40 || cursor + 1 + p[cursor] > |p| then []
    else
      var end := cursor + 1 + p[cursor];
      [Piece(cursor, end - 1, p[cursor..end])] + Pieces(p, end, pointers)
  }

  function Moved(s: Span, pieces: seq<Piece>): (r: seq<Piece>)
    requires forall i :: 0 <= i < |pieces| ==> pieces[i].first >= 0 && pieces[i].last >= 0
    ensures |r| == |pieces|
  {
    seq(|pieces|, i requires 0 <= i < |pieces| =>
      Piece(Image(s, pieces[i].first), Image(s, pieces[i].last), pieces[i].octets))
  }

  lemma {:induction false} PiecesPlaced(p: Packet, cursor: nat, pointers: nat)
    requires pointers <= MAX_JUMPS
    ensures forall i :: 0 <= i < |Pieces(p, cursor, pointers)| ==>
              Pieces(p, cursor, pointers)[i].first >= 0 && Pieces(p, cursor, pointers)[i].last >= 0
    decreases MAX_JUMPS - pointers, |p| - cursor
  {
    if cursor < |p| && p[cursor] > 0 {
      if p[cursor] >= 0xC0 {
        if cursor + 1 < |p| && Target(p, cursor) < cursor && pointers < MAX_JUMPS {
          PiecesPlaced(p, Target(p, cursor), pointers + 1);
        }
      } else if p[cursor] < 0x40 && cursor + 1 + p[cursor] <= |p| {
        PiecesPlaced(p, cursor + 1 + p[cursor], pointers);
      }
    }
  }

  ghost function MovedPieces(p: Packet, s: Span, cursor: nat, pointers: nat): seq<Piece>
    requires pointers <= MAX_JUMPS
  {
    PiecesPlaced(p, cursor, pointers);
    Moved(s, Pieces(p, cursor, pointers))
  }

  /** The octets from `i` up to `j` lie on one side of the span, and none of them is a header octet
      that changes. */
  predicate Untouched(p: Packet, o: Packet, s: Span, i: nat, j: nat) {
    && (j <= s.start || s.end <= i)
    && (forall k :: i <= k < j && k < HEADER_LEN && k < |p| && k < |o| ==> o[k] == p[k])
  }

  /** The name read from `cursor` in `p` looks at no octet that is cut out or changes, and follows no
      pointer to the span or behind it. */
  predicate Steady(p: Packet, o: Packet, s: Span, cursor: nat, pointers: nat)
    requires pointers <= MAX_JUMPS
    decreases MAX_JUMPS - pointers, |p| - cursor
  {
    if cursor >= |p| then true
    else if p[cursor] == 0 then Untouched(p, o, s, cursor, cursor + 1)
    else if p[cursor] >= 0xC0 then
      cursor + 1 < |p| && Target(p, cursor) < cursor && pointers < MAX_JUMPS ==>
        && Untouched(p, o, s, cursor, cursor + 2)
        && Target(p, cursor) < s.start
        && Steady(p, o, s, Target(p, cursor), pointers + 1)
    else if p[cursor] >= 0x40 || cursor + 1 + p[cursor] > |p| then true
    else
      Untouched(p, o, s, cursor, cursor + 1 + p[cursor]) && Steady(p, o, s, cursor + 1 + p[cursor], pointers)
  }

  /** The octets from `i` up to `j` reappear together where `i` moves to. */
  ghost predicate Reappear(p: Packet, o: Packet, s: Span, i: nat, j: nat)
    requires i < j <= |p|
  {
    var i' := i - Shift(s, i);
    && 0 <= i' && i' + (j - i) <= |o|
    && o[i'..i' + (j - i)] == p[i..j]
    && Image(s, i) == i' && Image(s, j - 1) == i' + (j - i) - 1
  }

  lemma OctetMoves(p: Packet, o: Packet, s: Span, i: nat, j: nat, k: nat)
    requires CutOut(p, o, s) && i <= k < j <= |p| && Outside(s, i) && Untouched(p, o, s, i, j)
    ensures j <= s.start || s.end <= i
    ensures 0 <= k - Shift(s, i) < |o| && o[k - Shift(s, i)] == p[k]
  {}

  lemma UntouchedReappear(p: Packet, o: Packet, s: Span, i: nat, j: nat)
    requires CutOut(p, o, s) && i < j <= |p| && Outside(s, i) && Untouched(p, o, s, i, j)
    ensures Reappear(p, o, s, i, j)
  {
    hide CutOut, Untouched;
    OctetMoves(p, o, s, i, j, i);
    OctetMoves(p, o, s, i, j, j - 1);
    var i' := i - Shift(s, i);
    forall k | 0 <= k < j - i ensures o[i'..i' + (j - i)][k] == p[i..j][k] {
      OctetMoves(p, o, s, i, j, i + k);
    }
  }

  /** Octets on one side of the span move together, but for header octets that change. */
  lemma SliceMoves(p: Packet, o: Packet, s: Span, i: nat, j: nat)
    requires CutOut(p, o, s) && i < j <= |p| && Outside(s, i)
    ensures Reappear(p, o, s, i, j) <==> Untouched(p, o, s, i, j)
  {
    hide CutOut;
    var i' := i - Shift(s, i);
    if Untouched(p, o, s, i, j) {
      UntouchedReappear(p, o, s, i, j);
    } else if j <= s.start || s.end <= i {
      var k :| i <= k < j && k < HEADER_LEN && k < |p| && k < |o| && o[k] != p[k];
      if i' + (j - i) <= |o| {
        assert o[i'..i' + (j - i)][k - i] == o[k] && p[i..j][k - i] == p[k];
      }
    }
  }

  /** What an accepted name is read from starts where it starts. */
  lemma FirstPiece(p: Packet, cursor: nat, next: Option<nat>, pointers: nat, wire: seq<Byte>)
    requires pointers <= MAX_JUMPS && NameFrom(p, cursor, next, pointers, wire).Ok?
    ensures |Pieces(p, cursor, pointers)| > 0 && Pieces(p, cursor, pointers)[0].first == cursor
  {}

  /** A name is read from the same octets in `p` and, moved, in `o`. */
  ghost predicate SameReading(p: Packet, o: Packet, s: Span, cursor: nat, pointers: nat)
    requires pointers <= MAX_JUMPS && Outside(s, cursor)
  {
    MovedPieces(p, s, cursor, pointers) == Pieces(o, cursor - Shift(s, cursor), pointers)
  }

  lemma MovedCons(s: Span, first: Piece, rest: seq<Piece>)
    requires first.first >= 0 && first.last >= 0
    requires forall i :: 0 <= i < |rest| ==> rest[i].first >= 0 && rest[i].last >= 0
    ensures Moved(s, [first] + rest) ==
            [Piece(Image(s, first.first), Image(s, first.last), first.octets)] + Moved(s, rest)
  {}

  lemma PieceStarts(p: Packet, cursor: nat, pointers: nat)
    requires pointers <= MAX_JUMPS
    ensures Pieces(p, cursor, pointers) != [] ==>
              var first := Pieces(p, cursor, pointers)[0];
              && first.first == cursor && 0 < |first.octets| && first.last == cursor + |first.octets| - 1 < |p|
              && first.octets == p[cursor..cursor + |first.octets|]
  {}

  /** A name that starts in the span is not steady. */
  lemma InsideUnsteady(p: Packet, o: Packet, s: Span, cursor: nat, next: Option<nat>, pointers: nat, wire: seq<Byte>)
    requires pointers <= MAX_JUMPS && NameFrom(p, cursor, next, pointers, wire).Ok? && !Outside(s, cursor)
    ensures !Steady(p, o, s, cursor, pointers)
  {}

  /** The pieces of a name behind its first one. */
  ghost predicate RestAgrees(p: Packet, o: Packet, s: Span, cursor: nat, cursor': nat, pointers: nat)
    requires pointers <= MAX_JUMPS
  {
    MovedPieces(p, s, cursor, pointers) == Pieces(o, cursor', pointers)
  }

  /** The rest of a name agrees only where its next octet is found again. */
  lemma RestPlaced(p: Packet, o: Packet, s: Span, cursor: nat, cursor': nat, next: Option<nat>, pointers: nat,
                   wire: seq<Byte>)
    requires pointers <= MAX_JUMPS && NameFrom(p, cursor, next, pointers, wire).Ok?
    requires RestAgrees(p, o, s, cursor, cursor', pointers)
    ensures Outside(s, cursor) && cursor' == cursor - Shift(s, cursor)
  {
    FirstPiece(p, cursor, next, pointers, wire);
    PiecesPlaced(p, cursor, pointers);
    PieceStarts(o, cursor', pointers);
    assert MovedPieces(p, s, cursor, pointers)[0].first == Image(s, cursor);
  }

  /** One piece and the rest: the whole agrees exactly when both do. */
  lemma PieceAndRest(p: Packet, o: Packet, s: Span, i: nat, j: nat, rest: seq<Piece>, whole: seq<Piece>, i': nat)
    requires CutOut(p, o, s) && i < j <= |p| && Outside(s, i) && i' == i - Shift(s, i)
    requires forall k :: 0 <= k < |rest| ==> rest[k].first >= 0 && rest[k].last >= 0
    requires whole != [] ==>
               && whole[0].first == i' && 0 < |whole[0].octets| && whole[0].last == i' + |whole[0].octets| - 1 < |o|
               && whole[0].octets == o[i'..i' + |whole[0].octets|]
    ensures Moved(s, [Piece(i, j - 1, p[i..j])] + rest) == whole <==>
            whole != [] && Untouched(p, o, s, i, j) && whole[0].octets == p[i..j] && whole[1..] == Moved(s, rest)
  {
    hide Untouched;
    MovedCons(s, Piece(i, j - 1, p[i..j]), rest);
    SliceMoves(p, o, s, i, j);
    var moved := Moved(s, [Piece(i, j - 1, p[i..j])] + rest);
    if moved == whole {
      assert whole[0] == Piece(Image(s, i), Image(s, j - 1), p[i..j]);
      assert whole[1..] == Moved(s, rest);
    }
    if whole != [] && Untouched(p, o, s, i, j) && whole[0].octets == p[i..j] && whole[1..] == Moved(s, rest) {
      assert whole == [whole[0]] + whole[1..];
    }
  }

  /** Octets that reappear let a round of reading go the same way. */
  lemma FirstRound(p: Packet, o: Packet, s: Span, i: nat, j: nat)
    requires CutOut(p, o, s) && i < j <= |p| && Outside(s, i) && Untouched(p, o, s, i, j)
    ensures var i' := i - Shift(s, i);
            && 0 <= i' && i' + (j - i) <= |o| && o[i'..i' + (j - i)] == p[i..j]
            && o[i'] == p[i] && (i + 1 < j ==> o[i' + 1] == p[i + 1])
  {
    hide Untouched, CutOut;
    SliceMoves(p, o, s, i, j);
    var i' := i - Shift(s, i);
    assert o[i'] == o[i'..i' + (j - i)][0] == p[i..j][0];
    if i + 1 < j {
      assert o[i' + 1] == o[i'..i' + (j - i)][1] == p[i..j][1];
    }
  }

  // One round of each walk.

  lemma PointerRound(p: Packet, cursor: nat, pointers: nat)
    requires pointers < MAX_JUMPS && cursor + 1 < |p| && p[cursor] >= 0xC0 && Target(p, cursor) < cursor
    ensures Pieces(p, cursor, pointers) ==
            [Piece(cursor, cursor + 1, p[cursor..cursor + 2])] + Pieces(p, Target(p, cursor), pointers + 1)
  {}

  lemma LabelRound(p: Packet, cursor: nat, pointers: nat)
    requires pointers <= MAX_JUMPS && cursor < |p| && 0 < p[cursor] < 0x40 && cursor + 1 + p[cursor] <= |p|
    ensures var end := cursor + 1 + p[cursor];
            Pieces(p, cursor, pointers) == [Piece(cursor, end - 1, p[cursor..end])] + Pieces(p, end, pointers)
  {}

  lemma SteadyRound(p: Packet, o: Packet, s: Span, cursor: nat, pointers: nat)
    requires pointers <= MAX_JUMPS && cursor < |p| && p[cursor] > 0
    ensures p[cursor] >= 0xC0 && cursor + 1 < |p| && Target(p, cursor) < cursor && pointers < MAX_JUMPS ==>
              (Steady(p, o, s, cursor, pointers) <==>
               && Untouched(p, o, s, cursor, cursor + 2) && Target(p, cursor) < s.start
               && Steady(p, o, s, Target(p, cursor), pointers + 1))
    ensures p[cursor] < 0x40 && cursor + 1 + p[cursor] <= |p| ==>
              (Steady(p, o, s, cursor, pointers) <==>
               && Untouched(p, o, s, cursor, cursor + 1 + p[cursor])
               && Steady(p, o, s, cursor + 1 + p[cursor], pointers))
  {
    hide Untouched;
  }

  lemma RootReads(p: Packet, i: nat, next: Option<nat>, pointers: nat)
    requires pointers <= MAX_JUMPS && i < |p| && p[i] == 0
    ensures NameFrom(p, i, next, pointers, []) == Ok(NameAt([0], if next.Some? then next.value else i + 1))
  {
    hide NameFrom;
    NameStep(p, i, next, pointers, []);
    var none: seq<Byte> := [];
    assert none + [0] == [0];
  }

  lemma RootIff(p: Packet, o: Packet, s: Span, cursor: nat, pointers: nat)
    requires CutOut(p, o, s) && pointers <= MAX_JUMPS && cursor < |p| && Outside(s, cursor) && p[cursor] == 0
    ensures RestAgrees(p, o, s, cursor, cursor - Shift(s, cursor), pointers) <==> Steady(p, o, s, cursor, pointers)
  {
    hide Untouched, CutOut;
    var cursor' := cursor - Shift(s, cursor);
    var whole := Pieces(o, cursor', pointers);
    PieceStarts(o, cursor', pointers);
    assert p[cursor..cursor + 1] == [0];
    PieceAndRest(p, o, s, cursor, cursor + 1, [], whole, cursor');
    assert [Piece(cursor, cursor, [0])] + [] == [Piece(cursor, cursor, [0])];
    if Untouched(p, o, s, cursor, cursor + 1) {
      FirstRound(p, o, s, cursor, cursor + 1);
      assert whole == [Piece(cursor', cursor', [0])];
    }
  }

  lemma {:induction false} PointerIff(p: Packet, o: Packet, s: Span, cursor: nat, next: Option<nat>, pointers: nat,
                                      wire: seq<Byte>)
    requires CutOut(p, o, s) && pointers <= MAX_JUMPS && Outside(s, cursor)
    requires NameFrom(p, cursor, next, pointers, wire).Ok? && p[cursor] >= 0xC0
    ensures RestAgrees(p, o, s, cursor, cursor - Shift(s, cursor), pointers) <==> Steady(p, o, s, cursor, pointers)
    decreases MAX_JUMPS - pointers, |p| - cursor, 0
  {
    hide Untouched, Steady, Pieces, NameFrom, CutOut, Moved;
    NameStep(p, cursor, next, pointers, wire);
    SteadyRound(p, o, s, cursor, pointers);
    PointerRound(p, cursor, pointers);
    var cursor', t := cursor - Shift(s, cursor), Target(p, cursor);
    var whole := Pieces(o, cursor', pointers);
    var next' := Some(if next.Some? then next.value else cursor + 2);
    PieceStarts(o, cursor', pointers);
    PiecesPlaced(p, t, pointers + 1);
    PieceAndRest(p, o, s, cursor, cursor + 2, Pieces(p, t, pointers + 1), whole, cursor');
    if Untouched(p, o, s, cursor, cursor + 2) {
      FirstRound(p, o, s, cursor, cursor + 2);
      assert Target(o, cursor') == t;
      if t < cursor' {
        PointerRound(o, cursor', pointers);
        assert whole[1..] == Pieces(o, t, pointers + 1);
        if RestAgrees(p, o, s, t, t, pointers + 1) {
          RestPlaced(p, o, s, t, t, next', pointers + 1, wire);
        }
      } else {
        ForwardStops(o, cursor', pointers);
      }
      if t < s.start {
        ReadingIff(p, o, s, t, next', pointers + 1, wire);
      }
    }
  }

  lemma ForwardStops(p: Packet, cursor: nat, pointers: nat)
    requires pointers <= MAX_JUMPS && cursor + 1 < |p| && p[cursor] >= 0xC0 && Target(p, cursor) >= cursor
    ensures Pieces(p, cursor, pointers) == []
  {}

  lemma {:induction false} LabelIff(p: Packet, o: Packet, s: Span, cursor: nat, next: Option<nat>, pointers: nat,
                                    wire: seq<Byte>)
    requires CutOut(p, o, s) && pointers <= MAX_JUMPS && Outside(s, cursor)
    requires NameFrom(p, cursor, next, pointers, wire).Ok? && 0 < p[cursor] < 0x40
    ensures RestAgrees(p, o, s, cursor, cursor - Shift(s, cursor), pointers) <==> Steady(p, o, s, cursor, pointers)
    decreases MAX_JUMPS - pointers, |p| - cursor, 0
  {
    hide Untouched, Steady, Pieces, NameFrom, CutOut, Moved, Lower;
    NameStep(p, cursor, next, pointers, wire);
    SteadyRound(p, o, s, cursor, pointers);
    LabelRound(p, cursor, pointers);
    var cursor', end := cursor - Shift(s, cursor), cursor + 1 + p[cursor];
    var end' := cursor' + (end - cursor);
    var whole := Pieces(o, cursor', pointers);
    var wire' := wire + [p[cursor]] + Lower(p[cursor + 1..end]);
    PieceStarts(o, cursor', pointers);
    PiecesPlaced(p, end, pointers);
    PieceAndRest(p, o, s, cursor, end, Pieces(p, end, pointers), whole, cursor');
    if Untouched(p, o, s, cursor, end) {
      FirstRound(p, o, s, cursor, end);
      LabelRound(o, cursor', pointers);
      assert whole[1..] == Pieces(o, end', pointers);
      if RestAgrees(p, o, s, end, end', pointers) {
        RestPlaced(p, o, s, end, end', next, pointers, wire');
      }
      if Outside(s, end) {
        ReadingIff(p, o, s, end, next, pointers, wire');
        EndMoves(p, o, s, cursor, end);
      } else {
        InsideUnsteady(p, o, s, end, next, pointers, wire');
      }
    }
  }

  lemma EndMoves(p: Packet, o: Packet, s: Span, i: nat, j: nat)
    requires i < j && Outside(s, i) && Outside(s, j) && Untouched(p, o, s, i, j)
    ensures Shift(s, i) == Shift(s, j)
  {}

  /** A name is read from the same octets after the cut exactly when it is steady. */
  lemma {:induction false} ReadingIff(p: Packet, o: Packet, s: Span, cursor: nat, next: Option<nat>, pointers: nat,
                                      wire: seq<Byte>)
    requires CutOut(p, o, s) && pointers <= MAX_JUMPS && Outside(s, cursor)
    requires NameFrom(p, cursor, next, pointers, wire).Ok?
    ensures RestAgrees(p, o, s, cursor, cursor - Shift(s, cursor), pointers) <==> Steady(p, o, s, cursor, pointers)
    decreases MAX_JUMPS - pointers, |p| - cursor, 1
  {
    hide Untouched, Steady, RestAgrees;
    if p[cursor] == 0 {
      RootIff(p, o, s, cursor, pointers);
    } else if p[cursor] >= 0xC0 {
      PointerIff(p, o, s, cursor, next, pointers, wire);
    } else {
      LabelIff(p, o, s, cursor, next, pointers, wire);
    }
  }

  /** A steady name reads the same after the cut, and ends where its end moved. */
  lemma {:induction false} SteadyReads(p: Packet, o: Packet, s: Span, cursor: nat, next: Option<nat>,
                                       next': Option<nat>,
                                       pointers: nat, wire: seq<Byte>)
    requires CutOut(p, o, s) && pointers <= MAX_JUMPS && Outside(s, cursor) && (next.Some? <==> next'.Some?)
    requires NameFrom(p, cursor, next, pointers, wire).Ok? && Steady(p, o, s, cursor, pointers)
    ensures var name := NameFrom(p, cursor, next, pointers, wire).value;
            var name' := NameFrom(o, cursor - Shift(s, cursor), next', pointers, wire);
            && name'.Ok? && name'.value.wire == name.wire
            && name'.value.next == if next'.Some? then next'.value else name.next - Shift(s, cursor)
    decreases MAX_JUMPS - pointers, |p| - cursor
  {
    hide Untouched, CutOut, Lower, Steady, NameFrom;
    NameStep(p, cursor, next, pointers, wire);
    var cursor' := cursor - Shift(s, cursor);
    NameStep(o, cursor', next', pointers, wire);
    if p[cursor] == 0 {
      SteadyRoot(p, o, s, cursor, pointers);
      FirstRound(p, o, s, cursor, cursor + 1);
    } else if p[cursor] >= 0xC0 {
      SteadyRound(p, o, s, cursor, pointers);
      FirstRound(p, o, s, cursor, cursor + 2);
      var t := Target(p, cursor);
      SteadyReads(p, o, s, t, Some(if next.Some? then next.value else cursor + 2),
                  Some(if next'.Some? then next'.value else cursor' + 2), pointers + 1, wire);
      NextGiven(p, t, if next.Some? then next.value else cursor + 2, pointers + 1, wire);
    } else {
      SteadyRound(p, o, s, cursor, pointers);
      var end := cursor + 1 + p[cursor];
      FirstRound(p, o, s, cursor, end);
      assert o[cursor' + 1..cursor' + (end - cursor)] == o[cursor'..cursor' + (end - cursor)][1..];
      assert p[cursor + 1..end] == p[cursor..end][1..];
      var wire' := wire + [p[cursor]] + Lower(p[cursor + 1..end]);
      SteadyOutside(p, o, s, end, next, pointers, wire');
      EndMoves(p, o, s, cursor, end);
      SteadyReads(p, o, s, end, next, next', pointers, wire');
    }
  }

  lemma SteadyRoot(p: Packet, o: Packet, s: Span, cursor: nat, pointers: nat)
    requires pointers <= MAX_JUMPS && cursor < |p| && p[cursor] == 0 && Steady(p, o, s, cursor, pointers)
    ensures Untouched(p, o, s, cursor, cursor + 1)
  {}

  lemma SteadyOutside(p: Packet, o: Packet, s: Span, cursor: nat, next: Option<nat>, pointers: nat, wire: seq<Byte>)
    requires pointers <= MAX_JUMPS && NameFrom(p, cursor, next, pointers, wire).Ok? && Steady(p, o, s, cursor, pointers)
    ensures Outside(s, cursor)
  {}

  /** Once a pointer was followed, where the name ends is settled. */
  lemma {:induction false} NextGiven(p: Packet, cursor: nat, next: nat, pointers: nat, wire: seq<Byte>)
    requires pointers <= MAX_JUMPS && NameFrom(p, cursor, Some(next), pointers, wire).Ok?
    ensures NameFrom(p, cursor, Some(next), pointers, wire).value.next == next
    decreases MAX_JUMPS - pointers, |p| - cursor
  {
    hide Lower;
    if p[cursor] >= 0xC0 {
      NextGiven(p, Target(p, cursor), next, pointers + 1, wire);
    } else if p[cursor] > 0 {
      var end := cursor + 1 + p[cursor];
      NextGiven(p, end, next, pointers, wire + [p[cursor]] + Lower(p[cursor + 1..end]));
    }
  }

  /** Where a name ends moves with where it starts, whatever its pointers lead to. */
  lemma {:induction false} NextMoves(p: Packet, o: Packet, s: Span, cursor: nat, wire: seq<Byte>)
    requires CutOut(p, o, s) && cursor >= HEADER_LEN
    requires NameFrom(p, cursor, None, 0, wire).Ok?
    requires NameFrom(p, cursor, None, 0, wire).value.next <= s.start || s.end <= cursor
    requires NameFrom(o, cursor - Shift(s, cursor), None, 0, wire).Ok?
    ensures var next := NameFrom(p, cursor, None, 0, wire).value.next;
            && cursor < next <= |p|
            && NameFrom(o, cursor - Shift(s, cursor), None, 0, wire).value.next == next - Shift(s, cursor)
    decreases |p| - cursor
  {
    hide CutOut, Lower, Untouched, NameFrom;
    NameStep(p, cursor, None, 0, wire);
    NameStep(o, cursor - Shift(s, cursor), None, 0, wire);
    NextBounds(p, cursor, wire);
    var cursor' := cursor - Shift(s, cursor);
    if p[cursor] == 0 {
      BehindHeader(p, o, s, cursor, cursor + 1);
      FirstRound(p, o, s, cursor, cursor + 1);
    } else if p[cursor] >= 0xC0 {
      NextGiven(p, Target(p, cursor), cursor + 2, 1, wire);
      BehindHeader(p, o, s, cursor, cursor + 2);
      FirstRound(p, o, s, cursor, cursor + 2);
      NextGiven(o, Target(o, cursor'), cursor' + 2, 1, wire);
    } else {
      var end := cursor + 1 + p[cursor];
      BehindHeader(p, o, s, cursor, end);
      FirstRound(p, o, s, cursor, end);
      assert o[cursor' + 1..cursor' + (end - cursor)] == o[cursor'..cursor' + (end - cursor)][1..];
      assert p[cursor + 1..end] == p[cursor..end][1..];
      NextMoves(p, o, s, end, wire + [p[cursor]] + Lower(p[cursor + 1..end]));
    }
  }

  lemma BehindHeader(p: Packet, o: Packet, s: Span, i: nat, j: nat)
    requires HEADER_LEN <= i < j && (j <= s.start || s.end <= i)
    ensures Untouched(p, o, s, i, j)
  {}

  /** A name ends behind the octets it starts with. */
  lemma {:induction false} NextBounds(p: Packet, cursor: nat, wire: seq<Byte>)
    requires NameFrom(p, cursor, None, 0, wire).Ok?
    ensures var next := NameFrom(p, cursor, None, 0, wire).value.next;
            && cursor < next <= |p|
            && (p[cursor] >= 0xC0 ==> next == cursor + 2)
            && (0 < p[cursor] < 0x40 ==> cursor + 1 + p[cursor] < next)
    decreases |p| - cursor
  {
    hide Lower;
    if p[cursor] >= 0xC0 {
      NextGiven(p, Target(p, cursor), cursor + 2, 1, wire);
    } else if p[cursor] > 0 {
      var end := cursor + 1 + p[cursor];
      NextBounds(p, end, wire + [p[cursor]] + Lower(p[cursor + 1..end]));
    }
  }

  lemma QuestionForward(p: Packet, i: nat)
    requires QuestionEnd(p, i).Ok?
    ensures ReadName(p, i).Ok? && i < QuestionEnd(p, i).value <= |p|
  {
    hide NameFrom;
    NextBounds(p, i, []);
  }

  lemma RecordForward(p: Packet, i: nat)
    requires ParseRecord(p, i).Ok?
    ensures ReadName(p, i).Ok? && ParseRecord(p, i).value.name == ReadName(p, i).value.wire
    ensures i < ParseRecord(p, i).value.next <= |p|
  {
    hide NameFrom;
    NextBounds(p, i, []);
  }

  lemma UnreadRecord(p: Packet, i: nat)
    requires ReadName(p, i).Err?
    ensures ParseRecord(p, i).Err?
  {}
}
