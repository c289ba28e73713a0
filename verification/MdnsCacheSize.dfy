/** When `is_empty` of the mDNS cache says what `len` says (`src/mdns_full.rs`). */
module MdnsCacheSize {
  import opened Bytes
  import opened MdnsCache

  /** `is_empty` is false while `len` is zero: empty lists are all there is. */
  ghost predicate Disagree(c: Records) {
    c != map[] && NoRecord(c)
  }

  ghost predicate NothingLive(c: Records, key: Key, now: Time) {
    forall r :: r in Get(c, key) ==> r.expiresAt <= now
  }

  /** No list but that of `key` holds a record. */
  ghost predicate OthersEmpty(c: Records, key: Key) {
    forall k :: k in c && k != key ==> c[k] == []
  }

  /** What makes `is_empty` and `len` disagree after an operation, read off the state before it. */
  ghost predicate Parts(c: Records, op: Op) {
    match op
    case InsertOp(key, _, ttl, _, now) => ttl == 0 && NothingLive(c, key, now) && OthersEmpty(c, key)
    case LookupOp(key, now) => NothingLive(c, key, now) && OthersEmpty(c, key) && c.Keys - {key} != {}
    case RemoveInterfaceOp(i, _) =>
      && (exists k :: k in c && k.interface != i)
      && (forall k :: k in c && k.interface != i ==> c[k] == [])
    case FlushOp(_) => false
  }

  lemma LookupDisagrees(c: Records, key: Key, now: Time)
    ensures Disagree(Lookup(c, key, now).0) <==> Parts(c, LookupOp(key, now))
  {
    RetainExact(Get(c, key), now);
    var c' := Lookup(c, key, now).0;
    var kept := Retain(Get(c, key), now);
    if kept != [] {
      assert kept[0] in kept;
      assert key in c' && c'[key] == kept;
    } else {
      assert c'.Keys == c.Keys - {key};
      assert forall k :: k in c' ==> c'[k] == c[k];
    }
  }

  lemma InsertDisagrees(c: Records, op: Op)
    requires op.InsertOp?
    ensures Disagree(Step(c, op)) <==> Parts(c, op)
  {
    EmptyListIff(Get(c, op.key), op.rdata, op.ttl, op.flush, op.now);
    var c', key := Step(c, op), op.key;
    assert key in c' && c'.Keys == c.Keys + {key};
    assert c'[key] == InsertInto(Get(c, key), op.rdata, op.ttl, op.flush, op.now);
    forall k | k in c && k != key ensures k in c' && c'[k] == c[k] {}
  }

  lemma RemoveDisagrees(c: Records, i: Interface, now: Time)
    ensures Disagree(RemoveInterface(c, i)) <==> Parts(c, RemoveInterfaceOp(i, now))
  {
    var c' := RemoveInterface(c, i);
    forall k ensures k in c' <==> k in c && k.interface != i {}
    if c' != map[] {
      var k :| k in c';
      assert k in c && k.interface != i;
    }
  }

  /** From any state, an operation leaves `is_empty` and `len` in disagreement exactly when `Parts`
      says so; otherwise they agree. */
  lemma AgreementStep(c: Records, op: Op)
    ensures (Step(c, op) == map[] <==> |Places(Step(c, op))| == 0) <==> !Parts(c, op)
  {
    NoPlaces(Step(c, op));
    EmptyMapHasNone(Step(c, op));
    match op
    case InsertOp(_, _, _, _, _) => InsertDisagrees(c, op);
    case LookupOp(key, now) => LookupDisagrees(c, key, now);
    case RemoveInterfaceOp(i, now) => RemoveDisagrees(c, i, now);
    case FlushOp(_) =>
  }

  lemma EmptyMapHasNone(c: Records)
    ensures c == map[] ==> NoRecord(c)
  {}

  /** Once they disagree, agreement returns with an insertion that is no goodbye, with a lookup of
      the only key there is, with the removal of the only interface, and with a flush. */
  lemma AgreementReturns(c: Records, op: Op)
    requires Disagree(c)
    ensures !Disagree(Step(c, op)) <==>
            match op
            case InsertOp(_, _, ttl, _, _) => ttl > 0
            case LookupOp(key, _) => c.Keys == {key}
            case RemoveInterfaceOp(i, _) => forall k :: k in c ==> k.interface == i
            case FlushOp(_) => true
  {
    match op
    case InsertOp(key, _, _, _, _) =>
      assert Get(c, key) == [];
      InsertDisagrees(c, op);
    case LookupOp(key, now) =>
      assert Get(c, key) == [];
      LookupDisagrees(c, key, now);
      var k :| k in c;
      assert c.Keys == {key} <==> c.Keys - {key} == {};
    case RemoveInterfaceOp(i, now) => RemoveDisagrees(c, i, now);
    case FlushOp(_) =>
  }

  // Over runs, from the specification that never purges.

  datatype ListState = Absent | Empty | Holding

  /** What becomes of the list of `key` in a run. */
  ghost function ListAfter(ops: seq<Op>, key: Key): ListState {
    if ops == [] then Absent
    else
      var before, op := ops[..|ops| - 1], ops[|ops| - 1];
      var was := ListAfter(before, key);
      match op
      case InsertOp(k, _, ttl, _, now) =>
        if k != key then was
        else if ttl == 0 && IdealLookup(IdealRun(before).0, key, now) == {} then Empty
        else Holding
      case LookupOp(k, now) =>
        if k != key || was.Absent? then was
        else if IdealLookup(IdealRun(before).0, key, now) == {} then Absent
        else Holding
      case RemoveInterfaceOp(i, _) => if key.interface == i then Absent else was
      case FlushOp(_) => Absent
  }

  ghost predicate Matches(c: Records, key: Key, s: ListState) {
    && (s.Absent? <==> key !in c)
    && (s.Empty? ==> key in c && c[key] == [])
    && (s.Holding? ==> key in c && c[key] != [])
  }

  /** Nothing is live in the list exactly when the specification finds nothing. */
  lemma LiveAgrees(c: Records, m: Ideal, key: Key, t: Time, now: Time)
    requires t <= now && Agrees(c, m, t)
    ensures NothingLive(c, key, now) <==> IdealLookup(m, key, now) == {}
  {
    LookupKeeps(c, m, key, t, now);
    RetainExact(Get(c, key), now);
    var found := Lookup(c, key, now).1;
    assert found == Retain(Get(c, key), now);
    if r :| r in Get(c, key) && r.expiresAt > now {
      assert r in IdealLookup(m, key, now);
    }
    if r :| r in IdealLookup(m, key, now) {
      assert r in found;
    }
  }

  lemma StepMatches(c: Records, m: Ideal, op: Op, t: Time, key: Key, was: ListState)
    requires t <= op.now && Agrees(c, m, t) && Matches(c, key, was)
    ensures Matches(Step(c, op), key,
                    match op
                    case InsertOp(k, _, ttl, _, now) =>
                      if k != key then was
                      else if ttl == 0 && IdealLookup(m, key, now) == {} then Empty
                      else Holding
                    case LookupOp(k, now) =>
                      if k != key || was.Absent? then was
                      else if IdealLookup(m, key, now) == {} then Absent
                      else Holding
                    case RemoveInterfaceOp(i, _) => if key.interface == i then Absent else was
                    case FlushOp(_) => Absent)
  {
    hide Agrees, IdealLookup, InsertInto;
    LiveAgrees(c, m, key, t, op.now);
    match op
    case InsertOp(k, rdata, ttl, flush, now) => EmptyListIff(Get(c, key), rdata, ttl, flush, now);
    case LookupOp(k, now) =>
      RetainExact(Get(c, key), now);
      var kept := Retain(Get(c, key), now);
      if kept != [] {
        assert kept[0] in kept;
      }
    case RemoveInterfaceOp(_, _) =>
    case FlushOp(_) =>
  }

  lemma {:induction false} ListAfterMatches(ops: seq<Op>, key: Key)
    requires TimeOrdered(ops)
    ensures Matches(Run(ops).0, key, ListAfter(ops, key))
  {
    hide Agrees, Step, IdealLookup;
    if ops != [] {
      var before, op := ops[..|ops| - 1], ops[|ops| - 1];
      ListAfterMatches(before, key);
      RunAgrees(before);
      var c, m := Run(before).0, IdealRun(before).0;
      var t := if before == [] then op.now else before[|before| - 1].now;
      if before == [] {
        EmptyAgrees(op.now);
      }
      StepMatches(c, m, op, t, key, ListAfter(before, key));
    }
  }

  /** After a time-ordered run `is_empty` and `len` disagree exactly when some list was left empty
      by a goodbye and not looked up or dropped since, and no list holds a record. */
  lemma RunDisagrees(ops: seq<Op>)
    requires TimeOrdered(ops)
    ensures Disagree(Run(ops).0) <==>
            (exists key :: ListAfter(ops, key).Empty?) && (forall key :: !ListAfter(ops, key).Holding?)
  {
    hide Run, ListAfter;
    var c := Run(ops).0;
    forall key ensures Matches(c, key, ListAfter(ops, key)) {
      ListAfterMatches(ops, key);
    }
    if key :| ListAfter(ops, key).Holding? {
      assert Matches(c, key, ListAfter(ops, key));
    } else {
      forall key | key in c ensures c[key] == [] && ListAfter(ops, key).Empty? {
        assert Matches(c, key, ListAfter(ops, key));
      }
      assert forall key :: !ListAfter(ops, key).Holding?;
      if key :| ListAfter(ops, key).Empty? {
        assert Matches(c, key, ListAfter(ops, key));
        assert exists k :: ListAfter(ops, k).Empty?;
      }
    }
  }

  /** One goodbye in an empty cache: not `is_empty`, and no record. */
  lemma EmptyYetNotEmpty(key: Key, rdata: seq<Byte>, flush: bool, now: Time)
    ensures Disagree(Run([InsertOp(key, rdata, 0, flush, now)]).0)
  {
    var ops := [InsertOp(key, rdata, 0, flush, now)];
    assert ops[..0] == [];
    assert key in Run(ops).0;
    InsertDisagrees(map[], ops[0]);
  }
}
