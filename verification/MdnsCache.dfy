/** The mDNS record cache with goodbye and cache-flush rules (`src/mdns_full.rs`, sections 10.1
    and 10.2 of RFC 6762) against a specification that never purges. */
module MdnsCache {
  import opened Bytes

  /** Instants in nanoseconds. */
  type Time = int
  const SECOND := 1_000_000_000
  const GRACE := SECOND

  datatype Interface = Interface(ifindex: U32, ipv6: bool)
  datatype Key = Key(interface: Interface, owner: seq<Byte>, rrType: U16, class_: U16)
  datatype Record = Record(rdata: seq<Byte>, flush: bool, receivedAt: Time, expiresAt: Time)
  type Records = map<Key, seq<Record>>

  function Get(c: Records, key: Key): seq<Record> {
    if key in c then c[key] else []
  }

  /** `retain` of what has not expired. */
  function Retain(rs: seq<Record>, now: Time): seq<Record> {
    if rs == [] then []
    else
      var front := Retain(rs[..|rs| - 1], now);
      if rs[|rs| - 1].expiresAt > now then front + [rs[|rs| - 1]] else front
  }

  /** A record whose goodbye was heard: one second left at most. */
  function Goodbye(r: Record, rdata: seq<Byte>, now: Time): Record {
    if r.rdata == rdata && r.expiresAt > now + GRACE then r.(expiresAt := now + GRACE) else r
  }

  predicate RecentlyReceived(r: Record, now: Time) {
    now < r.receivedAt || now - r.receivedAt < GRACE
  }

  /** A record next to one inserted with the cache-flush bit. */
  function Flushed(r: Record, rdata: seq<Byte>, now: Time): Record {
    if r.rdata != rdata && !RecentlyReceived(r, now) &&
        r.expiresAt > now + GRACE then r.(expiresAt := now + GRACE) else r
  }

  /** What an insertion does to each record already there. */
  function Touched(r: Record, rdata: seq<Byte>, ttl: U32, flush: bool, now: Time): Record {
    if ttl == 0 then Goodbye(r, rdata, now)
    else if flush then Flushed(r, rdata, now)
    else r
  }

  function TouchAll(rs: seq<Record>, rdata: seq<Byte>, ttl: U32, flush: bool, now: Time): (ts: seq<Record>)
    ensures |ts| == |rs| && forall i :: 0 <= i < |rs| ==> ts[i] == Touched(rs[i], rdata, ttl, flush, now)
  {
    seq(|rs|, i requires 0 <= i < |rs| => Touched(rs[i], rdata, ttl, flush, now))
  }

  /** Replaces the record with this RDATA, or appends it. */
  function Put(rs: seq<Record>, r: Record): seq<Record> {
    if rs == [] then [r]
    else if rs[0].rdata == r.rdata then [r] + rs[1..]
    else [rs[0]] + Put(rs[1..], r)
  }

  function Fresh(rdata: seq<Byte>, ttl: U32, flush: bool, now: Time): Record {
    Record(rdata, flush, now, now + ttl * SECOND)
  }

  function InsertInto(rs: seq<Record>, rdata: seq<Byte>, ttl: U32, flush: bool, now: Time): seq<Record> {
    var touched := TouchAll(Retain(rs, now), rdata, ttl, flush, now);
    if ttl == 0 then touched else Put(touched, Fresh(rdata, ttl, flush, now))
  }

  function Insert(c: Records, key: Key, rdata: seq<Byte>, ttl: U32, flush: bool, now: Time): Records {
    c[key := InsertInto(Get(c, key), rdata, ttl, flush, now)]
  }

  function Lookup(c: Records, key: Key, now: Time): (Records, seq<Record>) {
    if key !in c then (c, [])
    else
      var rs := Retain(c[key], now);
      (if rs == [] then c - {key} else c[key := rs], rs)
  }

  function RemoveInterface(c: Records, interface: Interface): Records {
    map k | k in c && k.interface != interface :: c[k]
  }

  // The specification: one record for each key and RDATA, never purged.

  type Ideal = map<(Key, seq<Byte>), Record>

  function IdealInsert(m: Ideal, key: Key, rdata: seq<Byte>, ttl: U32, flush: bool, now: Time): Ideal {
    var touched := map x | x in m :: if x.0 == key then Touched(m[x], rdata, ttl, flush, now) else m[x];
    if ttl == 0 then touched else touched[(key, rdata) := Fresh(rdata, ttl, flush, now)]
  }

  function IdealLookup(m: Ideal, key: Key, now: Time): set<Record> {
    set x | x in m && x.0 == key && m[x].expiresAt > now :: m[x]
  }

  function IdealRemoveInterface(m: Ideal, interface: Interface): Ideal {
    map x | x in m && x.0.interface != interface :: m[x]
  }

  datatype Op =
    | InsertOp(key: Key, rdata: seq<Byte>, ttl: U32, flush: bool, now: Time)
    | LookupOp(key: Key, now: Time)
    | RemoveInterfaceOp(interface: Interface, now: Time)
    | FlushOp(now: Time)

  function Step(c: Records, op: Op): Records {
    match op
    case InsertOp(key, rdata, ttl, flush, now) => Insert(c, key, rdata, ttl, flush, now)
    case LookupOp(key, now) => Lookup(c, key, now).0
    case RemoveInterfaceOp(i, _) => RemoveInterface(c, i)
    case FlushOp(_) => map[]
  }

  /** The cache after a run, and what each lookup returned. */
  function Run(ops: seq<Op>): (Records, seq<seq<Record>>) {
    if ops == [] then (map[], [])
    else
      var (c, found) := Run(ops[..|ops| - 1]);
      var op := ops[|ops| - 1];
      (Step(c, op), if op.LookupOp? then found + [Lookup(c, op.key, op.now).1] else found)
  }

  function IdealRun(ops: seq<Op>): (Ideal, seq<set<Record>>) {
    if ops == [] then (map[], [])
    else
      var (m, found) := IdealRun(ops[..|ops| - 1]);
      match ops[|ops| - 1]
      case InsertOp(key, rdata, ttl, flush, now) => (IdealInsert(m, key, rdata, ttl, flush, now), found)
      case LookupOp(key, now) => (m, found + [IdealLookup(m, key, now)])
      case RemoveInterfaceOp(i, _) => (IdealRemoveInterface(m, i), found)
      case FlushOp(_) => (map[], found)
  }

  predicate TimeOrdered(ops: seq<Op>) {
    forall i, j :: 0 <= i < j < |ops| ==> ops[i].now <= ops[j].now
  }

  /** RDATA is unique. */
  ghost predicate Unique(rs: seq<Record>) {
    forall i, j :: 0 <= i < j < |rs| ==> rs[i].rdata != rs[j].rdata
  }

  /** Of what has not expired at `t` the list holds exactly what the specification has for `key`. */
  ghost predicate AgreesOn(rs: seq<Record>, m: Ideal, key: Key, t: Time) {
    forall r: Record :: r.expiresAt > t ==> (r in rs <==> (key, r.rdata) in m && m[(key, r.rdata)] == r)
  }

  ghost predicate Agrees(c: Records, m: Ideal, t: Time) {
    && (forall key :: Unique(Get(c, key)) && AgreesOn(Get(c, key), m, key, t))
    && (forall x :: x in m ==> m[x].rdata == x.1)
  }

  lemma {:induction false} RetainExact(rs: seq<Record>, now: Time)
    ensures forall r :: r in Retain(rs, now) <==> r in rs && r.expiresAt > now
    ensures Unique(rs) ==> Unique(Retain(rs, now))
  {
    if rs != [] {
      var n := |rs| - 1;
      RetainExact(rs[..n], now);
      assert rs == rs[..n] + [rs[n]];
    }
  }

  lemma {:induction false} PutExact(rs: seq<Record>, r: Record)
    requires Unique(rs)
    ensures Unique(Put(rs, r))
    ensures forall x :: x in Put(rs, r) <==> x == r || (x in rs && x.rdata != r.rdata)
  {
    if rs != [] {
      assert rs == [rs[0]] + rs[1..];
      if rs[0].rdata != r.rdata {
        PutExact(rs[1..], r);
      }
    }
  }

  /** An insertion at or after `t` keeps the list of its key in agreement. */
  lemma InsertAgrees(rs: seq<Record>, m: Ideal, key: Key, rdata: seq<Byte>, ttl: U32, flush: bool, t: Time, now: Time)
    requires t <= now && Unique(rs) && AgreesOn(rs, m, key, t)
    requires forall x :: x in m ==> m[x].rdata == x.1
    ensures Unique(InsertInto(rs, rdata, ttl, flush, now))
    ensures AgreesOn(InsertInto(rs, rdata, ttl, flush, now), IdealInsert(m, key, rdata, ttl, flush, now), key, now)
  {
    RetainExact(rs, now);
    var kept := Retain(rs, now);
    var touched := TouchAll(kept, rdata, ttl, flush, now);
    assert Unique(touched);
    if ttl != 0 {
      PutExact(touched, Fresh(rdata, ttl, flush, now));
    }
    var m' := IdealInsert(m, key, rdata, ttl, flush, now);
    forall r: Record | r.expiresAt > now
      ensures r in InsertInto(rs, rdata, ttl, flush, now) <==> (key, r.rdata) in m' && m'[(key, r.rdata)] == r
    {
      TouchedAgrees(kept, m, key, rdata, ttl, flush, now, r);
    }
  }

  /** Touching commutes with dropping what has expired. */
  lemma TouchedAgrees(kept: seq<Record>, m: Ideal, key: Key, rdata: seq<Byte>, ttl: U32, flush: bool, now: Time,
                      r: Record)
    requires r.expiresAt > now
    requires forall x: Record :: x.expiresAt > now ==> (x in kept <==> (key, x.rdata) in m && m[(key, x.rdata)] == x)
    requires forall x :: x in kept ==> x.expiresAt > now
    requires forall x :: x in m ==> m[x].rdata == x.1
    ensures r in TouchAll(kept, rdata, ttl, flush, now) <==>
            (key, r.rdata) in m && Touched(m[(key, r.rdata)], rdata, ttl, flush, now) == r
  {
    var touched := TouchAll(kept, rdata, ttl, flush, now);
    if r in touched {
      var i :| 0 <= i < |touched| && touched[i] == r;
      assert kept[i] in kept;
    }
    if (key, r.rdata) in m && Touched(m[(key, r.rdata)], rdata, ttl, flush, now) == r {
      var x := m[(key, r.rdata)];
      assert x in kept;
      var i :| 0 <= i < |kept| && kept[i] == x;
      assert touched[i] == r;
    }
  }

  lemma AgreesLater(rs: seq<Record>, m: Ideal, key: Key, t: Time, now: Time)
    requires AgreesOn(rs, m, key, t) && t <= now
    ensures AgreesOn(rs, m, key, now)
  {}

  lemma InsertKeeps(c: Records, m: Ideal, key: Key, rdata: seq<Byte>, ttl: U32, flush: bool, t: Time, now: Time)
    requires t <= now && Agrees(c, m, t)
    ensures Agrees(Insert(c, key, rdata, ttl, flush, now), IdealInsert(m, key, rdata, ttl, flush, now), now)
  {
    hide InsertInto, Unique, AgreesOn;
    var c', m' := Insert(c, key, rdata, ttl, flush, now), IdealInsert(m, key, rdata, ttl, flush, now);
    forall k ensures Unique(Get(c', k)) && AgreesOn(Get(c', k), m', k, now) {
      assert Unique(Get(c, k)) && AgreesOn(Get(c, k), m, k, t);
      if k == key {
        InsertAgrees(Get(c, key), m, key, rdata, ttl, flush, t, now);
      } else {
        AgreesLater(Get(c, k), m, k, t, now);
        AgreesElsewhere(Get(c, k), m, m', k, now);
      }
    }
  }

  /** Agreement looks only at one key of the specification. */
  lemma AgreesElsewhere(rs: seq<Record>, m: Ideal, m': Ideal, k: Key, t: Time)
    requires AgreesOn(rs, m, k, t)
    requires forall d: seq<Byte> :: ((k, d) in m' <==> (k, d) in m) && ((k, d) in m ==> m'[(k, d)] == m[(k, d)])
    ensures AgreesOn(rs, m', k, t)
  {}

  lemma LookupKeeps(c: Records, m: Ideal, key: Key, t: Time, now: Time)
    requires t <= now && Agrees(c, m, t)
    ensures Agrees(Lookup(c, key, now).0, m, now)
    ensures (set r | r in Lookup(c, key, now).1) == IdealLookup(m, key, now)
    ensures Unique(Lookup(c, key, now).1)
  {
    var (c', found) := Lookup(c, key, now);
    assert Unique(Get(c, key)) && AgreesOn(Get(c, key), m, key, t);
    RetainExact(Get(c, key), now);
    assert found == Retain(Get(c, key), now);
    LookupSet(found, m, key, now);
    forall k ensures Unique(Get(c', k)) && AgreesOn(Get(c', k), m, k, now) {
      assert Unique(Get(c, k)) && AgreesOn(Get(c, k), m, k, t);
      AgreesLater(Get(c, k), m, k, t, now);
      if k == key {
        assert Get(c', k) == found;
      } else {
        assert Get(c', k) == Get(c, k);
      }
    }
  }

  lemma LookupSet(found: seq<Record>, m: Ideal, key: Key, now: Time)
    requires AgreesOn(found, m, key, now) && (forall r :: r in found ==> r.expiresAt > now)
    requires forall x :: x in m ==> m[x].rdata == x.1
    ensures (set r | r in found) == IdealLookup(m, key, now)
  {
    forall r ensures r in found <==> r in IdealLookup(m, key, now) {
      if r in IdealLookup(m, key, now) {
        var x :| x in m && x.0 == key && m[x].expiresAt > now && m[x] == r;
        assert x == (key, r.rdata);
      }
      if r in found {
        assert (key, r.rdata) in m;
      }
    }
  }

  lemma RemoveInterfaceKeeps(c: Records, m: Ideal, interface: Interface, t: Time)
    requires Agrees(c, m, t)
    ensures Agrees(RemoveInterface(c, interface), IdealRemoveInterface(m, interface), t)
  {
    hide Unique, AgreesOn;
    var c', m' := RemoveInterface(c, interface), IdealRemoveInterface(m, interface);
    forall k ensures Unique(Get(c', k)) && AgreesOn(Get(c', k), m', k, t) {
      assert Unique(Get(c, k)) && AgreesOn(Get(c, k), m, k, t);
      if k.interface != interface {
        AgreesElsewhere(Get(c, k), m, m', k, t);
      } else {
        NothingAgrees(m', k, t);
      }
    }
  }

  lemma NothingAgrees(m: Ideal, k: Key, t: Time)
    requires forall d: seq<Byte> :: (k, d) !in m
    ensures Unique([]) && AgreesOn([], m, k, t)
  {}

  lemma EmptyAgrees(t: Time)
    ensures Agrees(map[], map[], t)
  {}

  /** The results of two runs so far. */
  ghost predicate SameResults(found: seq<seq<Record>>, ideal: seq<set<Record>>) {
    |found| == |ideal| && forall i :: 0 <= i < |found| ==> (set r | r in found[i]) == ideal[i] && Unique(found[i])
  }

  /** Over every time-ordered run the cache answers as the specification that never purges, and
      no answer holds the same RDATA twice. */
  lemma {:induction false} RunAgrees(ops: seq<Op>)
    requires TimeOrdered(ops)
    ensures SameResults(Run(ops).1, IdealRun(ops).1)
    ensures Agrees(Run(ops).0, IdealRun(ops).0, if ops == [] then 0 else ops[|ops| - 1].now)
  {
    if ops == [] {
      EmptyAgrees(0);
    } else {
      var before, op := ops[..|ops| - 1], ops[|ops| - 1];
      RunAgrees(before);
      if before == [] {
        EmptyAgrees(op.now);
      }
      StepAgrees(Run(before).0, IdealRun(before).0, op, if before == [] then op.now else before[|before| - 1].now);
    }
  }

  /** One operation on the cache and on the specification. */
  lemma StepAgrees(c: Records, m: Ideal, op: Op, t: Time)
    requires t <= op.now && Agrees(c, m, t)
    ensures match op
            case InsertOp(key, rdata, ttl, flush, now) =>
              Agrees(Insert(c, key, rdata, ttl, flush, now), IdealInsert(m, key, rdata, ttl, flush, now), now)
            case LookupOp(key, now) =>
              Agrees(Lookup(c, key, now).0, m, now) && Unique(Lookup(c, key, now).1) &&
              (set r | r in Lookup(c, key, now).1) == IdealLookup(m, key, now)
            case RemoveInterfaceOp(i, now) => Agrees(RemoveInterface(c, i), IdealRemoveInterface(m, i), now)
            case FlushOp(now) => Agrees(map[], map[], now)
  {
    match op
    case InsertOp(key, rdata, ttl, flush, now) => InsertKeeps(c, m, key, rdata, ttl, flush, t, now);
    case LookupOp(key, now) => LookupKeeps(c, m, key, t, now);
    case RemoveInterfaceOp(i, now) =>
      AgreesAllLater(c, m, t, now);
      RemoveInterfaceKeeps(c, m, i, now);
    case FlushOp(now) => EmptyAgrees(now);
  }

  lemma AgreesAllLater(c: Records, m: Ideal, t: Time, now: Time)
    requires t <= now && Agrees(c, m, t)
    ensures Agrees(c, m, now)
  {
    forall k ensures Unique(Get(c, k)) && AgreesOn(Get(c, k), m, k, now) {
      assert Unique(Get(c, k)) && AgreesOn(Get(c, k), m, k, t);
      AgreesLater(Get(c, k), m, k, t, now);
    }
  }

  /** After an insertion with the cache-flush bit every other record of the key was received under
      one second before, or has at most one second left (section 10.2 of RFC 6762). */
  lemma FlushRule(rs: seq<Record>, rdata: seq<Byte>, ttl: U32, now: Time, r: Record)
    requires Unique(rs) && ttl > 0 && r in InsertInto(rs, rdata, ttl, true, now) && r.rdata != rdata
    ensures RecentlyReceived(r, now) || r.expiresAt <= now + GRACE
  {
    hide Retain, Put;
    RetainExact(rs, now);
    var kept := Retain(rs, now);
    var touched := TouchAll(kept, rdata, ttl, true, now);
    TouchedUnique(kept, rdata, ttl, true, now);
    PutExact(touched, Fresh(rdata, ttl, true, now));
    var i :| 0 <= i < |touched| && touched[i] == r;
    assert touched[i] == Flushed(kept[i], rdata, now);
  }

  /** Insertions shorten lives and never change RDATA. */
  lemma TouchedUnique(rs: seq<Record>, rdata: seq<Byte>, ttl: U32, flush: bool, now: Time)
    requires Unique(rs)
    ensures Unique(TouchAll(rs, rdata, ttl, flush, now))
  {}

  /** After a goodbye the record has at most one second left, and the others are untouched
      (section 10.1 of RFC 6762). */
  lemma GoodbyeRule(rs: seq<Record>, rdata: seq<Byte>, flush: bool, now: Time, r: Record)
    requires r in InsertInto(rs, rdata, 0, flush, now)
    ensures r.rdata == rdata ==> now < r.expiresAt <= now + GRACE
    ensures r.rdata != rdata ==> r in rs
  {
    RetainExact(rs, now);
    var kept := Retain(rs, now);
    var touched := TouchAll(kept, rdata, 0, flush, now);
    var i :| 0 <= i < |touched| && touched[i] == r;
    assert kept[i] in kept;
  }

  /** `is_empty` may be false with no record left: an insertion leaves an empty list behind exactly
      when it is a goodbye and nothing live was there. */
  lemma EmptyListIff(rs: seq<Record>, rdata: seq<Byte>, ttl: U32, flush: bool, now: Time)
    ensures InsertInto(rs, rdata, ttl, flush, now) == [] <==>
            ttl == 0 && forall r :: r in rs ==> r.expiresAt <= now
  {
    RetainExact(rs, now);
    var kept := Retain(rs, now);
    if kept != [] {
      assert kept[0] in kept;
    }
    if ttl != 0 {
      assert Put(TouchAll(kept, rdata, ttl, flush, now), Fresh(rdata, ttl, flush, now)) != [];
    }
  }

  /** The places that hold a record; `len` is how many there are. */
  ghost function Places(c: Records): set<(Key, nat)> {
    set k, i | k in c && 0 <= i < |c[k]| :: (k, i)
  }

  /** `len` is zero. */
  ghost predicate NoRecord(c: Records) {
    forall k :: k in c ==> c[k] == []
  }

  lemma NoPlaces(c: Records)
    ensures |Places(c)| == 0 <==> NoRecord(c)
  {
    if k :| k in c && c[k] != [] {
      assert (k, 0) in Places(c);
    }
  }

  /** `MdnsCache`. */
  class Cache {
    var records: Records

    constructor ()
      ensures records == map[]
    {
      records := map[];
    }

    method Add(key: Key, rdata: seq<Byte>, ttl: U32, flush: bool, now: Time)
      modifies this
      ensures records == Insert(old(records), key, rdata, ttl, flush, now)
    {
      hide Retain, Put, Goodbye, Flushed, RecentlyReceived;
      var rs := Sweep(Get(records, key), now);
      if ttl == 0 {
        var parting := SayGoodbye(rs, rdata, now);
        assert parting == TouchAll(rs, rdata, ttl, flush, now);
        records := records[key := parting];
        return;
      }
      var touched := rs;
      if flush {
        touched := FlushOthers(rs, rdata, now);
      }
      assert touched == TouchAll(rs, rdata, ttl, flush, now);
      touched := Store(touched, Fresh(rdata, ttl, flush, now));
      records := records[key := touched];
    }

    method Find(key: Key, now: Time) returns (found: seq<Record>)
      modifies this
      ensures (records, found) == Lookup(old(records), key, now)
    {
      if key !in records {
        return [];
      }
      found := Sweep(records[key], now);
      if found == [] {
        records := records - {key};
      } else {
        records := records[key := found];
      }
    }

    method DropInterface(interface: Interface)
      modifies this
      ensures records == RemoveInterface(old(records), interface)
    {
      records := map k | k in records && k.interface != interface :: records[k];
    }

    method Len() returns (n: nat)
      ensures n == |Places(records)|
      ensures n == 0 <==> NoRecord(records)
    {
      n := 0;
      var todo := records.Keys;
      ghost var counted: set<(Key, nat)> := {};
      while todo != {}
        invariant todo <= records.Keys && n == |counted|
        invariant counted == set x | x in Places(records) && x.0 !in todo
        decreases todo
      {
        var k :| k in todo;
        ghost var here := set i: nat | i < |records[k]| :: (k, i);
        RowSize(k, |records[k]|);
        assert counted !! here;
        todo := todo - {k};
        n := n + |records[k]|;
        assert (set x | x in Places(records) && x.0 !in todo) == counted + here;
        counted := counted + here;
      }
      assert counted == Places(records);
      NoPlaces(records);
    }

    method IsEmpty() returns (empty: bool)
      ensures empty <==> records == map[]
    {
      empty := records.Keys == {};
    }

    method Clear()
      modifies this
      ensures records == map[]
    {
      records := map[];
    }

    /** A run on the object is a run of the model, so `RunAgrees` holds of what it returns. */
    method Drive(ops: seq<Op>) returns (found: seq<seq<Record>>)
      requires records == map[]
      modifies this
      ensures (records, found) == Run(ops)
    {
      hide Insert, Lookup, RemoveInterface;
      found := [];
      for i := 0 to |ops|
        invariant (records, found) == Run(ops[..i])
      {
        assert ops[..i + 1][..i] == ops[..i];
        match ops[i]
        case InsertOp(key, rdata, ttl, flush, now) => Add(key, rdata, ttl, flush, now);
        case LookupOp(key, now) =>
          var rs := Find(key, now);
          found := found + [rs];
        case RemoveInterfaceOp(interface, _) => DropInterface(interface);
        case FlushOp(_) => Clear();
      }
      assert ops[..|ops|] == ops;
    }
  }

  lemma {:induction false} RowSize(k: Key, n: nat)
    ensures |set i: nat | i < n :: (k, i)| == n
  {
    var row := set i: nat | i < n :: (k, i);
    if n > 0 {
      RowSize(k, n - 1);
      assert row == (set i: nat | i < n - 1 :: (k, i)) + {(k, n - 1)};
    } else {
      assert row == {};
    }
  }

  /** Marks the goodbye of every record with this RDATA. */
  method SayGoodbye(rs: seq<Record>, rdata: seq<Byte>, now: Time) returns (parting: seq<Record>)
    ensures |parting| == |rs| && forall k :: 0 <= k < |rs| ==> parting[k] == Goodbye(rs[k], rdata, now)
  {
    parting := rs;
    for i := 0 to |rs|
      invariant |parting| == |rs|
      invariant forall k :: 0 <= k < i ==> parting[k] == Goodbye(rs[k], rdata, now)
      invariant forall k :: i <= k < |rs| ==> parting[k] == rs[k]
    {
      if parting[i].rdata == rdata {
        var goodbye := now + GRACE;
        if parting[i].expiresAt > goodbye {
          parting := parting[i := parting[i].(expiresAt := goodbye)];
        }
      }
    }
  }

  /** Gives every other record that was not just received one more second. */
  method FlushOthers(rs: seq<Record>, rdata: seq<Byte>, now: Time) returns (flushed: seq<Record>)
    ensures |flushed| == |rs| && forall k :: 0 <= k < |rs| ==> flushed[k] == Flushed(rs[k], rdata, now)
  {
    flushed := rs;
    var grace := now + GRACE;
    for i := 0 to |rs|
      invariant |flushed| == |rs|
      invariant forall k :: 0 <= k < i ==> flushed[k] == Flushed(rs[k], rdata, now)
      invariant forall k :: i <= k < |rs| ==> flushed[k] == rs[k]
    {
      var recently := now < flushed[i].receivedAt || now - flushed[i].receivedAt < GRACE;
      if flushed[i].rdata != rdata && !recently && flushed[i].expiresAt > grace {
        flushed := flushed[i := flushed[i].(expiresAt := grace)];
      }
    }
  }

  /** `retain`. */
  method Sweep(rs: seq<Record>, now: Time) returns (kept: seq<Record>)
    ensures kept == Retain(rs, now)
    ensures forall r :: r in kept <==> r in rs && r.expiresAt > now
  {
    kept := [];
    for i := 0 to |rs|
      invariant kept == Retain(rs[..i], now)
    {
      assert rs[..i + 1][..i] == rs[..i];
      if rs[i].expiresAt > now {
        kept := kept + [rs[i]];
      }
    }
    assert rs[..|rs|] == rs;
    RetainExact(rs, now);
  }

  /** Overwrites the first record with the same RDATA, or pushes. */
  method Store(rs: seq<Record>, r: Record) returns (stored: seq<Record>)
    ensures stored == Put(rs, r)
  {
    for i := 0 to |rs|
      invariant Put(rs, r) == rs[..i] + Put(rs[i..], r)
    {
      PutStep(rs, i, r);
      if rs[i].rdata == r.rdata {
        assert rs[i := r] == rs[..i] + ([r] + rs[i + 1..]);
        return rs[i := r];
      }
    }
    assert rs[..|rs|] == rs && rs[|rs|..] == [];
    stored := rs + [r];
  }

  lemma PutStep(rs: seq<Record>, i: nat, r: Record)
    requires i < |rs|
    ensures rs[i].rdata == r.rdata ==> Put(rs[i..], r) == [r] + rs[i + 1..]
    ensures rs[i].rdata != r.rdata ==> rs[..i] + Put(rs[i..], r) == rs[..i + 1] + Put(rs[i + 1..], r)
  {
    assert rs[i..][0] == rs[i] && rs[i..][1..] == rs[i + 1..];
    assert rs[..i + 1] == rs[..i] + [rs[i]];
    Assoc(rs[..i], [rs[i]], Put(rs[i + 1..], r));
  }
}
