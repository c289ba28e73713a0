/** DNS-SD registrations, browse filters and the registry's operations as functions of its
    state (`src/dnssd_full.rs`). `DnsSdRegistry` proves the mutable registry equal to them. */
module DnsSd {
  import opened Bytes
  import opened Text

  type Name = seq<Byte>

  /** `DnsSdInstance`: its constructor admits 1 to 63 octets, none of them zero. */
  type Instance = b: Name | ValidInstance(b) witness [65]

  predicate ValidInstance(b: Name) {
    1 <= |b| <= 63 && 0 !in b
  }

  datatype Family = Ipv4 | Ipv6
  datatype Interface = Interface(ifindex: U32, family: Family)
  datatype Address = V4(octets: Name) | V6(octets: Name)
  datatype ServiceType = ServiceType(service: Name, protocol: Name)

  datatype Registration = Registration(
    instance: Instance,
    serviceType: ServiceType,
    domain: seq<Name>,
    host: seq<Name>,
    port: U16,
    priority: U16,
    weight: U16,
    txt: seq<Name>,
    subtypes: set<Name>,
    addresses: set<Address>,
    interface: Interface,
    ttl: U32)

  datatype Error =
    | EmptyInstance | InstanceTooLong | InvalidInstance
    | InvalidPort | InvalidTxtItem | TxtTooLarge | InvalidSubtype | InvalidHost
    | DuplicateRegistration | UnknownRegistration

  datatype Result<+T> = Success(value: T) | Failure(error: Error) {
    predicate IsFailure() { Failure? }
    function PropagateFailure<U>(): Result<U> requires Failure? { Failure(error) }
    function Extract(): T requires Success? { value }
  }

  const MAX_TXT_TOTAL := 1300

  predicate Alphanumeric(b: Byte) {
    48 <= b <= 57 || 65 <= b <= 90 || 97 <= b <= 122
  }

  /** `service_label_is_valid`, which also decides subtypes. */
  predicate ServiceLabelValid(s: Name) {
    && 2 <= |s| <= 16
    && s[0] == 95
    && (forall i :: 1 <= i < |s| ==> Alphanumeric(s[i]) || s[i] == 45)
    && s[1] != 45
    && s[|s| - 1] != 45
  }

  /** `validate_txt`, with the octets counted so far. */
  function ValidateTxt(items: seq<Name>, total: nat): Result<()> {
    if items == [] then Success(())
    else if |items[0]| > 255 then Failure(InvalidTxtItem)
    else if total + 1 + |items[0]| > MAX_TXT_TOTAL then Failure(TxtTooLarge)
    else ValidateTxt(items[1..], total + 1 + |items[0]|)
  }

  /** The octets of a TXT record: a length octet and the text of each item. */
  function TxtSize(items: seq<Name>): nat {
    if items == [] then 0 else 1 + |items[0]| + TxtSize(items[1..])
  }

  /** Accepted are exactly items of at most 255 octets that take at most 1300 in all. */
  lemma {:induction false} TxtExact(items: seq<Name>, total: nat)
    ensures ValidateTxt(items, total).Success? <==>
            (forall item :: item in items ==> |item| <= 255) && (items == [] || total + TxtSize(items) <= MAX_TXT_TOTAL)
  {
    if items != [] {
      TxtExact(items[1..], total + 1 + |items[0]|);
      assert forall item :: item in items <==> item == items[0] || item in items[1..];
    }
  }

  predicate AddressFits(f: Family, a: Address) {
    match f
    case Ipv4 => a.V4?
    case Ipv6 => a.V6?
  }

  function Validate(r: Registration): Result<()> {
    if |r.instance| == 0 then Failure(EmptyInstance)
    else if r.port == 0 then Failure(InvalidPort)
    else
      var _ :- ValidateTxt(r.txt, 0);
      if exists s :: s in r.subtypes && !ServiceLabelValid(s) then Failure(InvalidSubtype)
      else if exists a :: a in r.addresses && !AddressFits(r.interface.family, a) then Failure(InvalidHost)
      else Success(())
  }

  datatype Key = Key(interface: Interface, instance: Instance, serviceType: ServiceType, domain: seq<Name>)

  function KeyOf(r: Registration): Key {
    Key(r.interface, r.instance, r.serviceType, r.domain)
  }

  datatype Kind = Added | Removed

  datatype BrowseUpdate = BrowseUpdate(kind: Kind, id: nat, key: Key)

  datatype Filter = Filter(serviceType: ServiceType, domain: seq<Name>, interface: Option<Interface>)

  predicate Matches(f: Filter, r: Registration) {
    && f.serviceType == r.serviceType
    && f.domain == r.domain
    && (f.interface.Some? ==> f.interface.value == r.interface)
  }

  datatype Registry = Registry(
    nextRegistration: nat,
    nextSubscription: nat,
    registrations: map<nat, Registration>,
    keys: map<Key, nat>,
    subscriptions: map<nat, Filter>,
    pending: map<nat, seq<BrowseUpdate>>)

  const EMPTY := Registry(0, 0, map[], map[], map[], map[])

  const ID_LIMIT: nat := 0x1_0000_0000_0000_0000

  /** `wrapping_add(1).max(1)` on 64 bits. */
  function NextId(n: nat): nat {
    var m := (n + 1) % ID_LIMIT;
    if m == 0 then 1 else m
  }

  function Queue(pending: map<nat, seq<BrowseUpdate>>, k: nat): seq<BrowseUpdate> {
    if k in pending then pending[k] else []
  }

  /** The subscriptions that hear about a registration. */
  function Hearers(subs: map<nat, Filter>, r: Registration): set<nat> {
    set k | k in subs && Matches(subs[k], r)
  }

  function Push(pending: map<nat, seq<BrowseUpdate>>, to: set<nat>, u: BrowseUpdate): map<nat, seq<BrowseUpdate>> {
    map k | k in pending.Keys + to :: if k in to then Queue(pending, k) + [u] else pending[k]
  }

  function Notify(s: Registry, kind: Kind, id: nat, r: Registration): Registry {
    s.(pending := Push(s.pending, Hearers(s.subscriptions, r), BrowseUpdate(kind, id, KeyOf(r))))
  }

  function Register(s: Registry, r: Registration): (Registry, Result<nat>) {
    var valid := Validate(r);
    if valid.Failure? then (s, Failure(valid.error))
    else if KeyOf(r) in s.keys then (s, Failure(DuplicateRegistration))
    else
      var id := NextId(s.nextRegistration);
      var n := Notify(s.(nextRegistration := id), Added, id, r);
      (n.(keys := n.keys[KeyOf(r) := id], registrations := n.registrations[id := r]), Success(id))
  }

  function Update(s: Registry, id: nat, r: Registration): (Registry, Result<()>) {
    var valid := Validate(r);
    if valid.Failure? then (s, Failure(valid.error))
    else if id !in s.registrations then (s, Failure(UnknownRegistration))
    else
      var previous := s.registrations[id];
      if KeyOf(previous) != KeyOf(r) && KeyOf(r) in s.keys then (s, Failure(DuplicateRegistration))
      else
        var n := Notify(s, Removed, id, previous);
        var m := Notify(n.(keys := (n.keys - {KeyOf(previous)})[KeyOf(r) := id]), Added, id, r);
        (m.(registrations := m.registrations[id := r]), Success(()))
  }

  function Unregister(s: Registry, id: nat): (Registry, Result<Registration>) {
    if id !in s.registrations then (s, Failure(UnknownRegistration))
    else
      var r := s.registrations[id];
      var n := s.(registrations := s.registrations - {id}, keys := s.keys - {KeyOf(r)});
      (Notify(n, Removed, id, r), Success(r))
  }

  ghost function Least(ids: set<nat>): (m: nat)
    requires ids != {}
    ensures m in ids && forall x :: x in ids ==> m <= x
  {
    var x :| x in ids;
    var rest := ids - {x};
    assert forall y :: y in ids ==> y == x || y in rest;
    if rest == {} then x
    else
      var y := Least(rest);
      if x < y then x else y
  }

  /** The iteration order of a `BTreeMap` keyed by these ids. */
  ghost function Ascending(ids: set<nat>): seq<nat> {
    if ids == {} then [] else [Least(ids)] + Ascending(ids - {Least(ids)})
  }

  ghost function MatchingIds(regs: map<nat, Registration>, f: Filter): set<nat> {
    set id | id in regs && Matches(f, regs[id])
  }

  /** One `Added` update for each of the ids, in order. */
  ghost function Announce(regs: map<nat, Registration>, ids: seq<nat>): seq<BrowseUpdate>
    requires forall id :: id in ids ==> id in regs
  {
    if ids == [] then []
    else Announce(regs, ids[..|ids| - 1]) + [BrowseUpdate(Added, ids[|ids| - 1], KeyOf(regs[ids[|ids| - 1]]))]
  }

  lemma ConsAscends(m: nat, rest: seq<nat>, ids: set<nat>)
    requires m in ids && (forall x :: x in ids ==> m <= x)
    requires |rest| == |ids| - 1 && (forall x :: x in rest <==> x in ids - {m})
    requires forall i, j :: 0 <= i < j < |rest| ==> rest[i] < rest[j]
    ensures |[m] + rest| == |ids| && (forall x :: x in [m] + rest <==> x in ids)
    ensures forall i, j :: 0 <= i < j < |[m] + rest| ==> ([m] + rest)[i] < ([m] + rest)[j]
  {
    forall j | 0 <= j < |rest| ensures m < rest[j] {
      assert rest[j] in rest;
    }
  }

  lemma {:induction false} AscendingElements(ids: set<nat>)
    ensures |Ascending(ids)| == |ids|
    ensures forall x :: x in Ascending(ids) <==> x in ids
    ensures forall i, j :: 0 <= i < j < |Ascending(ids)| ==> Ascending(ids)[i] < Ascending(ids)[j]
  {
    if ids != {} {
      hide Least;
      var m := Least(ids);
      AscendingElements(ids - {m});
      ConsAscends(m, Ascending(ids - {m}), ids);
    }
  }

  ghost function InitialUpdates(regs: map<nat, Registration>, f: Filter): seq<BrowseUpdate> {
    AscendingElements(MatchingIds(regs, f));
    Announce(regs, Ascending(MatchingIds(regs, f)))
  }

  ghost function Subscribe(s: Registry, f: Filter): (Registry, nat) {
    var id := NextId(s.nextSubscription);
    (s.(nextSubscription := id, subscriptions := s.subscriptions[id := f],
        pending := s.pending[id := InitialUpdates(s.registrations, f)]), id)
  }

  function Unsubscribe(s: Registry, id: nat): Registry {
    s.(subscriptions := s.subscriptions - {id}, pending := s.pending - {id})
  }

  function TakeUpdates(s: Registry, id: nat): (Registry, seq<BrowseUpdate>) {
    if id in s.pending then (s.(pending := s.pending[id := []]), s.pending[id]) else (s, [])
  }

  ghost function InterfaceIds(regs: map<nat, Registration>, interface: Interface): set<nat> {
    set id | id in regs && regs[id].interface == interface
  }

  /** Unregisters the ids in order and lists what was removed. */
  function UnregisterAll(s: Registry, ids: seq<nat>): (Registry, seq<Registration>) {
    if ids == [] then (s, [])
    else
      var (n, gone) := UnregisterAll(s, ids[..|ids| - 1]);
      var (m, r) := Unregister(n, ids[|ids| - 1]);
      (m, if r.Success? then gone + [r.value] else gone)
  }

  ghost function RemoveInterface(s: Registry, interface: Interface): (Registry, seq<Registration>) {
    UnregisterAll(s, Ascending(InterfaceIds(s.registrations, interface)))
  }
}
