/** The mutable registry of `src/dnssd_full.rs`: maps and counters updated in place. */
module DnsSdRegistry {
  import opened Bytes
  import opened Text
  import opened DnsSd
  import opened DnsSdRename
  import opened DnsSdReplay

  class Registrar {
    var nextRegistration: nat
    var nextSubscription: nat
    var registrations: map<nat, Registration>
    var keys: map<Key, nat>
    var subscriptions: map<nat, Filter>
    var pending: map<nat, seq<BrowseUpdate>>

    constructor ()
      ensures State() == EMPTY
    {
      nextRegistration, nextSubscription := 0, 0;
      registrations, keys, subscriptions, pending := map[], map[], map[], map[];
    }

    ghost function State(): Registry
      reads this
    {
      Registry(nextRegistration, nextSubscription, registrations, keys, subscriptions, pending)
    }

    method NotifyAll(kind: Kind, id: nat, r: Registration)
      modifies this`pending
      ensures State() == Notify(old(State()), kind, id, r)
    {
      var u := BrowseUpdate(kind, id, KeyOf(r));
      var todo := subscriptions.Keys;
      ghost var told := {};
      while todo != {}
        invariant todo <= subscriptions.Keys
        invariant told == Hearers(subscriptions, r) - todo
        invariant pending == Push(old(pending), told, u)
        decreases todo
      {
        var k :| k in todo;
        if Matches(subscriptions[k], r) {
          var queue := Queue(pending, k);
          pending := pending[k := queue + [u]];
          told := told + {k};
        }
        todo := todo - {k};
      }
      assert told == Hearers(subscriptions, r);
    }

    method Register(r: Registration) returns (result: Result<nat>)
      modifies this
      ensures (State(), result) == DnsSd.Register(old(State()), r)
      ensures result.Failure? ==> State() == old(State())
    {
      hide Notify;
      var valid := CheckRegistration(r);
      if valid.Failure? {
        return Failure(valid.error);
      }
      var key := KeyOf(r);
      if key in keys {
        return Failure(DuplicateRegistration);
      }
      nextRegistration := NextId(nextRegistration);
      var id := nextRegistration;
      NotifyAll(Added, id, r);
      assert State() == Notify(old(State()).(nextRegistration := id), Added, id, r);
      keys := keys[key := id];
      registrations := registrations[id := r];
      result := Success(id);
    }

    method RegisterWithAutomaticRename(r: Registration) returns (result: Result<(nat, Instance)>)
      modifies this
      ensures (State(), result) == RegisterRenaming(old(State()), r)
      ensures result.Failure? ==> State() == old(State())
    {
      hide DnsSd.Register, Renamed;
      var base := r.instance;
      var ordinal: U32 := 1;
      while ordinal <= MAX_ORDINAL
        invariant ordinal <= MAX_ORDINAL + 1
        invariant State() == old(State())
        invariant RenameFrom(State(), r, base, ordinal) == RegisterRenaming(old(State()), r)
      {
        var candidate := Success(base);
        if ordinal != 1 {
          candidate := RenameInstance(base, ordinal);
        }
        assert candidate == Candidate(base, ordinal);
        if candidate.Failure? {
          return Failure(candidate.error);
        }
        var named := r.(instance := candidate.value);
        if KeyOf(named) !in keys {
          var id := Register(named);
          result := if id.Success? then Success((id.value, candidate.value)) else Failure(id.error);
          return;
        }
        ordinal := ordinal + 1;
      }
      result := Failure(DuplicateRegistration);
    }

    method Update(id: nat, r: Registration) returns (result: Result<()>)
      modifies this
      ensures (State(), result) == DnsSd.Update(old(State()), id, r)
      ensures result.Failure? ==> State() == old(State())
    {
      hide Notify;
      var valid := CheckRegistration(r);
      if valid.Failure? {
        return Failure(valid.error);
      }
      if id !in registrations {
        return Failure(UnknownRegistration);
      }
      var previous := registrations[id];
      var previousKey, newKey := KeyOf(previous), KeyOf(r);
      if previousKey != newKey && newKey in keys {
        return Failure(DuplicateRegistration);
      }
      NotifyAll(Removed, id, previous);
      keys := keys - {previousKey};
      keys := keys[newKey := id];
      NotifyAll(Added, id, r);
      registrations := registrations[id := r];
      result := Success(());
    }

    method Unregister(id: nat) returns (result: Result<Registration>)
      modifies this
      ensures (State(), result) == DnsSd.Unregister(old(State()), id)
      ensures result.Failure? ==> State() == old(State())
    {
      hide Notify;
      if id !in registrations {
        return Failure(UnknownRegistration);
      }
      var r := registrations[id];
      registrations := registrations - {id};
      keys := keys - {KeyOf(r)};
      NotifyAll(Removed, id, r);
      result := Success(r);
    }

    method Subscribe(f: Filter) returns (id: nat)
      modifies this
      ensures (State(), id) == DnsSd.Subscribe(old(State()), f)
    {
      nextSubscription := NextId(nextSubscription);
      id := nextSubscription;
      var initial := Initial(registrations, f);
      subscriptions := subscriptions[id := f];
      pending := pending[id := initial];
    }

    method Unsubscribe(id: nat)
      modifies this
      ensures State() == DnsSd.Unsubscribe(old(State()), id)
    {
      subscriptions := subscriptions - {id};
      pending := pending - {id};
    }

    method TakeUpdates(id: nat) returns (updates: seq<BrowseUpdate>)
      modifies this
      ensures (State(), updates) == DnsSd.TakeUpdates(old(State()), id)
    {
      updates := [];
      if id in pending {
        updates := pending[id];
        pending := pending[id := []];
      }
    }

    method RemoveInterface(interface: Interface) returns (gone: seq<Registration>)
      modifies this
      ensures (State(), gone) == DnsSd.RemoveInterface(old(State()), interface)
    {
      hide DnsSd.Unregister, Ascending;
      var ours := set i | i in registrations && registrations[i].interface == interface;
      assert ours == InterfaceIds(registrations, interface);
      var ids := InOrder(ours);
      gone := [];
      for k := 0 to |ids|
        invariant (State(), gone) == UnregisterAll(old(State()), ids[..k])
      {
        assert ids[..k + 1][..k] == ids[..k];
        var r := Unregister(ids[k]);
        if r.Success? {
          gone := gone + [r.value];
        }
      }
      assert ids[..|ids|] == ids;
    }
  }

  /** `DnsSdRegistration::validate`. */
  method CheckRegistration(r: Registration) returns (result: Result<()>)
    ensures result == Validate(r)
  {
    if |r.instance| == 0 {
      return Failure(EmptyInstance);
    }
    if r.port == 0 {
      return Failure(InvalidPort);
    }
    result := CheckTxt(r.txt);
    if result.Failure? {
      return;
    }
    var subtypes := r.subtypes;
    while subtypes != {}
      invariant subtypes <= r.subtypes
      invariant forall s :: s in r.subtypes ==> s in subtypes || ServiceLabelValid(s)
      decreases subtypes
    {
      var s :| s in subtypes;
      if !ServiceLabelValid(s) {
        return Failure(InvalidSubtype);
      }
      subtypes := subtypes - {s};
    }
    var addresses := r.addresses;
    while addresses != {}
      invariant addresses <= r.addresses
      invariant forall a :: a in r.addresses ==> a in addresses || AddressFits(r.interface.family, a)
      decreases addresses
    {
      var a :| a in addresses;
      if !AddressFits(r.interface.family, a) {
        return Failure(InvalidHost);
      }
      addresses := addresses - {a};
    }
    result := Success(());
  }

  /** `validate_txt`. */
  method CheckTxt(items: seq<Name>) returns (result: Result<()>)
    ensures result == ValidateTxt(items, 0)
    ensures result.Success? <==> (forall item :: item in items ==> |item| <= 255) && TxtSize(items) <= MAX_TXT_TOTAL
  {
    TxtExact(items, 0);
    var total: nat := 0;
    for k := 0 to |items|
      invariant ValidateTxt(items[k..], total) == ValidateTxt(items, 0)
    {
      assert items[k..][1..] == items[k + 1..];
      if |items[k]| > 255 {
        return Failure(InvalidTxtItem);
      }
      total := total + 1 + |items[k]|;
      if total > MAX_TXT_TOTAL {
        return Failure(TxtTooLarge);
      }
    }
    result := Success(());
  }

  /** `renamed_instance`. */
  method RenameInstance(base: Instance, ordinal: U32) returns (result: Result<Instance>)
    ensures result == Renamed(base, ordinal)
  {
    var suffix := Suffix(ordinal);
    if |suffix| >= 63 {
      return Failure(InstanceTooLong);
    }
    var maximum := 63 - |suffix|;
    var prefix: Name := base;
    if |prefix| > maximum {
      prefix := prefix[..maximum];
      while !Utf8From(prefix, 0) && prefix != []
        invariant TrimToUtf8(prefix) == TrimToUtf8(base[..maximum])
        decreases |prefix|
      {
        prefix := prefix[..|prefix| - 1];
      }
    }
    result := NewInstance(prefix + suffix);
  }

  /** The first updates of a new subscription. */
  method Initial(regs: map<nat, Registration>, f: Filter) returns (initial: seq<BrowseUpdate>)
    ensures initial == InitialUpdates(regs, f)
  {
    var matching := set i | i in regs && Matches(f, regs[i]);
    assert matching == MatchingIds(regs, f);
    var ids := InOrder(matching);
    initial := [];
    hide MatchingIds, Ascending, Matches;
    assert forall id :: id in ids ==> id in regs;
    for k := 0 to |ids|
      invariant initial == Announce(regs, ids[..k])
    {
      assert ids[..k + 1][..k] == ids[..k];
      initial := initial + [BrowseUpdate(Added, ids[k], KeyOf(regs[ids[k]]))];
    }
    assert ids[..|ids|] == ids;
  }

  /** Iterates over the keys of a `BTreeMap`. */
  method InOrder(ids: set<nat>) returns (order: seq<nat>)
    ensures order == Ascending(ids)
    ensures forall id :: id in order <==> id in ids
    ensures forall i, j :: 0 <= i < j < |order| ==> order[i] < order[j]
  {
    order := [];
    var todo := ids;
    while todo != {}
      invariant order + Ascending(todo) == Ascending(ids)
      decreases todo
    {
      ghost var least := Least(todo);
      var m :| m in todo && forall x :: x in todo ==> m <= x;
      assert m == least;
      Assoc(order, [m], Ascending(todo - {m}));
      order := order + [m];
      todo := todo - {m};
    }
    assert order == Ascending(ids);
    AscendingElements(ids);
  }
}
