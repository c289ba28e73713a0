/** What a browse subscriber can rely on: replaying the updates queued for it rebuilds the
    matching registrations, in every run of the registry (`src/dnssd_full.rs`). */
module DnsSdReplay {
  import opened Bytes
  import opened Text
  import opened DnsSd
  import opened DnsSdRename

  /** A subscriber's picture: the key of every service it believes present. */
  type Picture = map<nat, Key>

  /** Applies updates in order; `None` when one adds a service already present or removes one
      that is absent or different. */
  function Replay(updates: seq<BrowseUpdate>): Option<Picture> {
    if updates == [] then Some(map[])
    else
      var u := updates[|updates| - 1];
      match Replay(updates[..|updates| - 1])
      case None => None
      case Some(seen) =>
        if u.kind.Added? then
          if u.id in seen then None else Some(seen[u.id := u.key])
        else
          if u.id in seen && seen[u.id] == u.key then Some(seen - {u.id}) else None
  }

  /** The registrations a filter matches. */
  function Visible(regs: map<nat, Registration>, f: Filter): Picture {
    map id | id in regs && Matches(f, regs[id]) :: KeyOf(regs[id])
  }

  /** The registry together with everything each subscriber has taken from its queue. */
  datatype World = World(s: Registry, taken: map<nat, seq<BrowseUpdate>>)

  datatype Op =
    | RegisterOp(r: Registration)
    | RegisterRenamingOp(r: Registration)
    | UpdateOp(id: nat, r: Registration)
    | UnregisterOp(id: nat)
    | SubscribeOp(f: Filter)
    | UnsubscribeOp(id: nat)
    | TakeOp(id: nat)
    | RemoveInterfaceOp(interface: Interface)

  ghost function Step(w: World, op: Op): World {
    match op
    case RegisterOp(r) => w.(s := Register(w.s, r).0)
    case RegisterRenamingOp(r) => w.(s := RegisterRenaming(w.s, r).0)
    case UpdateOp(id, r) => w.(s := Update(w.s, id, r).0)
    case UnregisterOp(id) => w.(s := Unregister(w.s, id).0)
    case SubscribeOp(f) => w.(s := Subscribe(w.s, f).0)
    case UnsubscribeOp(id) => w.(s := Unsubscribe(w.s, id))
    case TakeOp(id) =>
      var (n, updates) := TakeUpdates(w.s, id);
      World(n, w.taken[id := Queue(w.taken, id) + updates])
    case RemoveInterfaceOp(i) => w.(s := RemoveInterface(w.s, i).0)
  }

  ghost function Run(ops: seq<Op>): World {
    if ops == [] then World(EMPTY, map[]) else Step(Run(ops[..|ops| - 1]), ops[|ops| - 1])
  }

  /** Everything ever queued for a subscription: taken first, then still pending. */
  function Log(w: World, k: nat): seq<BrowseUpdate> {
    Queue(w.taken, k) + Queue(w.s.pending, k)
  }

  /** `keys` is the inverse of `registrations`. */
  ghost predicate Indexed(s: Registry) {
    && (forall id :: id in s.registrations ==>
          KeyOf(s.registrations[id]) in s.keys && s.keys[KeyOf(s.registrations[id])] == id)
    && (forall k :: k in s.keys ==> s.keys[k] in s.registrations && KeyOf(s.registrations[s.keys[k]]) == k)
  }

  /** Queues exist exactly for live subscriptions. */
  ghost predicate QueuesLive(s: Registry) {
    s.pending.Keys == s.subscriptions.Keys
  }

  /** Ids in use have been handed out; at most `n` of each kind. */
  ghost predicate IdsIssued(w: World, n: nat) {
    && w.s.nextRegistration <= n && w.s.nextSubscription <= n
    && (forall id :: id in w.s.registrations ==> id <= w.s.nextRegistration)
    && (forall k :: k in w.s.subscriptions ==> k <= w.s.nextSubscription)
  }

  ghost predicate LogExact(w: World, k: nat)
    requires k in w.s.subscriptions
  {
    Replay(Log(w, k)) == Some(Visible(w.s.registrations, w.s.subscriptions[k]))
  }

  ghost predicate Exact(w: World) {
    forall k :: k in w.s.subscriptions ==> LogExact(w, k)
  }

  /** A subscriber that took from an id before that id was issued took nothing. */
  ghost predicate NothingTakenEarly(w: World) {
    forall k :: k in w.taken && k > w.s.nextSubscription ==> w.taken[k] == []
  }

  ghost predicate Inv(w: World, n: nat) {
    Indexed(w.s) && QueuesLive(w.s) && IdsIssued(w, n) && NothingTakenEarly(w) && Exact(w)
  }

  lemma ReplayLast(log: seq<BrowseUpdate>, u: BrowseUpdate)
    ensures Replay(log + [u]) ==
            match Replay(log)
            case None => None
            case Some(seen) =>
              if u.kind.Added? then (if u.id in seen then None else Some(seen[u.id := u.key]))
              else (if u.id in seen && seen[u.id] == u.key then Some(seen - {u.id}) else None)
  {
    assert (log + [u])[..|log|] == log;
  }

  /** The log of a subscription after a notification. */
  lemma LogAfterNotify(w: World, kind: Kind, id: nat, r: Registration, k: nat)
    requires QueuesLive(w.s) && k in w.s.subscriptions
    ensures Log(w.(s := Notify(w.s, kind, id, r)), k) ==
            if Matches(w.s.subscriptions[k], r) then Log(w, k) + [BrowseUpdate(kind, id, KeyOf(r))] else Log(w, k)
  {
    var u := BrowseUpdate(kind, id, KeyOf(r));
    Assoc(Queue(w.taken, k), Queue(w.s.pending, k), [u]);
  }

  lemma VisibleAdded(regs: map<nat, Registration>, id: nat, r: Registration, f: Filter)
    requires id !in regs
    ensures Visible(regs[id := r], f) ==
            if Matches(f, r) then Visible(regs, f)[id := KeyOf(r)] else Visible(regs, f)
  {}

  lemma VisibleRemoved(regs: map<nat, Registration>, id: nat, f: Filter)
    requires id in regs
    ensures Visible(regs - {id}, f) ==
            if Matches(f, regs[id]) then Visible(regs, f) - {id} else Visible(regs, f)
  {}

  /** Announcing a new registration and then storing it keeps every log exact. */
  lemma NotifyAdded(w: World, id: nat, r: Registration)
    requires QueuesLive(w.s) && Exact(w) && id !in w.s.registrations
    ensures var n := Notify(w.s, Added, id, r);
            QueuesLive(n) && Exact(w.(s := n.(registrations := n.registrations[id := r])))
  {
    var n := Notify(w.s, Added, id, r);
    var w' := w.(s := n.(registrations := n.registrations[id := r]));
    forall k | k in w'.s.subscriptions ensures LogExact(w', k) {
      hide Replay, Visible, Matches, Push, Hearers;
      assert LogExact(w, k);
      assert Log(w', k) == Log(w.(s := n), k);
      LogAfterNotify(w, Added, id, r, k);
      ReplayLast(Log(w, k), BrowseUpdate(Added, id, KeyOf(r)));
      VisibleAdded(w.s.registrations, id, r, w.s.subscriptions[k]);
    }
  }

  /** Announcing a removal and dropping the registration keeps every log exact. */
  lemma NotifyRemoved(w: World, id: nat)
    requires QueuesLive(w.s) && Exact(w) && id in w.s.registrations
    ensures var n := Notify(w.s, Removed, id, w.s.registrations[id]);
            QueuesLive(n) && Exact(w.(s := n.(registrations := n.registrations - {id})))
  {
    var r := w.s.registrations[id];
    var n := Notify(w.s, Removed, id, r);
    var w' := w.(s := n.(registrations := n.registrations - {id}));
    forall k | k in w'.s.subscriptions ensures LogExact(w', k) {
      hide Replay, Visible, Matches, Push, Hearers;
      assert LogExact(w, k);
      assert Log(w', k) == Log(w.(s := n), k);
      LogAfterNotify(w, Removed, id, r, k);
      ReplayLast(Log(w, k), BrowseUpdate(Removed, id, KeyOf(r)));
      VisibleRemoved(w.s.registrations, id, w.s.subscriptions[k]);
    }
  }

  /** `Exact` looks only at registrations, subscriptions, queues and what was taken. */
  lemma ExactFrame(w: World, w': World)
    requires Exact(w) && w'.taken == w.taken
    requires w'.s.registrations == w.s.registrations && w'.s.subscriptions == w.s.subscriptions
    requires w'.s.pending == w.s.pending
    ensures Exact(w')
  {
    forall k | k in w'.s.subscriptions ensures LogExact(w', k) {
      assert LogExact(w, k);
      assert Log(w', k) == Log(w, k);
    }
  }

  /** The index after a new registration under a free key. */
  lemma IndexAdded(s: Registry, s': Registry, id: nat, r: Registration)
    requires Indexed(s) && id !in s.registrations && KeyOf(r) !in s.keys
    requires s'.registrations == s.registrations[id := r] && s'.keys == s.keys[KeyOf(r) := id]
    ensures Indexed(s')
  {
    hide KeyOf;
  }

  /** The index after a registration was replaced. */
  lemma IndexReplaced(s: Registry, s': Registry, id: nat, r: Registration)
    requires Indexed(s) && id in s.registrations
    requires KeyOf(s.registrations[id]) != KeyOf(r) ==> KeyOf(r) !in s.keys
    requires s'.registrations == s.registrations[id := r]
    requires s'.keys == (s.keys - {KeyOf(s.registrations[id])})[KeyOf(r) := id]
    ensures Indexed(s')
  {
    hide KeyOf;
  }

  lemma RegisterKeeps(w: World, r: Registration, n: nat)
    requires Inv(w, n) && n + 1 < ID_LIMIT
    ensures Inv(w.(s := Register(w.s, r).0), n + 1)
  {
    hide Exact, Indexed, Validate, Push, Hearers, KeyOf;
    var (s', res) := Register(w.s, r);
    if res.Success? {
      var id := NextId(w.s.nextRegistration);
      assert id == w.s.nextRegistration + 1 && id !in w.s.registrations;
      var w0 := w.(s := w.s.(nextRegistration := id));
      ExactFrame(w, w0);
      NotifyAdded(w0, id, r);
      var m := Notify(w0.s, Added, id, r);
      ExactFrame(w.(s := m.(registrations := m.registrations[id := r])), w.(s := s'));
      IndexAdded(w.s, s', id, r);
    }
  }

  lemma UnregisterKeeps(w: World, id: nat, n: nat)
    requires Inv(w, n)
    ensures Inv(w.(s := Unregister(w.s, id).0), n)
    ensures Unregister(w.s, id).0.registrations == w.s.registrations - {id}
  {
    hide Exact, Push, Hearers;
    if id in w.s.registrations {
      var r := w.s.registrations[id];
      var s' := Unregister(w.s, id).0;
      NotifyRemoved(w, id);
      var m := Notify(w.s, Removed, id, r);
      ExactFrame(w.(s := m.(registrations := m.registrations - {id})), w.(s := s'));
      assert s'.registrations == w.s.registrations - {id} && s'.keys == w.s.keys - {KeyOf(r)};
    }
  }

  lemma UpdateKeeps(w: World, id: nat, r: Registration, n: nat)
    requires Inv(w, n)
    ensures Inv(w.(s := Update(w.s, id, r).0), n)
  {
    hide Exact, Indexed, Validate, Push, Hearers, KeyOf;
    var (s', res) := Update(w.s, id, r);
    if res.Success? {
      var previous := w.s.registrations[id];
      NotifyRemoved(w, id);
      var a := Notify(w.s, Removed, id, previous);
      var keys := (a.keys - {KeyOf(previous)})[KeyOf(r) := id];
      var w1 := w.(s := a.(registrations := a.registrations - {id}, keys := keys));
      ExactFrame(w.(s := a.(registrations := a.registrations - {id})), w1);
      NotifyAdded(w1, id, r);
      assert w1.s.registrations[id := r] == w.s.registrations[id := r];
      var b := Notify(w1.s, Added, id, r);
      ExactFrame(w1.(s := b.(registrations := b.registrations[id := r])), w.(s := s'));
      IndexReplaced(w.s, s', id, r);
    }
  }

  lemma AppendedPicture(regs: map<nat, Registration>, front: seq<nat>, last: nat)
    requires last in regs && forall id :: id in front ==> id in regs
    ensures (map id | id in front :: KeyOf(regs[id]))[last := KeyOf(regs[last])]
         == map id | id in front + [last] :: KeyOf(regs[id])
  {}

  /** The picture an announcement of distinct ids paints. */
  lemma {:induction false} AnnounceReplay(regs: map<nat, Registration>, ids: seq<nat>)
    requires forall id :: id in ids ==> id in regs
    requires forall i, j :: 0 <= i < j < |ids| ==> ids[i] < ids[j]
    ensures Replay(Announce(regs, ids)) == Some(map id | id in ids :: KeyOf(regs[id]))
  {
    if ids != [] {
      var front, last := ids[..|ids| - 1], ids[|ids| - 1];
      AnnounceReplay(regs, front);
      hide Replay, KeyOf;
      ReplayLast(Announce(regs, front), BrowseUpdate(Added, last, KeyOf(regs[last])));
      AppendedPicture(regs, front, last);
      assert ids == front + [last];
    }
  }

  lemma InitialExact(regs: map<nat, Registration>, f: Filter)
    ensures Replay(InitialUpdates(regs, f)) == Some(Visible(regs, f))
  {
    hide Replay, Announce, Ascending, Matches, KeyOf;
    var ids := Ascending(MatchingIds(regs, f));
    AscendingElements(MatchingIds(regs, f));
    AnnounceReplay(regs, ids);
    assert (map id | id in ids :: KeyOf(regs[id])) == Visible(regs, f);
  }

  lemma SubscribeKeeps(w: World, f: Filter, n: nat)
    requires Inv(w, n) && n + 1 < ID_LIMIT
    ensures Inv(w.(s := Subscribe(w.s, f).0), n + 1)
  {
    var (s', id) := Subscribe(w.s, f);
    var w' := w.(s := s');
    forall k | k in s'.subscriptions ensures LogExact(w', k) {
      if k == id {
        InitialExact(w.s.registrations, f);
        assert Queue(w.taken, id) == [];
        assert Log(w', id) == InitialUpdates(w.s.registrations, f);
      } else {
        assert LogExact(w, k);
        assert Log(w', k) == Log(w, k);
      }
    }
  }

  lemma UnsubscribeKeeps(w: World, id: nat, n: nat)
    requires Inv(w, n)
    ensures Inv(w.(s := Unsubscribe(w.s, id)), n)
  {
    var w' := w.(s := Unsubscribe(w.s, id));
    forall k | k in w'.s.subscriptions ensures LogExact(w', k) {
      assert LogExact(w, k);
      assert Log(w', k) == Log(w, k);
    }
  }

  /** Taking moves updates from pending to taken and loses none. */
  lemma TakenLog(w: World, id: nat, k: nat)
    ensures Log(Step(w, TakeOp(id)), k) == Log(w, k)
  {}

  lemma TakeKeeps(w: World, id: nat, n: nat)
    requires Inv(w, n)
    ensures Inv(Step(w, TakeOp(id)), n)
  {
    hide Replay, Visible, Log;
    var w' := Step(w, TakeOp(id));
    forall k | k in w'.s.subscriptions ensures LogExact(w', k) {
      assert LogExact(w, k);
      TakenLog(w, id, k);
    }
    assert id in w.s.pending ==> id <= w.s.nextSubscription;
  }

  lemma {:induction false} UnregisterAllKeeps(w: World, ids: seq<nat>, n: nat)
    requires Inv(w, n)
    ensures Inv(w.(s := UnregisterAll(w.s, ids).0), n)
    ensures UnregisterAll(w.s, ids).0.registrations == w.s.registrations - (set id | id in ids)
  {
    hide Inv, Unregister;
    if ids != [] {
      var front, last := ids[..|ids| - 1], ids[|ids| - 1];
      UnregisterAllKeeps(w, front, n);
      var w1 := w.(s := UnregisterAll(w.s, front).0);
      UnregisterKeeps(w1, last, n);
      assert (set id | id in ids) == (set id | id in front) + {last};
    }
  }

  /** Exactly the registrations of the interface are gone. */
  lemma RemoveInterfaceKeeps(w: World, interface: Interface, n: nat)
    requires Inv(w, n)
    ensures Inv(w.(s := RemoveInterface(w.s, interface).0), n)
    ensures RemoveInterface(w.s, interface).0.registrations ==
            map id | id in w.s.registrations && w.s.registrations[id].interface != interface :: w.s.registrations[id]
  {
    hide Inv, UnregisterAll, Ascending;
    var gone := InterfaceIds(w.s.registrations, interface);
    AscendingElements(gone);
    UnregisterAllKeeps(w, Ascending(gone), n);
    assert (set id | id in Ascending(gone)) == gone;
  }

  lemma RenamingKeeps(w: World, r: Registration, n: nat)
    requires Inv(w, n) && n + 1 < ID_LIMIT
    ensures Inv(w.(s := RegisterRenaming(w.s, r).0), n + 1)
  {
    var free := FirstFree(w.s, r, 1);
    RenameFromChooses(w.s, r, 1, free);
    if free <= MAX_ORDINAL {
      RegisterKeeps(w, r.(instance := Candidate(r.instance, free).value), n);
    }
  }

  lemma StepKeeps(w: World, op: Op, n: nat)
    requires Inv(w, n) && n + 1 < ID_LIMIT
    ensures Inv(Step(w, op), n + 1)
  {
    match op
    case RegisterOp(r) => RegisterKeeps(w, r, n);
    case RegisterRenamingOp(r) => RenamingKeeps(w, r, n);
    case UpdateOp(id, r) => UpdateKeeps(w, id, r, n);
    case UnregisterOp(id) => UnregisterKeeps(w, id, n);
    case SubscribeOp(f) => SubscribeKeeps(w, f, n);
    case UnsubscribeOp(id) => UnsubscribeKeeps(w, id, n);
    case TakeOp(id) => TakeKeeps(w, id, n);
    case RemoveInterfaceOp(i) => RemoveInterfaceKeeps(w, i, n);
  }

  /** In every run that hands out fewer than 2^64 ids the index is exact, queues exist exactly
      for live subscriptions, and every subscriber's replayed log is its filtered registry. */
  lemma {:induction false} RunKeeps(ops: seq<Op>)
    requires |ops| < ID_LIMIT
    ensures Inv(Run(ops), |ops|)
  {
    if ops != [] {
      RunKeeps(ops[..|ops| - 1]);
      StepKeeps(Run(ops[..|ops| - 1]), ops[|ops| - 1], |ops| - 1);
    }
  }

  /** The promise to a subscriber, spelled out: after any run, replaying all it ever got and
      has still to get never trips and yields exactly the registrations its filter matches. */
  lemma SubscriberSeesRegistry(ops: seq<Op>, k: nat)
    requires |ops| < ID_LIMIT && k in Run(ops).s.subscriptions
    ensures var w := Run(ops);
            Replay(Log(w, k)) == Some(Visible(w.s.registrations, w.s.subscriptions[k]))
  {
    RunKeeps(ops);
    assert LogExact(Run(ops), k);
  }
}
