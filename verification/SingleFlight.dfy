/** Coalescing of concurrent fetches for one key: `get_or_fetch` of `src/cache_x.rs` as a
    transition system over its atomic steps, without cancellation of callers. */
module SingleFlight {
  import opened Bytes
  import opened Cache

  datatype FetchErr = Upstream | Timeout | LeaderFailed | CoalesceDropped | PolicyDenied

  datatype Outcome = Ok(entry: Entry) | Err(error: FetchErr)

  /** What a leader sends on its broadcast channel. */
  datatype Message = Entry_(entry: Entry) | Failure

  function MessageOf(o: Outcome): Message {
    match o
    case Ok(e) => Entry_(e)
    case Err(_) => Failure
  }

  /** What a follower makes of a message. */
  function Received(m: Message): Outcome {
    match m
    case Entry_(e) => Ok(e)
    case Failure => Err(LeaderFailed)
  }

  const CAPACITY := 16

  /** A broadcast channel; its log is every message ever sent on it. */
  datatype Channel = Channel(key: Key, leader: nat, log: seq<Message>)

  datatype Role = FromCache | AsLeader(channel: nat) | AsFollower(channel: nat)

  datatype Phase =
    | Start
    | Missed
    | Waiting(channel: nat, position: nat)
    | Leading(channel: nat)
    | Fetched(channel: nat, outcome: Outcome)
    | Publishing(channel: nat, publish: nat, outcome: Outcome)
    | Finished(role: Role, outcome: Outcome)

  datatype Caller = Caller(key: Key, phase: Phase)

  datatype State = State(flights: map<Key, nat>, channels: seq<Channel>, callers: seq<Caller>)

  datatype Event =
    | Hit(i: nat, entry: Entry)
    | MissAt(i: nat)
    | JoinOrLead(i: nat)
    | FetchReturns(i: nat, outcome: Outcome)
    | RemoveFlight(i: nat)
    | Publish(i: nat)
    | Receive(i: nat)

  /** A sender is left: the flight is registered or its leader holds the clone it will publish on. */
  ghost predicate Open(s: State, ch: nat) {
    || (exists k :: k in s.flights && s.flights[k] == ch)
    || (exists i :: 0 <= i < |s.callers| && s.callers[i].phase.Publishing? && s.callers[i].phase.publish == ch)
  }

  ghost predicate Enabled(s: State, e: Event) {
    && e.i < |s.callers|
    && var p := s.callers[e.i].phase;
    match e
    case Hit(_, _) => p.Start?
    case MissAt(_) => p.Start?
    case JoinOrLead(_) => p.Missed?
    case FetchReturns(_, _) => p.Leading?
    case RemoveFlight(_) => p.Fetched? && s.callers[e.i].key in s.flights
    case Publish(_) => p.Publishing? && p.publish < |s.channels|
    case Receive(_) =>
      p.Waiting? && p.channel < |s.channels| && p.position <= |s.channels[p.channel].log| &&
      (p.position < |s.channels[p.channel].log| || !Open(s, p.channel))
  }

  ghost function Go(s: State, i: nat, phase: Phase): State
    requires i < |s.callers|
  {
    s.(callers := s.callers[i := s.callers[i].(phase := phase)])
  }

  ghost function Apply(s: State, e: Event): State
    requires Enabled(s, e)
  {
    var c := s.callers[e.i];
    match e
    case Hit(i, entry) => Go(s, i, Finished(FromCache, Ok(entry)))
    case MissAt(i) => Go(s, i, Missed)
    case JoinOrLead(i) =>
      if c.key in s.flights && s.flights[c.key] < |s.channels| then
        Go(s, i, Waiting(s.flights[c.key], |s.channels[s.flights[c.key]].log|))
      else
        Go(s.(channels := s.channels + [Channel(c.key, i, [])], flights := s.flights[c.key := |s.channels|]),
           i, Leading(|s.channels|))
    case FetchReturns(i, outcome) => Go(s, i, Fetched(c.phase.channel, outcome))
    case RemoveFlight(i) =>
      Go(s.(flights := s.flights - {c.key}), i, Publishing(c.phase.channel, s.flights[c.key], c.phase.outcome))
    case Publish(i) =>
      var ch := c.phase.publish;
      Go(s.(channels := s.channels[ch := s.channels[ch].(log := s.channels[ch].log + [MessageOf(c.phase.outcome)])]),
         i, Finished(AsLeader(c.phase.channel), c.phase.outcome))
    case Receive(i) =>
      var log := s.channels[c.phase.channel].log;
      Go(s, i, Finished(AsFollower(c.phase.channel),
                        if c.phase.position < |log| &&
                            |log| - c.phase.position <= CAPACITY then Received(log[c.phase.position])
                        else Err(CoalesceDropped)))
  }

  ghost function Initial(keys: seq<Key>): State {
    State(map[], [], seq(|keys|, i requires 0 <= i < |keys| => Caller(keys[i], Start)))
  }

  /** The state after a sequence of events, if each was enabled when it happened. */
  ghost function Run(keys: seq<Key>, events: seq<Event>): Option<State> {
    if events == [] then Some(Initial(keys))
    else
      var before, e := Run(keys, events[..|events| - 1]), events[|events| - 1];
      if before.Some? && Enabled(before.value, e) then Some(Apply(before.value, e)) else None
  }

  /** Caller `i` leads the flight on channel `ch` and has not published yet. */
  predicate LeadsOn(s: State, i: nat, ch: nat) {
    && i < |s.callers|
    && var p := s.callers[i].phase;
    (p.Leading? || p.Fetched? || p.Publishing?) && p.channel == ch
  }

  /** Registered: the flight still stands in the table. */
  predicate Registered(s: State, i: nat) {
    i < |s.callers| && (s.callers[i].phase.Leading? || s.callers[i].phase.Fetched?)
  }

  /** A flight in the table belongs to the registered leader of its key. */
  ghost predicate FlightsLed(s: State) {
    forall k :: k in s.flights ==>
      && s.flights[k] < |s.channels|
      && s.channels[s.flights[k]].key == k
      && Registered(s, s.channels[s.flights[k]].leader)
      && s.callers[s.channels[s.flights[k]].leader].phase.channel == s.flights[k]
  }

  /** A channel is led by the caller it names, until that caller has published on it. */
  ghost predicate ChannelSound(s: State, ch: nat)
    requires ch < |s.channels|
  {
    var c := s.channels[ch];
    && c.leader < |s.callers| && s.callers[c.leader].key == c.key
    && (c.log == [] ==> LeadsOn(s, c.leader, ch))
    && (c.log != [] ==>
          var p := s.callers[c.leader].phase;
          p.Finished? && p.role == AsLeader(ch) && c.log == [MessageOf(p.outcome)])
  }

  ghost predicate CallerSound(s: State, i: nat)
    requires i < |s.callers|
  {
    var c := s.callers[i];
    match c.phase
    case Start => true
    case Missed => true
    case Waiting(ch, position) => position == 0 && ch < |s.channels| && s.channels[ch].key == c.key
    case Leading(ch) => ch < |s.channels| && s.channels[ch].leader == i && s.channels[ch].log == [] &&
        c.key in s.flights && s.flights[c.key] == ch
    case Fetched(ch, _) => ch < |s.channels| && s.channels[ch].leader == i && s.channels[ch].log == [] &&
        c.key in s.flights && s.flights[c.key] == ch
    case Publishing(ch, publish, _) => publish == ch < |s.channels| && s.channels[ch].leader == i &&
        s.channels[ch].log == []
    case Finished(FromCache, o) => o.Ok?
    case Finished(AsLeader(ch), o) => ch < |s.channels| && s.channels[ch].leader == i && s.channels[ch].log ==
        [MessageOf(o)]
    case Finished(AsFollower(ch), o) =>
      ch < |s.channels| && s.channels[ch].key == c.key && |s.channels[ch].log| == 1 && o ==
          Received(s.channels[ch].log[0])
  }

  ghost predicate Inv(s: State) {
    && FlightsLed(s)
    && (forall ch :: 0 <= ch < |s.channels| ==> ChannelSound(s, ch))
    && (forall i :: 0 <= i < |s.callers| ==> CallerSound(s, i))
  }

  lemma InitialInv(keys: seq<Key>)
    ensures Inv(Initial(keys))
  {}

  lemma ChannelsKept(s: State, e: Event, ch: nat)
    requires Inv(s) && Enabled(s, e) && ch < |Apply(s, e).channels|
    ensures ChannelSound(Apply(s, e), ch)
  {
    assert CallerSound(s, e.i);
    if ch < |s.channels| {
      assert ChannelSound(s, ch);
    }
  }

  lemma ActorKept(s: State, e: Event)
    requires Inv(s) && Enabled(s, e)
    ensures CallerSound(Apply(s, e), e.i)
  {
    var c := s.callers[e.i];
    assert CallerSound(s, e.i);
    match e
    case Hit(_, _) =>
    case MissAt(_) =>
    case JoinOrLead(_) =>
      if c.key in s.flights {
        assert CallerSound(s, s.channels[s.flights[c.key]].leader);
      }
    case FetchReturns(_, _) =>
    case RemoveFlight(_) =>
    case Publish(_) =>
    case Receive(_) =>
      assert ChannelSound(s, c.phase.channel);
      if s.channels[c.phase.channel].log == [] {
        StaysOpen(s, c.phase.channel);
      }
  }

  /** A step leaves the other callers as they were. */
  lemma BystanderKept(s: State, e: Event, j: nat)
    requires Inv(s) && Enabled(s, e) && j < |s.callers| && j != e.i
    ensures CallerSound(Apply(s, e), j)
  {
    hide FlightsLed;
    assert CallerSound(s, e.i);
    assert CallerSound(s, j);
    var p := s.callers[j].phase;
    if p.Leading? || p.Fetched? {
      assert ChannelSound(s, p.channel);
    }
    if e.RemoveFlight? {
      assert ChannelSound(s, s.callers[e.i].phase.channel);
    }
  }

  /** A channel nobody has published on keeps a sender. */
  lemma StaysOpen(s: State, ch: nat)
    requires Inv(s) && ch < |s.channels| && s.channels[ch].log == []
    ensures Open(s, ch)
  {
    assert ChannelSound(s, ch);
    var l := s.channels[ch].leader;
    assert CallerSound(s, l);
  }

  lemma FlightsKept(s: State, e: Event)
    requires Inv(s) && Enabled(s, e)
    ensures FlightsLed(Apply(s, e))
  {
    var s' := Apply(s, e);
    assert CallerSound(s, e.i);
    forall k | k in s'.flights
      ensures
        && s'.flights[k] < |s'.channels|
        && s'.channels[s'.flights[k]].key == k
        && Registered(s', s'.channels[s'.flights[k]].leader)
        && s'.callers[s'.channels[s'.flights[k]].leader].phase.channel == s'.flights[k]
    {
      if k in s.flights {
        assert ChannelSound(s, s.flights[k]);
      }
    }
  }

  lemma StepKeeps(s: State, e: Event)
    requires Inv(s) && Enabled(s, e)
    ensures Inv(Apply(s, e))
  {
    hide CallerSound, ChannelSound, FlightsLed;
    FlightsKept(s, e);
    forall ch | 0 <= ch < |Apply(s, e).channels| ensures ChannelSound(Apply(s, e), ch) {
      ChannelsKept(s, e, ch);
    }
    forall j | 0 <= j < |Apply(s, e).callers| ensures CallerSound(Apply(s, e), j) {
      if j == e.i {
        ActorKept(s, e);
      } else {
        BystanderKept(s, e, j);
      }
    }
  }

  lemma {:induction false} RunKeeps(keys: seq<Key>, events: seq<Event>)
    requires Run(keys, events).Some?
    ensures Inv(Run(keys, events).value) && |Run(keys, events).value.callers| == |keys|
  {
    if events == [] {
      InitialInv(keys);
    } else {
      RunKeeps(keys, events[..|events| - 1]);
      StepKeeps(Run(keys, events[..|events| - 1]).value, events[|events| - 1]);
    }
  }

  /** In every run a key has at most one registered leader. */
  lemma OneLeaderPerKey(keys: seq<Key>, events: seq<Event>, i: nat, j: nat)
    requires Run(keys, events).Some?
    requires var s := Run(keys, events).value;
             Registered(s, i) && Registered(s, j) && s.callers[i].key == s.callers[j].key
    ensures i == j
  {
    RunKeeps(keys, events);
    var s := Run(keys, events).value;
    assert CallerSound(s, i) && CallerSound(s, j);
  }

  /** In every run a finished follower holds exactly what the leader it joined ended with: the
      same entry, or `LeaderFailed` if that leader failed. It is never dropped. */
  lemma FollowersShareOutcome(keys: seq<Key>, events: seq<Event>, i: nat)
    requires Run(keys, events).Some? && i < |Run(keys, events).value.callers|
    requires var p := Run(keys, events).value.callers[i].phase; p.Finished? && p.role.AsFollower?
    ensures var s := Run(keys, events).value;
            var ch := s.callers[i].phase.role.channel;
            && ch < |s.channels| && s.channels[ch].leader < |s.callers|
            && var leader := s.callers[s.channels[ch].leader];
            && leader.key == s.callers[i].key
            && leader.phase.Finished? && leader.phase.role == AsLeader(ch)
            && s.callers[i].phase.outcome == Received(MessageOf(leader.phase.outcome))
            && s.callers[i].phase.outcome != Err(CoalesceDropped)
  {
    RunKeeps(keys, events);
    var s := Run(keys, events).value;
    assert CallerSound(s, i);
    assert ChannelSound(s, s.callers[i].phase.role.channel);
  }

  /** Once every caller has finished no flight remains. */
  lemma NoFlightRemains(keys: seq<Key>, events: seq<Event>)
    requires Run(keys, events).Some?
    requires forall c :: c in Run(keys, events).value.callers ==> c.phase.Finished?
    ensures Run(keys, events).value.flights == map[]
  {
    RunKeeps(keys, events);
    var s := Run(keys, events).value;
    assert forall k :: k !in s.flights;
  }

  /** The next step of a caller that need not wait for another. */
  ghost function OwnStep(s: State, i: nat): Event
    requires i < |s.callers|
  {
    match s.callers[i].phase
    case Start => MissAt(i)
    case Missed => JoinOrLead(i)
    case Leading(_) => FetchReturns(i, Err(Timeout))
    case Fetched(_, _) => RemoveFlight(i)
    case Publishing(_, _, _) => Publish(i)
    case Waiting(_, _) => Receive(i)
    case Finished(_, _) => Receive(i)
  }

  /** No run deadlocks: while a caller is unfinished some step is enabled, its own or that of
      the leader it waits for. */
  lemma NeverStuck(keys: seq<Key>, events: seq<Event>, i: nat) returns (e: Event)
    requires Run(keys, events).Some? && i < |Run(keys, events).value.callers|
    requires !Run(keys, events).value.callers[i].phase.Finished?
    ensures Enabled(Run(keys, events).value, e)
  {
    RunKeeps(keys, events);
    var s := Run(keys, events).value;
    assert CallerSound(s, i);
    var p := s.callers[i].phase;
    if p.Waiting? && s.channels[p.channel].log == [] {
      assert ChannelSound(s, p.channel);
      assert CallerSound(s, s.channels[p.channel].leader);
      e := OwnStep(s, s.channels[p.channel].leader);
    } else {
      e := OwnStep(s, i);
    }
  }

  function Rank(p: Phase): nat {
    match p
    case Start => 5
    case Missed => 4
    case Leading(_) => 3
    case Fetched(_, _) => 2
    case Publishing(_, _, _) => 1
    case Waiting(_, _) => 1
    case Finished(_, _) => 0
  }

  function TotalRank(callers: seq<Caller>): nat {
    if callers == [] then 0 else TotalRank(callers[..|callers| - 1]) + Rank(callers[|callers| - 1].phase)
  }

  lemma {:induction false} TotalRankUpdate(callers: seq<Caller>, i: nat, c: Caller)
    requires i < |callers|
    ensures TotalRank(callers[i := c]) == TotalRank(callers) - Rank(callers[i].phase) + Rank(c.phase)
  {
    var n := |callers| - 1;
    if i == n {
      assert callers[i := c][..n] == callers[..n];
    } else {
      assert callers[i := c][..n] == callers[..n][i := c];
      TotalRankUpdate(callers[..n], i, c);
    }
  }

  lemma {:induction false} StartRank(keys: seq<Key>, n: nat)
    requires n <= |keys|
    ensures TotalRank(Initial(keys).callers[..n]) == 5 * n
  {
    if n > 0 {
      StartRank(keys, n - 1);
      assert Initial(keys).callers[..n][..n - 1] == Initial(keys).callers[..n - 1];
    }
  }

  lemma StepRank(s: State, e: Event)
    requires Enabled(s, e)
    ensures TotalRank(Apply(s, e).callers) < TotalRank(s.callers)
  {
    hide TotalRank;
    TotalRankUpdate(s.callers, e.i, Apply(s, e).callers[e.i]);
    assert Apply(s, e).callers == s.callers[e.i := Apply(s, e).callers[e.i]];
  }

  /** Every run is short: at most five steps for each caller. */
  lemma {:induction false} RunsAreShort(keys: seq<Key>, events: seq<Event>)
    requires Run(keys, events).Some?
    ensures |events| + TotalRank(Run(keys, events).value.callers) <= 5 * |keys|
  {
    hide Apply, Enabled, TotalRank;
    if events == [] {
      StartRank(keys, |keys|);
      assert Initial(keys).callers[..|keys|] == Initial(keys).callers;
    } else {
      var before, e := events[..|events| - 1], events[|events| - 1];
      RunsAreShort(keys, before);
      StepRank(Run(keys, before).value, e);
    }
  }
}
