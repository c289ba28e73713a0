/** The mDNS probe and announce machine (`src/mdns_full.rs`, sections 8.1 and 8.3 of RFC 6762)
    against its schedule, read off the list of what was sent. */
module MdnsProbe {

  /** Instants and durations in nanoseconds. */
  type Time = int
  const MILLISECOND := 1_000_000
  const PROBE_INTERVAL := 250 * MILLISECOND
  const ANNOUNCEMENT_INTERVAL := 1000 * MILLISECOND
  const PROBE_COUNT := 3
  const ANNOUNCEMENT_COUNT := 2
  const SENDS := 5

  datatype Action = Wait | SendProbe | SendAnnouncement | Established
  datatype Phase = Probing | Announcing | Done
  datatype State = State(phase: Phase, probes: nat, announcements: nat, deadline: Time)

  function Start(now: Time, jitter: nat): State {
    State(Probing, 0, 0, now + if jitter < PROBE_INTERVAL then jitter else PROBE_INTERVAL)
  }

  function Poll(s: State, now: Time): (State, Action) {
    if s.phase == Done then (s, Established)
    else if now < s.deadline then (s, Wait)
    else if s.phase == Probing then
      (State(if s.probes + 1 == PROBE_COUNT then Announcing else Probing, s.probes + 1, s.announcements,
             now + PROBE_INTERVAL), SendProbe)
    else if s.announcements + 1 == ANNOUNCEMENT_COUNT then
      (s.(phase := Done, announcements := s.announcements + 1), SendAnnouncement)
    else
      (s.(announcements := s.announcements + 1, deadline := now + ANNOUNCEMENT_INTERVAL), SendAnnouncement)
  }

  // The schedule, from the times of what was sent since the last start.

  datatype Schedule = Schedule(start: Time, jitter: nat, sent: seq<Time>)

  /** What the `n`-th message is. */
  function Message(n: nat): Action {
    if n < PROBE_COUNT then SendProbe else if n < SENDS then SendAnnouncement else Established
  }

  /** How long to wait after the `n`-th message. */
  function Gap(n: nat): nat {
    if n < PROBE_COUNT then PROBE_INTERVAL else ANNOUNCEMENT_INTERVAL
  }

  /** When the next message is due. */
  function Due(c: Schedule): Time {
    var n := |c.sent|;
    if n > 0 then c.sent[n - 1] + Gap(n - 1)
    else c.start + if c.jitter < PROBE_INTERVAL then c.jitter else PROBE_INTERVAL
  }

  /** What the schedule calls for at `now`. */
  function Answer(c: Schedule, now: Time): Action {
    if |c.sent| < SENDS && now < Due(c) then Wait else Message(|c.sent|)
  }

  /** Three probes a quarter of a second apart, then two announcements: the first a quarter of a
      second after the last probe, the second a full second later. Nothing is sent before the
      initial jitter, of which at most a quarter of a second counts, is over. */
  ghost predicate Paced(c: Schedule) {
    && |c.sent| <= SENDS
    && (|c.sent| > 0 ==> c.sent[0] >= c.start + if c.jitter < PROBE_INTERVAL then c.jitter else PROBE_INTERVAL)
    && (forall i :: 0 < i < |c.sent| ==> c.sent[i] - c.sent[i - 1] >= Gap(i - 1))
  }

  datatype Event = PollAt(now: Time) | RestartAt(now: Time, jitter: nat)

  /** The machine, the schedule and every answer, after a run. */
  datatype History = History(state: State, schedule: Schedule, answers: seq<Action>)

  function Begin(now: Time, jitter: nat): History {
    History(Start(now, jitter), Schedule(now, jitter, []), [])
  }

  function Step(h: History, e: Event): History {
    match e
    case RestartAt(now, jitter) => History(Start(now, jitter), Schedule(now, jitter, []), [])
    case PollAt(now) =>
      var (s, a) := Poll(h.state, now);
      var sent := if a.SendProbe? || a.SendAnnouncement? then h.schedule.sent + [now] else h.schedule.sent;
      History(s, h.schedule.(sent := sent), h.answers + [a])
  }

  function Run(now: Time, jitter: nat, events: seq<Event>): History {
    if events == [] then Begin(now, jitter)
    else Step(Run(now, jitter, events[..|events| - 1]), events[|events| - 1])
  }

  /** The machine's fields are what the schedule says. */
  ghost predicate Tracks(s: State, c: Schedule) {
    var n := |c.sent|;
    && n <= SENDS
    && s.phase == (if n < PROBE_COUNT then Probing else if n < SENDS then Announcing else Done)
    && s.probes == (if n < PROBE_COUNT then n else PROBE_COUNT)
    && s.announcements == n - s.probes
    && (n < SENDS ==> s.deadline == Due(c))
  }

  function Speaking(answers: seq<Action>): seq<Action> {
    if answers == [] then []
    else
      var front := Speaking(answers[..|answers| - 1]);
      if answers[|answers| - 1].Wait? then front else front + [answers[|answers| - 1]]
  }

  /** The answers since the last start, waits aside: the messages in order, then only
      `Established`. */
  ghost predicate InOrder(h: History) {
    var said := Speaking(h.answers);
    && |said| >= |h.schedule.sent|
    && (|said| > |h.schedule.sent| ==> |h.schedule.sent| == SENDS)
    && (forall i :: 0 <= i < |said| ==> said[i] == Message(i))
  }

  ghost predicate Inv(h: History) {
    Tracks(h.state, h.schedule) && Paced(h.schedule) && InOrder(h)
  }

  lemma PollKeeps(h: History, now: Time)
    requires Inv(h)
    ensures Inv(Step(h, PollAt(now)))
    ensures Poll(h.state, now).1 == Answer(h.schedule, now)
  {
    hide InOrder, Paced, Speaking;
    SendPaced(h.schedule, now);
    SpeaksInOrder(h, Poll(h.state, now).0, Poll(h.state, now).1, now);
  }

  lemma SendPaced(c: Schedule, now: Time)
    requires Paced(c)
    ensures |c.sent| < SENDS && now >= Due(c) ==> Paced(c.(sent := c.sent + [now]))
  {}

  lemma SpeaksInOrder(h: History, s: State, a: Action, now: Time)
    requires InOrder(h) && |h.schedule.sent| <= SENDS && a == Answer(h.schedule, now)
    ensures var sent := if a.SendProbe? || a.SendAnnouncement? then h.schedule.sent + [now] else h.schedule.sent;
            InOrder(History(s, h.schedule.(sent := sent), h.answers + [a]))
  {
    hide Due;
    assert (h.answers + [a])[..|h.answers|] == h.answers;
    assert Speaking(h.answers + [a]) == if a.Wait? then Speaking(h.answers) else Speaking(h.answers) + [a];
  }

  /** Over every run, whatever the poll times and however often it is restarted, the messages
      since the last start are paced, in order, and the machine answers what the schedule says. */
  lemma {:induction false} RunKeeps(now: Time, jitter: nat, events: seq<Event>)
    ensures Inv(Run(now, jitter, events))
    ensures forall t :: Poll(Run(now, jitter, events).state, t).1 == Answer(Run(now, jitter, events).schedule, t)
  {
    if events != [] {
      var e, before := events[|events| - 1], events[..|events| - 1];
      RunKeeps(now, jitter, before);
      if e.PollAt? {
        PollKeeps(Run(now, jitter, before), e.now);
      }
    }
    forall t ensures Poll(Run(now, jitter, events).state, t).1 == Answer(Run(now, jitter, events).schedule, t) {
      PollKeeps(Run(now, jitter, events), t);
    }
  }

  /** The machine is established exactly when all five messages were sent since the last start, the
      last of them no sooner than 1.75 seconds after it. */
  lemma EstablishedAfterAll(now: Time, jitter: nat, events: seq<Event>)
    ensures var h := Run(now, jitter, events);
            h.state.phase == Done <==> |h.schedule.sent| == PROBE_COUNT + ANNOUNCEMENT_COUNT
    ensures var h := Run(now, jitter, events);
            h.state.phase == Done ==>
              h.schedule.sent[SENDS - 1] >= h.schedule.start + 3 * PROBE_INTERVAL + ANNOUNCEMENT_INTERVAL
    ensures var h := Run(now, jitter, events);
            h.state.probes <= PROBE_COUNT && h.state.announcements <= ANNOUNCEMENT_COUNT
  {
    hide Speaking, Run;
    RunKeeps(now, jitter, events);
    var c := Run(now, jitter, events).schedule;
    if |c.sent| == SENDS {
      assert c.sent[1] - c.sent[0] >= Gap(0) && c.sent[2] - c.sent[1] >= Gap(1);
      assert c.sent[3] - c.sent[2] >= Gap(2) && c.sent[4] - c.sent[3] >= Gap(3);
    }
  }

  /** Polls that leave the prescribed gaps establish the name: nothing else is waited for. */
  lemma {:induction false} PromptPollsEstablish(h: History, polls: seq<Event>)
    requires Inv(h) && |h.schedule.sent| + |polls| == SENDS
    requires forall i :: 0 <= i < |polls| ==> polls[i].PollAt?
    requires |polls| > 0 ==> polls[0].now >= Due(h.schedule)
    requires forall i :: 0 < i < |polls| ==> polls[i].now >= polls[i - 1].now + Gap(|h.schedule.sent| + i - 1)
    ensures RunFrom(h, polls).state.phase == Done
    decreases |polls|
  {
    hide Speaking;
    if polls != [] {
      PollKeeps(h, polls[0].now);
      var next := Step(h, polls[0]);
      var rest := polls[1..];
      forall i | 0 < i < |rest| ensures rest[i].now >= rest[i - 1].now + Gap(|next.schedule.sent| + i - 1) {
        assert polls[i + 1].now >= polls[i].now + Gap(|h.schedule.sent| + i);
      }
      PromptPollsEstablish(next, rest);
    }
  }

  function RunFrom(h: History, events: seq<Event>): History
    decreases |events|
  {
    if events == [] then h else RunFrom(Step(h, events[0]), events[1..])
  }

  /** `MdnsProbeState`. */
  class Probe {
    var phase: Phase
    var probes: nat
    var announcements: nat
    var deadline: Time

    function View(): State
      reads this
    {
      State(phase, probes, announcements, deadline)
    }

    constructor (now: Time, jitter: nat)
      ensures View() == Start(now, jitter)
    {
      phase, probes, announcements := Probing, 0, 0;
      deadline := now + if jitter < PROBE_INTERVAL then jitter else PROBE_INTERVAL;
    }

    method Ask(now: Time) returns (action: Action)
      modifies this
      ensures (View(), action) == Poll(old(View()), now)
    {
      if phase == Done {
        return Established;
      }
      if now < deadline {
        return Wait;
      }
      match phase
      case Probing =>
        probes := probes + 1;
        deadline := now + PROBE_INTERVAL;
        if probes == PROBE_COUNT {
          phase := Announcing;
        }
        return SendProbe;
      case Announcing =>
        announcements := announcements + 1;
        if announcements == ANNOUNCEMENT_COUNT {
          phase := Done;
        } else {
          deadline := now + ANNOUNCEMENT_INTERVAL;
        }
        return SendAnnouncement;
    }

    method RestartAfterConflict(now: Time, jitter: nat)
      modifies this
      ensures View() == Start(now, jitter)
    {
      phase, probes, announcements := Probing, 0, 0;
      deadline := now + if jitter < PROBE_INTERVAL then jitter else PROBE_INTERVAL;
    }
  }

  /** A run on the object: its answers since the last start are those of the model, so `RunKeeps`
      holds of them. */
  method Drive(now: Time, jitter: nat, events: seq<Event>) returns (answers: seq<Action>)
    ensures answers == Run(now, jitter, events).answers
    ensures forall i :: 0 <= i < |Speaking(answers)| ==> Speaking(answers)[i] == Message(i)
  {
    hide Poll, Start, Speaking;
    var probe := new Probe(now, jitter);
    answers := [];
    for i := 0 to |events|
      invariant probe.View() == Run(now, jitter, events[..i]).state
      invariant answers == Run(now, jitter, events[..i]).answers
    {
      assert events[..i + 1][..i] == events[..i];
      match events[i]
      case PollAt(t) =>
        var action := probe.Ask(t);
        answers := answers + [action];
      case RestartAt(t, j) =>
        probe.RestartAfterConflict(t, j);
        answers := [];
    }
    assert events[..|events|] == events;
    RunKeeps(now, jitter, events);
  }
}
