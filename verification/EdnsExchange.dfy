/** One exchange with an upstream server: the retry loop of `src/resolver_edns.rs` as a function of
    what it meets outside, and in place. */
module EdnsExchange {
  import opened Bytes
  import opened Wire
  import opened EdnsPacket
  import opened EdnsFeatures

  const RCODE_SERVFAIL := 2
  const RCODE_BADVERS := 16
  const OPTION_EXTENDED_ERROR := 15
  const EDE_NOT_READY := 14
  const MAX_FEATURE_RETRIES := 2
  const MAX_TRANSPORT_RETRIES := 2
  const TRANSPORT_RETRY_ATTEMPTS := 3
  const MAX_ATTEMPTS := 24

  datatype ValidationMode = No | AllowDowngrade | Yes

  datatype Failure =
    | Wire(error: WireError) | BudgetExhausted | TimedOut | TransportFailed
    | MissingOpt | BadVersion | DoNotEchoed | MissingRootRrsig

  datatype Delivery = Delivered(response: Packet) | Lost | Refused

  datatype Transport = OverUdp | OverTcp

  /** Everything one round of the loop learns from outside: time, the shared feature state as
      concurrent exchanges leave it, the transport state, and what the network returns. */
  datatype Observation = Observation(
    now: Time,
    before: Features,
    between: Features,
    missingRootRrsig: bool,
    useTls: bool,
    transport: Transport,
    payloadSize: U16,
    expired: bool,
    expiredBeforeTcp: bool,
    fragmentSize: nat,
    first: Delivery,
    retriedTcp: Delivery,
    switched: bool,
    failures: nat)

  /** Why another round starts. */
  datatype Why = TlsFellBack | FeatureRetry | RcodeProbe | TransportRetry | NotReady | ServfailRetry

  /** What a phase decides: go on with a response, start another round, or give up. `forced` is a
      level the next rounds must use, if the phase sets one. */
  datatype Step<T> = Continue(value: T) | Again(why: Why, forced: Option<Level>) | Stop(failure: Failure)

  /** A received response and whether its level counts as verified. */
  datatype Received = Received(response: Packet, verifiesLevel: bool)

  datatype Outcome = Answer(packet: Packet, response: Packet) | Failed(failure: Failure)

  /** One attempt as it went: the packet sent, its level and whether the OPT record was the
      resolver's own; the possible level when the round asked for it and what it became, the possible
      level when the packet was sent and what it became; and how the round ended. */
  datatype Attempt = Attempt(
    sent: Packet,
    level: Level,
    managed: bool,
    asked: Level,
    chosen: Level,
    sending: Level,
    judged: Level,
    end: Ending)
  {
    /** The round itself lowered the possible level. */
    predicate Lowered() {
      !asked.Leq(chosen) || !sending.Leq(judged)
    }
  }

  datatype Ending = Retried(why: Why, forced: Option<Level>) | Last

  /** What the resolver remembers of a server. */
  datatype ServerState = ServerState(features: Features, missingRootRrsig: bool, packetDoOff: bool, packetInvalid: bool)

  const NEW_SERVER := ServerState(DEFAULT, false, false, false)

  /** What concurrent exchanges with the same server may do to its feature state, and what this
      one must therefore also keep to: with validation required, never lower the level. */
  predicate Allowed(mode: ValidationMode, f: Features, g: Features) {
    Sound(g) && (mode.Yes? ==> f.possible.Leq(g.possible))
  }

  /** The feature state after concurrent exchanges left `g`, as far as that is allowed. */
  function Interfered(mode: ValidationMode, f: Features, g: Features): Features {
    if Allowed(mode, f, g) then g else f
  }

  function PreferredLevel(mode: ValidationMode): Level {
    if mode.No? then Edns0 else DnssecOk
  }

  predicate RequestsDowngrade(rcode: nat) {
    rcode == 1 || rcode == 2 || rcode == 4
  }

  /** `extended_error_code`: the first extended error, which must have two octets. */
  function ExtendedError(options: seq<EdnsOption>): Result<Option<U16>> {
    if options == [] then Ok(None)
    else if options[0].code == OPTION_EXTENDED_ERROR then
      if |options[0].data| < 2 then Err(InvalidRecord) else Ok(Some(U16At(options[0].data, 0)))
    else ExtendedError(options[1..])
  }

  // One round, phase by phase.

  /** The level of a round: the forced one, or what the server is believed to do. */
  function Chosen(mode: ValidationMode, o: Observation, forced: Option<Level>, s: ServerState): (ServerState, Level) {
    var missing := s.missingRootRrsig || o.missingRootRrsig;
    var best := if missing && !mode.Yes? then Edns0 else PreferredLevel(mode);
    if forced.Some? then (s.(missingRootRrsig := missing), forced.value)
    else
      var f := PossibleLevel(s.features, best, o.now);
      (s.(missingRootRrsig := missing, features := f), f.possible)
  }

  /** Sending the query and waiting, over TLS, UDP or TCP. */
  function Transmitted(mode: ValidationMode, strictTls: bool, o: Observation, level: Level, managed: bool,
                       c: Control, f: Features)
    : (Features, Step<Received>)
  {
    if o.useTls then
      match o.first
      case Delivered(response) => (f, Continue(Received(response, true)))
      case Lost => (f, if strictTls then Stop(TransportFailed) else Again(TlsFellBack, None))
      case Refused => (f, Stop(TransportFailed))
    else if o.transport.OverTcp? then
      (f, if o.first.Delivered? then Continue(Received(o.first.response, false))
          else if o.switched && c.transportRetries < MAX_TRANSPORT_RETRIES then Again(TransportRetry, None)
          else Stop(TransportFailed))
    else if o.first.Delivered? then TransmittedUdp(mode, o, level, c, f)
    else
      var (g, lower) := if managed && !mode.Yes? then RecordFailure(f, level, o.now) else (f, None);
      (g, if lower.Some? && c.featureRetries < MAX_FEATURE_RETRIES then Again(FeatureRetry, lower)
          else if level == Udp && o.switched &&
              c.transportRetries < MAX_TRANSPORT_RETRIES then Again(TransportRetry, None)
          else Stop(TransportFailed))
  }

  /** A datagram arrived; truncated or fragmented ones are asked for again over TCP. */
  function TransmittedUdp(mode: ValidationMode, o: Observation, level: Level, c: Control, f: Features): (Features,
                          Step<Received>)
    requires o.first.Delivered?
  {
    var header := ParseHeader(o.first.response);
    if header.Err? then (f, Stop(Wire(header.error)))
    else if !header.value.Truncated() && !(o.fragmentSize != 0 && level.UsesEdns()) then
      (f, Continue(Received(o.first.response, true)))
    else if o.expiredBeforeTcp then (f, Stop(TimedOut))
    else if o.retriedTcp.Delivered? then (f, Continue(Received(o.retriedTcp.response, false)))
    else if o.failures >= TRANSPORT_RETRY_ATTEMPTS && level.UsesEdns() && !mode.Yes? &&
            c.featureRetries < MAX_FEATURE_RETRIES then
      (DowngradeTo(f, level.Lower(), o.now), Again(FeatureRetry, Some(level.Lower())))
    else (f, Stop(TransportFailed))
  }

  /** A bad OPT record, recorded: another round at the lower level, or the response as it is. */
  function BadOptSeen(level: Level, now: Time, retry: bool, s: ServerState): (ServerState, Step<bool>) {
    var f := RecordBadOpt(s.features, level, now);
    (s.(features := f), if retry then Again(FeatureRetry, Some(f.possible)) else Continue(true))
  }

  /** The checks on the OPT record the server returned for the resolver's own; `Continue(true)`
      settles for the response without looking further. */
  function OptChecked(mode: ValidationMode, now: Time, level: Level, opt: Option<OptRecord>, rcode: nat,
                      featureRetries: nat,
                      s: ServerState): (ServerState, Step<bool>)
  {
    var retry := featureRetries < MAX_FEATURE_RETRIES;
    if opt.None? then
      if mode.Yes? then (s, Stop(MissingOpt))
      else BadOptSeen(level, now, rcode != 0 && RequestsDowngrade(rcode) && retry, s)
    else if opt.value.version != 0 || rcode == RCODE_BADVERS then
      if mode.Yes? then (s, Stop(BadVersion)) else BadOptSeen(level, now, retry, s)
    else if level.DnssecOk? && !opt.value.DnssecOk() then
      if mode.Yes? then (s, Stop(DoNotEchoed))
      else
        var f := RecordDoOff(s.features, level, now);
        (s.(features := f, packetDoOff := true),
            if retry then Again(FeatureRetry, Some(f.possible)) else Continue(true))
    else (s, Continue(false))
  }

  /** Are the root's signatures there? */
  function RrsigChecked(mode: ValidationMode, now: Time, response: Packet, featureRetries: nat, s: ServerState)
    : (ServerState, Step<()>)
  {
    var missing := RootRrsigMissing(response);
    if missing.Err? then (s, Stop(Wire(missing.error)))
    else if !missing.value then (s, Continue(()))
    else if mode.Yes? then (s.(missingRootRrsig := true), Stop(MissingRootRrsig))
    else
      (s.(missingRootRrsig := true, features := DowngradeTo(s.features, Edns0, now)),
       if featureRetries < MAX_FEATURE_RETRIES then Again(FeatureRetry, Some(Edns0)) else Stop(MissingRootRrsig))
  }

  /** How a response that passed the checks is treated for its response code: accepted as it is,
      asked for again, or looked at further. */
  function RcodeJudged(mode: ValidationMode, level: Level, response: Packet, opt: Option<OptRecord>, rcode: nat,
                       c: Control)
    : Step<bool>
  {
    var ede := if rcode == RCODE_SERVFAIL && opt.Some? then ExtendedError(opt.value.options) else Ok(None);
    if ede.Err? then Stop(Wire(ede.error))
    else if ede.value.Some? then
      if ede.value.value == EDE_NOT_READY then Again(NotReady, Some(level)) else Continue(true)
    else if rcode == RCODE_SERVFAIL && level.UsesEdns() && !mode.Yes? && !c.servfailRetried then
      Again(ServfailRetry, Some(level))
    else if RequestsDowngrade(rcode) && level.UsesEdns() && !mode.Yes? && c.featureRetries < MAX_FEATURE_RETRIES then
      Again(RcodeProbe, Some(level.Lower()))
    else Continue(false)
  }

  /** A response that is accepted counts as a success of its level. */
  function Credited(level: Level, now: Time, managed: bool, verifiesLevel: bool, rcode: nat, rcodeProbe: bool,
                    s: ServerState)
    : ServerState
  {
    if !managed then s
    else
      var f := if rcodeProbe && !RequestsDowngrade(rcode) then DowngradeTo(s.features, level, now) else s.features;
      s.(features := RecordSuccess(f, if verifiesLevel then level else Udp))
  }

  /** The checks between the OPT record and the response code. */
  function Checked(mode: ValidationMode, now: Time, level: Level, managed: bool, sentEdns: bool, response: Packet,
                   opt: Option<OptRecord>, rcode: nat, featureRetries: nat, s: ServerState): (ServerState, Step<bool>)
  {
    var (s1, settled) := if managed && sentEdns then OptChecked(mode, now, level, opt, rcode, featureRetries, s)
                         else (s, Continue(false));
    if !settled.Continue? || settled.value || !(managed && level.DnssecOk?) then (s1, settled)
    else
      var (s2, signed) := RrsigChecked(mode, now, response, featureRetries, s1);
      (s2, match signed
           case Stop(failure) => Stop(failure)
           case Again(why, forced) => Again(why, forced)
           case Continue(_) => Continue(false))
  }

  /** A response that passed the checks. */
  function Graded(mode: ValidationMode, now: Time, level: Level, managed: bool, received: Received,
                  opt: Option<OptRecord>,
                  rcode: nat, c: Control, s: ServerState): (ServerState, Step<Packet>)
  {
    match RcodeJudged(mode, level, received.response, opt, rcode, c)
    case Stop(failure) => (s, Stop(failure))
    case Again(why, forced) => (s, Again(why, forced))
    case Continue(asItIs) =>
      (if asItIs then s else Credited(level, now, managed, received.verifiesLevel, rcode, c.rcodeProbe, s),
       Continue(received.response))
  }

  /** A response judged: `Continue(response)` accepts it. */
  function Judged(mode: ValidationMode, now: Time, level: Level, managed: bool, sentEdns: bool, received: Received,
                  c: Control,
                  s: ServerState): (ServerState, Step<Packet>)
  {
    var response := received.response;
    var opt := InspectOpt(response);
    if opt.Err? then (s.(packetInvalid := true), Stop(Wire(opt.error)))
    else
      var rcode := FullRcode(response, opt.value);
      if rcode.Err? then (s.(packetInvalid := true), Stop(Wire(rcode.error)))
      else
        var (s1, checked) :=
          Checked(mode, now, level, managed, sentEdns, response, opt.value, rcode.value, c.featureRetries, s);
        match checked
        case Stop(failure) => (s1, Stop(failure))
        case Again(why, forced) => (s1, Again(why, forced))
        case Continue(settled) =>
          if settled then (s1, Continue(response))
          else Graded(mode, now, level, managed, received, opt.value, rcode.value, c, s1)
  }

  /** Sending and judging. */
  function Sent(mode: ValidationMode, strictTls: bool, o: Observation, level: Level, managed: bool, sentEdns: bool,
                c: Control,
                s: ServerState): (ServerState, Step<Packet>)
  {
    var (f, sent) := Transmitted(mode, strictTls, o, level, managed, c, s.features);
    var s1 := s.(features := f);
    match sent
    case Stop(failure) => (s1, Stop(failure))
    case Again(why, forced) => (s1, Again(why, forced))
    case Continue(received) => Judged(mode, o.now, level, managed, sentEdns, received, c, s1)
  }

  /** The local variables that survive from round to round. */
  datatype Control = Control(
    forcedLevel: Option<Level>,
    rcodeProbe: bool,
    servfailRetried: bool,
    featureRetries: nat,
    transportRetries: nat)

  const START := Control(None, false, false, 0, 0)

  /** The variables after a round that ended in a retry. */
  function Advance(c: Control, why: Why, forced: Option<Level>): Control {
    c.(forcedLevel := if forced.Some? then forced else c.forcedLevel,
       rcodeProbe := c.rcodeProbe || why == RcodeProbe,
       servfailRetried := c.servfailRetried || why == ServfailRetry,
       featureRetries := if why in {FeatureRetry, RcodeProbe} then c.featureRetries + 1 else c.featureRetries,
       transportRetries := if why == TransportRetry then c.transportRetries + 1 else c.transportRetries)
  }

  /** `begin_attempt`: why no attempt may start. */
  function Refusal(attempts: nat, expired: bool): Option<Failure> {
    if attempts >= MAX_ATTEMPTS then Some(BudgetExhausted) else if expired then Some(TimedOut) else None
  }

  /** A round: nothing was sent, or an attempt was made and something decided. */
  datatype Round =
    | Unsent(server: ServerState, failure: Failure)
    | Tried(server: ServerState, attempt: Attempt, judged: Step<Packet>)

  function RoundOf(mode: ValidationMode, strictTls: bool, query: Packet, s: ServerState, attempts: nat,
                   o: Observation, c: Control)
    : Round
  {
    var asked := s.(features := Interfered(mode, s.features, o.before));
    var (chosen, level) := Chosen(mode, o, c.forcedLevel, asked);
    var prepared := PrepareQuery(query, level, o.payloadSize);
    if prepared.Err? then Unsent(chosen, Wire(prepared.error))
    else if Refusal(attempts, o.expired).Some? then Unsent(chosen, Refusal(attempts, o.expired).value)
    else
      var sending := chosen.(features := Interfered(mode, chosen.features, o.between));
      var managed := prepared.value.managedOpt;
      var (done, judged) := Sent(mode, strictTls, o, level, managed, prepared.value.sentEdns, c, sending);
      Tried(done,
            Attempt(prepared.value.packet, level, managed, asked.features.possible, chosen.features.possible,
                    sending.features.possible, done.features.possible,
                    if judged.Again? then Retried(judged.why, judged.forced) else Last),
            judged)
  }

  /** How an exchange ends: its outcome, its attempts, and the server and the budget after it. */
  datatype Exchanged = Exchanged(outcome: Outcome, log: seq<Attempt>, server: ServerState, attempts: nat)

  /** The loop from round `round` on, with `world(k)` what round `k` meets outside. */
  function ExchangeFrom(mode: ValidationMode, strictTls: bool, query: Packet, s: ServerState, attempts: nat,
                        world: nat -> Observation, round: nat, c: Control, log: seq<Attempt>): Exchanged
    requires attempts <= MAX_ATTEMPTS
    decreases MAX_ATTEMPTS - attempts
  {
    match RoundOf(mode, strictTls, query, s, attempts, world(round), c)
    case Unsent(s', failure) => Exchanged(Failed(failure), log, s', attempts)
    case Tried(s', attempt, judged) =>
      match judged
      case Stop(failure) => Exchanged(Failed(failure), log + [attempt], s', attempts + 1)
      case Continue(response) =>
        Exchanged(Answered(query, response), log + [attempt], s', attempts + 1)
      case Again(why, forced) =>
        ExchangeFrom(mode, strictTls, query, s', attempts + 1, world, round + 1, Advance(c, why, forced),
            log + [attempt])
  }

  /** An accepted response as the client gets it. */
  function Answered(query: Packet, response: Packet): Outcome {
    var answer := ResponseForClient(query, response);
    if answer.Ok? then Answer(answer.value, response) else Failed(Wire(answer.error))
  }

  /** `exchange_with_features`. */
  function Exchange(mode: ValidationMode, strictTls: bool, query: Packet, s: ServerState, attempts: nat,
                    world: nat -> Observation): Exchanged
    requires attempts <= MAX_ATTEMPTS
  {
    ExchangeFrom(mode, strictTls, query, s, attempts, world, 0, START, [])
  }
}
