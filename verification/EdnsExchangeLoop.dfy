/** The retry loop of `src/resolver_edns.rs` in place, on the server's state and the attempt budget. */
module EdnsExchangeLoop {
  import opened Bytes
  import opened Wire
  import opened EdnsPacket
  import opened EdnsFeatures
  import opened EdnsExchange
  import opened EdnsExchangeSafety

  class Budget {
    var attempts: nat

    constructor ()
      ensures attempts == 0
    {
      attempts := 0;
    }

    method BeginAttempt(expired: bool) returns (r: Option<Failure>)
      modifies this
      ensures r == Refusal(old(attempts), expired)
      ensures r.None? <==> old(attempts) < MAX_ATTEMPTS && !expired
      ensures attempts == old(attempts) + if r.None? then 1 else 0
    {
      if attempts >= MAX_ATTEMPTS {
        return Some(BudgetExhausted);
      }
      if expired {
        return Some(TimedOut);
      }
      attempts := attempts + 1;
      r := None;
    }
  }

  class Server {
    const features: ServerFeatureState
    var missingRootRrsig: bool
    var packetDoOff: bool
    var packetInvalid: bool

    ghost function Value(): ServerState
      reads this, features
    {
      ServerState(features.Value(), missingRootRrsig, packetDoOff, packetInvalid)
    }

    constructor ()
      ensures fresh(features) && Value() == NEW_SERVER
    {
      features := new ServerFeatureState();
      missingRootRrsig, packetDoOff, packetInvalid := false, false, false;
    }

    /** Takes over what concurrent exchanges left behind, as far as they keep to `Allowed`. */
    method Interfere(mode: ValidationMode, g: Features)
      modifies features
      ensures features.Value() == Interfered(mode, old(features.Value()), g)
    {
      if Sound(g) && (mode.Yes? ==> features.possible.Leq(g.possible)) {
        features.possible, features.verified, features.verifiedOnce := g.possible, g.verified, g.verifiedOnce;
        features.failedAttempts, features.retryAfter := g.failedAttempts, g.retryAfter;
        features.gracePeriod, features.badOpt := g.gracePeriod, g.badOpt;
      }
    }

    method ChooseLevel(mode: ValidationMode, o: Observation, forced: Option<Level>) returns (level: Level)
      modifies this`missingRootRrsig, features
      ensures (Value(), level) == Chosen(mode, o, forced, old(Value()))
    {
      missingRootRrsig := missingRootRrsig || o.missingRootRrsig;
      var best := if missingRootRrsig && !mode.Yes? then Edns0 else PreferredLevel(mode);
      if forced.Some? {
        level := forced.value;
      } else {
        level := features.PossibleLevelNow(best, o.now);
      }
    }

    method Transmit(mode: ValidationMode, strictTls: bool, o: Observation, level: Level, managed: bool, c: Control)
      returns (r: Step<Received>)
      modifies features
      ensures (features.Value(), r) == Transmitted(mode, strictTls, o, level, managed, c, old(features.Value()))
    {
      hide ParseHeader;
      if o.useTls {
        match o.first {
          case Delivered(response) => return Continue(Received(response, true));
          case Lost =>
            if strictTls {
              return Stop(TransportFailed);
            }
            return Again(TlsFellBack, None);
          case Refused => return Stop(TransportFailed);
        }
      }
      if o.transport.OverTcp? {
        if o.first.Delivered? {
          return Continue(Received(o.first.response, false));
        }
        if o.switched && c.transportRetries < MAX_TRANSPORT_RETRIES {
          return Again(TransportRetry, None);
        }
        return Stop(TransportFailed);
      }
      if o.first.Delivered? {
        r := TransmitUdp(mode, o, level, c);
        return;
      }
      var lower: Option<Level> := None;
      if managed && !mode.Yes? {
        lower := features.Failed(level, o.now);
      }
      if lower.Some? && c.featureRetries < MAX_FEATURE_RETRIES {
        return Again(FeatureRetry, lower);
      }
      if level == Udp && o.switched && c.transportRetries < MAX_TRANSPORT_RETRIES {
        return Again(TransportRetry, None);
      }
      return Stop(TransportFailed);
    }

    method TransmitUdp(mode: ValidationMode, o: Observation, level: Level, c: Control) returns (r: Step<Received>)
      requires o.first.Delivered?
      modifies features
      ensures (features.Value(), r) == TransmittedUdp(mode, o, level, c, old(features.Value()))
    {
      hide ParseHeader;
      var header := ParseHeader(o.first.response);
      if header.Err? {
        return Stop(Wire(header.error));
      }
      if !header.value.Truncated() && !(o.fragmentSize != 0 && level.UsesEdns()) {
        return Continue(Received(o.first.response, true));
      }
      if o.expiredBeforeTcp {
        return Stop(TimedOut);
      }
      if o.retriedTcp.Delivered? {
        return Continue(Received(o.retriedTcp.response, false));
      }
      if o.failures >= TRANSPORT_RETRY_ATTEMPTS && level.UsesEdns() && !mode.Yes? &&
          c.featureRetries < MAX_FEATURE_RETRIES {
        var lower := level.Lower();
        features.Downgrade(lower, o.now);
        return Again(FeatureRetry, Some(lower));
      }
      return Stop(TransportFailed);
    }

    method CheckOpt(mode: ValidationMode, now: Time, level: Level, opt: Option<OptRecord>, rcode: nat,
                    featureRetries: nat)
      returns (r: Step<bool>)
      modifies this`packetDoOff, features
      ensures (Value(), r) == OptChecked(mode, now, level, opt, rcode, featureRetries, old(Value()))
    {
      if opt.None? {
        if mode.Yes? {
          return Stop(MissingOpt);
        }
        var lower := features.SawBadOpt(level, now);
        if rcode == 0 || !RequestsDowngrade(rcode) || featureRetries >= MAX_FEATURE_RETRIES {
          return Continue(true);
        }
        return Again(FeatureRetry, Some(lower));
      }
      if opt.value.version != 0 || rcode == RCODE_BADVERS {
        if mode.Yes? {
          return Stop(BadVersion);
        }
        var lower := features.SawBadOpt(level, now);
        if featureRetries >= MAX_FEATURE_RETRIES {
          return Continue(true);
        }
        return Again(FeatureRetry, Some(lower));
      }
      if level.DnssecOk? && !opt.value.DnssecOk() {
        if mode.Yes? {
          return Stop(DoNotEchoed);
        }
        packetDoOff := true;
        var lower := features.SawDoOff(level, now);
        if featureRetries >= MAX_FEATURE_RETRIES {
          return Continue(true);
        }
        return Again(FeatureRetry, Some(lower));
      }
      return Continue(false);
    }

    method CheckRootRrsig(mode: ValidationMode, now: Time, response: Packet, featureRetries: nat) returns (r: Step<()>)
      modifies this`missingRootRrsig, features
      ensures (Value(), r) == RrsigChecked(mode, now, response, featureRetries, old(Value()))
    {
      hide RootRrsigMissing;
      var missing := RootRrsigMissing(response);
      if missing.Err? {
        return Stop(Wire(missing.error));
      }
      if missing.value {
        missingRootRrsig := true;
        if mode.Yes? {
          return Stop(MissingRootRrsig);
        }
        features.Downgrade(Edns0, now);
        if featureRetries < MAX_FEATURE_RETRIES {
          return Again(FeatureRetry, Some(Edns0));
        }
        return Stop(MissingRootRrsig);
      }
      return Continue(());
    }

    method Check(mode: ValidationMode, now: Time, level: Level, managed: bool, sentEdns: bool, response: Packet,
                 opt: Option<OptRecord>, rcode: nat, featureRetries: nat)
      returns (r: Step<bool>)
      modifies this, features
      ensures (Value(), r) ==
              Checked(mode, now, level, managed, sentEdns, response, opt, rcode, featureRetries, old(Value()))
    {
      hide OptChecked, RrsigChecked;
      r := Continue(false);
      if managed && sentEdns {
        r := CheckOpt(mode, now, level, opt, rcode, featureRetries);
        if !r.Continue? || r.value {
          return;
        }
      }
      if managed && level.DnssecOk? {
        var signed := CheckRootRrsig(mode, now, response, featureRetries);
        match signed {
          case Stop(failure) => return Stop(failure);
          case Again(why, forced) => return Again(why, forced);
          case Continue(_) =>
        }
      }
    }

    method Credit(level: Level, now: Time, managed: bool, verifiesLevel: bool, rcode: nat, rcodeProbe: bool)
      modifies features
      ensures Value() == Credited(level, now, managed, verifiesLevel, rcode, rcodeProbe, old(Value()))
    {
      if managed {
        if rcodeProbe && !RequestsDowngrade(rcode) {
          features.Downgrade(level, now);
        }
        features.Succeeded(if verifiesLevel then level else Udp);
      }
    }

    method Judge(mode: ValidationMode, now: Time, level: Level, managed: bool, sentEdns: bool, received: Received,
                 c: Control)
      returns (r: Step<Packet>)
      modifies this, features
      ensures (Value(), r) == Judged(mode, now, level, managed, sentEdns, received, c, old(Value()))
    {
      hide InspectOpt, FullRcode, Checked, Graded;
      var response := received.response;
      var inspected := InspectOpt(response);
      if inspected.Err? {
        packetInvalid := true;
        return Stop(Wire(inspected.error));
      }
      var opt := inspected.value;
      var full := FullRcode(response, opt);
      if full.Err? {
        packetInvalid := true;
        return Stop(Wire(full.error));
      }
      var rcode := full.value;
      var checked := Check(mode, now, level, managed, sentEdns, response, opt, rcode, c.featureRetries);
      match checked {
        case Stop(failure) => return Stop(failure);
        case Again(why, forced) => return Again(why, forced);
        case Continue(settled) =>
          if settled {
            return Continue(response);
          }
      }
      r := Grade(mode, now, level, managed, received, opt, rcode, c);
    }

    method Grade(mode: ValidationMode, now: Time, level: Level, managed: bool, received: Received,
                 opt: Option<OptRecord>,
                 rcode: nat, c: Control)
      returns (r: Step<Packet>)
      modifies features
      ensures (Value(), r) == Graded(mode, now, level, managed, received, opt, rcode, c, old(Value()))
    {
      hide RcodeJudged, Credited;
      var judged := JudgeRcode(mode, level, received.response, opt, rcode, c);
      match judged {
        case Stop(failure) => return Stop(failure);
        case Again(why, forced) => return Again(why, forced);
        case Continue(asItIs) =>
          if !asItIs {
            Credit(level, now, managed, received.verifiesLevel, rcode, c.rcodeProbe);
          }
          return Continue(received.response);
      }
    }

    /** Sending and judging. */
    method Send(mode: ValidationMode, strictTls: bool, o: Observation, level: Level, managed: bool, sentEdns: bool,
                c: Control)
      returns (r: Step<Packet>)
      modifies this, features
      ensures (Value(), r) == Sent(mode, strictTls, o, level, managed, sentEdns, c, old(Value()))
    {
      hide Transmitted, Judged;
      var sent := Transmit(mode, strictTls, o, level, managed, c);
      match sent {
        case Stop(failure) => return Stop(failure);
        case Again(why, forced) => return Again(why, forced);
        case Continue(received) =>
          r := Judge(mode, o.now, level, managed, sentEdns, received, c);
      }
    }
  }

  method JudgeRcode(mode: ValidationMode, level: Level, response: Packet, opt: Option<OptRecord>, rcode: nat,
                    c: Control)
    returns (r: Step<bool>)
    ensures r == RcodeJudged(mode, level, response, opt, rcode, c)
  {
    hide ExtendedError;
    if rcode == RCODE_SERVFAIL {
      if opt.Some? {
        var ede := ExtendedError(opt.value.options);
        if ede.Err? {
          return Stop(Wire(ede.error));
        }
        if ede.value.Some? {
          if ede.value.value == EDE_NOT_READY {
            return Again(NotReady, Some(level));
          }
          return Continue(true);
        }
      }
      if level.UsesEdns() && !mode.Yes? && !c.servfailRetried {
        return Again(ServfailRetry, Some(level));
      }
    }
    if RequestsDowngrade(rcode) && level.UsesEdns() && !mode.Yes? && c.featureRetries < MAX_FEATURE_RETRIES {
      return Again(RcodeProbe, Some(level.Lower()));
    }
    return Continue(false);
  }

  /** One pass through the loop body. */
  method RunRound(server: Server, mode: ValidationMode, strictTls: bool, query: Packet, budget: Budget, o: Observation,
                  c: Control)
    returns (ghost round: Round, attempt: Option<Attempt>, judged: Step<Packet>)
    modifies server, server.features, budget
    ensures round == RoundOf(mode, strictTls, query, old(server.Value()), old(budget.attempts), o, c)
    ensures server.Value() == round.server
    ensures attempt.None? ==> round.Unsent? && judged == Stop(round.failure) && budget.attempts == old(budget.attempts)
    ensures attempt.Some? ==> round.Tried? && attempt == Some(round.attempt) && judged == round.judged &&
                              budget.attempts == old(budget.attempts) + 1
  {
    hide PrepareQuery, Chosen, Sent, Interfered;
    round := RoundOf(mode, strictTls, query, server.Value(), budget.attempts, o, c);
    server.Interfere(mode, o.before);
    var asked := server.features.possible;
    var level := server.ChooseLevel(mode, o, c.forcedLevel);
    var chosen := server.features.possible;
    var prepared := PrepareQuery(query, level, o.payloadSize);
    if prepared.Err? {
      return round, None, Stop(Wire(prepared.error));
    }
    var refused := budget.BeginAttempt(o.expired);
    if refused.Some? {
      return round, None, Stop(refused.value);
    }
    server.Interfere(mode, o.between);
    var sending := server.features.possible;
    var managed := prepared.value.managedOpt;
    judged := server.Send(mode, strictTls, o, level, managed, prepared.value.sentEdns, c);
    attempt := Some(Attempt(prepared.value.packet, level, managed, asked, chosen, sending, server.features.possible,
                            if judged.Again? then Retried(judged.why, judged.forced) else Last));
  }

  /** `exchange_with_features`, with `world(k)` what round `k` meets outside: exactly the exchange
      `ExchangeSafe` speaks of. */
  method RunExchange(server: Server, mode: ValidationMode, strictTls: bool, query: Packet, budget: Budget,
                     world: nat -> Observation)
    returns (outcome: Outcome, log: seq<Attempt>)
    requires budget.attempts <= MAX_ATTEMPTS
    modifies server, server.features, budget
    ensures Exchanged(outcome, log, server.Value(), budget.attempts) ==
            Exchange(mode, strictTls, query, old(server.Value()), old(budget.attempts), world)
    ensures old(Sound(server.features.Value())) ==>
              Safe(mode, query, world, old(server.features.Value()), old(budget.attempts),
                   Exchanged(outcome, log, server.Value(), budget.attempts))
  {
    hide RoundOf, ResponseForClient, Safe, Sound;
    ghost var all := Exchange(mode, strictTls, query, server.Value(), budget.attempts, world);
    if Sound(server.features.Value()) {
      ExchangeSafe(mode, strictTls, query, server.Value(), budget.attempts, world);
    }
    log := [];
    var c, round: nat := START, 0;
    while true
      invariant budget.attempts <= MAX_ATTEMPTS
      invariant all == ExchangeFrom(mode, strictTls, query, server.Value(), budget.attempts, world, round, c, log)
      decreases MAX_ATTEMPTS - budget.attempts
    {
      RoundBudget(mode, strictTls, query, server.Value(), budget.attempts, world(round), c);
      ghost var r;
      var attempt, judged;
      r, attempt, judged := RunRound(server, mode, strictTls, query, budget, world(round), c);
      round := round + 1;
      if attempt.None? {
        return Failed(judged.failure), log;
      }
      log := log + [attempt.value];
      match judged {
        case Stop(failure) => return Failed(failure), log;
        case Continue(response) => return Answered(query, response), log;
        case Again(why, forced) => c := Advance(c, why, forced);
      }
    }
  }

  lemma RoundBudget(mode: ValidationMode, strictTls: bool, query: Packet, s: ServerState, attempts: nat, o: Observation,
                    c: Control)
    ensures RoundOf(mode, strictTls, query, s, attempts, o, c).Tried? ==> attempts < MAX_ATTEMPTS
  {
    hide PrepareQuery, Chosen, Sent, Interfered;
  }
}
