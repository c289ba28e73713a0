/** What the retry loop keeps to, whatever server, network and concurrent exchanges do
    (`src/resolver_edns.rs`). */
module EdnsExchangeSafety {
  import opened Bytes
  import opened Wire
  import opened EdnsPacket
  import opened EdnsFeatures
  import opened EdnsExchange

  /** A response that proves the server does DNSSEC: its own OPT of version 0 echoes DO and no
      root signature is missing. */
  ghost predicate ProvesDnssec(response: Packet) {
    && InspectOpt(response).Ok? && InspectOpt(response).value.Some?
    && InspectOpt(response).value.value.version == 0
    && InspectOpt(response).value.value.DnssecOk()
    && RootRrsigMissing(response) == Ok(false)
  }

  /** What a retry may ask for. */
  ghost predicate RetryAllowed(mode: ValidationMode, c: Control, level: Level, why: Why, forced: Option<Level>) {
    && (forced.Some? ==> forced.value.Leq(level))
    && (why in {FeatureRetry, RcodeProbe} ==> !mode.Yes? && c.featureRetries < MAX_FEATURE_RETRIES)
    && (why == TransportRetry ==> c.transportRetries < MAX_TRANSPORT_RETRIES)
    && (why == ServfailRetry ==> !mode.Yes? && !c.servfailRetried)
    && (why in {NotReady, ServfailRetry} ==> forced == Some(level))
    && (why in {TlsFellBack, TransportRetry} ==> forced.None?)
  }

  /** What the network handed over in a round. */
  predicate Handed(o: Observation, response: Packet) {
    o.first == Delivered(response) || o.retriedTcp == Delivered(response)
  }

  lemma InterferedAllowed(mode: ValidationMode, f: Features, g: Features)
    requires Sound(f)
    ensures Allowed(mode, f, Interfered(mode, f, g))
  {}

  lemma ChosenSafe(mode: ValidationMode, o: Observation, forced: Option<Level>, s: ServerState)
    requires Sound(s.features)
    ensures var (s', level) := Chosen(mode, o, forced, s);
            && Allowed(mode, s.features, s'.features)
            && (forced.Some? ==> level == forced.value && s'.features == s.features)
            && (forced.None? ==> level == s'.features.possible)
  {}

  lemma TransmittedSafe(mode: ValidationMode, strictTls: bool, o: Observation, level: Level, managed: bool, c: Control,
                        f: Features)
    requires Sound(f)
    ensures var (g, r) := Transmitted(mode, strictTls, o, level, managed, c, f);
            && Allowed(mode, f, g)
            && (mode.Yes? ==> g == f)
            && (r.Again? ==> RetryAllowed(mode, c, level, r.why, r.forced))
            && (r.Continue? ==> g == f && Handed(o, r.value.response))
  {
    hide TransmittedUdp;
    if o.first.Delivered? {
      TransmittedUdpSafe(mode, o, level, c, f);
    }
  }

  lemma TransmittedUdpSafe(mode: ValidationMode, o: Observation, level: Level, c: Control, f: Features)
    requires Sound(f) && o.first.Delivered?
    ensures var (g, r) := TransmittedUdp(mode, o, level, c, f);
            && Allowed(mode, f, g)
            && (mode.Yes? ==> g == f)
            && (r.Again? ==> RetryAllowed(mode, c, level, r.why, r.forced))
            && (r.Continue? ==> g == f && Handed(o, r.value.response))
  {
    hide ParseHeader;
  }

  lemma OptCheckedSafe(mode: ValidationMode, now: Time, level: Level, opt: Option<OptRecord>, rcode: nat, c: Control,
                       s: ServerState)
    requires Sound(s.features) && level.UsesEdns()
    ensures var (s', r) := OptChecked(mode, now, level, opt, rcode, c.featureRetries, s);
            && Allowed(mode, s.features, s'.features)
            && (mode.Yes? ==> s' == s)
            && (r.Continue? && mode.Yes? ==>
                  !r.value && opt.Some? && opt.value.version == 0 && (level.DnssecOk? ==> opt.value.DnssecOk()))
            && (r.Again? ==> r.why == FeatureRetry && RetryAllowed(mode, c, level, r.why, r.forced))
  {}

  lemma RrsigCheckedSafe(mode: ValidationMode, now: Time, response: Packet, level: Level, c: Control, s: ServerState)
    requires Sound(s.features) && level.DnssecOk?
    ensures var (s', r) := RrsigChecked(mode, now, response, c.featureRetries, s);
            && Allowed(mode, s.features, s'.features)
            && (mode.Yes? ==> s'.features == s.features)
            && (r.Continue? ==> s' == s && RootRrsigMissing(response) == Ok(false))
            && (r.Again? ==> r.why == FeatureRetry && RetryAllowed(mode, c, level, r.why, r.forced))
  {
    hide RootRrsigMissing;
  }

  lemma CheckedSafe(mode: ValidationMode, now: Time, level: Level, managed: bool, sentEdns: bool, response: Packet,
                    rcode: nat, c: Control, s: ServerState)
    requires Sound(s.features) && (managed ==> (sentEdns <==> level.UsesEdns())) && InspectOpt(response).Ok?
    ensures var (s', r) :=
              Checked(mode, now, level, managed, sentEdns, response, InspectOpt(response).value, rcode,
                  c.featureRetries, s);
            && Allowed(mode, s.features, s'.features)
            && (mode.Yes? ==> s'.features == s.features)
            && (r.Continue? && mode.Yes? ==> !r.value && (managed && level.DnssecOk? ==> ProvesDnssec(response)))
            && (r.Again? ==> r.why == FeatureRetry && RetryAllowed(mode, c, level, r.why, r.forced))
  {
    hide InspectOpt, RootRrsigMissing, OptChecked, RrsigChecked, RetryAllowed;
    var opt := InspectOpt(response).value;
    if managed && sentEdns {
      OptCheckedSafe(mode, now, level, opt, rcode, c, s);
    }
    var s1 := if managed && sentEdns then OptChecked(mode, now, level, opt, rcode, c.featureRetries, s).0 else s;
    if managed && level.DnssecOk? {
      RrsigCheckedSafe(mode, now, response, level, c, s1);
    }
  }

  lemma RcodeJudgedSafe(mode: ValidationMode, level: Level, response: Packet, opt: Option<OptRecord>, rcode: nat,
                        c: Control)
    ensures var r := RcodeJudged(mode, level, response, opt, rcode, c);
            r.Again? ==> RetryAllowed(mode, c, level, r.why, r.forced)
  {
    hide ExtendedError;
  }

  lemma CreditedSafe(mode: ValidationMode, level: Level, now: Time, managed: bool, verifies: bool, rcode: nat,
                     rcodeProbe: bool, s: ServerState)
    requires Sound(s.features) && (mode.Yes? ==> !rcodeProbe)
    ensures Allowed(mode, s.features, Credited(level, now, managed, verifies, rcode, rcodeProbe, s).features)
  {}

  lemma JudgedSafe(mode: ValidationMode, now: Time, level: Level, managed: bool, sentEdns: bool, received: Received,
                   c: Control, s: ServerState)
    requires Sound(s.features) && (managed ==> (sentEdns <==> level.UsesEdns())) && (mode.Yes? ==> !c.rcodeProbe)
    ensures var (s', r) := Judged(mode, now, level, managed, sentEdns, received, c, s);
            && Allowed(mode, s.features, s'.features)
            && (r.Continue? ==> r.value == received.response)
            && (r.Continue? && mode.Yes? && managed && level.DnssecOk? ==> ProvesDnssec(received.response))
            && (r.Again? ==> RetryAllowed(mode, c, level, r.why, r.forced))
  {
    hide InspectOpt, FullRcode, Checked, RcodeJudged, Credited, RetryAllowed, ProvesDnssec, Sound;
    var response := received.response;
    if InspectOpt(response).Ok? && FullRcode(response, InspectOpt(response).value).Ok? {
      var opt := InspectOpt(response).value;
      var rcode := FullRcode(response, opt).value;
      CheckedSafe(mode, now, level, managed, sentEdns, response, rcode, c, s);
      var s1 := Checked(mode, now, level, managed, sentEdns, response, opt, rcode, c.featureRetries, s).0;
      RcodeJudgedSafe(mode, level, response, opt, rcode, c);
      CreditedSafe(mode, level, now, managed, received.verifiesLevel, rcode, c.rcodeProbe, s1);
    }
  }

  lemma SentSafe(mode: ValidationMode, strictTls: bool, o: Observation, level: Level, managed: bool, sentEdns: bool,
                 c: Control, s: ServerState)
    requires Sound(s.features) && (managed ==> (sentEdns <==> level.UsesEdns())) && (mode.Yes? ==> !c.rcodeProbe)
    ensures var (s', r) := Sent(mode, strictTls, o, level, managed, sentEdns, c, s);
            && Allowed(mode, s.features, s'.features)
            && (r.Continue? ==> Handed(o, r.value))
            && (r.Continue? && mode.Yes? && managed && level.DnssecOk? ==> ProvesDnssec(r.value))
            && (r.Again? ==> RetryAllowed(mode, c, level, r.why, r.forced))
  {
    hide Transmitted, Judged, RetryAllowed, ProvesDnssec, Sound, Handed;
    TransmittedSafe(mode, strictTls, o, level, managed, c, s.features);
    var (f, sent) := Transmitted(mode, strictTls, o, level, managed, c, s.features);
    if sent.Continue? {
      JudgedSafe(mode, o.now, level, managed, sentEdns, sent.value, c, s.(features := f));
    }
  }

  lemma PreparedLevels(query: Packet, level: Level, size: U16)
    requires PrepareQuery(query, level, size).Ok?
    ensures var p := PrepareQuery(query, level, size).value;
            p.managedOpt ==> (p.sentEdns <==> level.UsesEdns())
  {
    hide Validate, ScanPacket, RemoveOpt, EncodeOpt, OurOpt, ReplaceSpan, AppendOpt;
  }

  /** The attempt is what was sent at that level for the query. */
  ghost predicate SentFor(query: Packet, o: Observation, a: Attempt) {
    var prepared := PrepareQuery(query, a.level, o.payloadSize);
    prepared.Ok? && prepared.value.packet == a.sent && prepared.value.managedOpt == a.managed
  }

  lemma RoundSafe(mode: ValidationMode, strictTls: bool, query: Packet, s: ServerState, attempts: nat, o: Observation,
                  c: Control)
    requires Sound(s.features) && (mode.Yes? ==> !c.rcodeProbe)
    ensures var r := RoundOf(mode, strictTls, query, s, attempts, o, c);
            && Allowed(mode, s.features, r.server.features)
            && (r.Tried? ==>
                  && attempts < MAX_ATTEMPTS
                  && SentFor(query, o, r.attempt)
                  && (c.forcedLevel.Some? ==> r.attempt.level == c.forcedLevel.value)
                  && (c.forcedLevel.None? ==> r.attempt.level == r.attempt.chosen)
                  && r.attempt.judged == r.server.features.possible
                  && (mode.Yes? ==> !r.attempt.Lowered())
                  && r.attempt.end == (if r.judged.Again? then Retried(r.judged.why, r.judged.forced) else Last)
                  && (r.judged.Again? ==> RetryAllowed(mode, c, r.attempt.level, r.judged.why, r.judged.forced))
                  && (r.judged.Continue? ==> Handed(o, r.judged.value))
                  && (r.judged.Continue? && mode.Yes? && r.attempt.managed && r.attempt.level.DnssecOk? ==>
                        ProvesDnssec(r.judged.value)))
  {
    hide Chosen, Sent, PrepareQuery, RetryAllowed, ProvesDnssec, Handed, Sound, Interfered;
    InterferedAllowed(mode, s.features, o.before);
    var asked := s.(features := Interfered(mode, s.features, o.before));
    ChosenSafe(mode, o, c.forcedLevel, asked);
    var (chosen, level) := Chosen(mode, o, c.forcedLevel, asked);
    var prepared := PrepareQuery(query, level, o.payloadSize);
    if prepared.Ok? {
      PreparedLevels(query, level, o.payloadSize);
      InterferedAllowed(mode, chosen.features, o.between);
      var sending := chosen.(features := Interfered(mode, chosen.features, o.between));
      SentSafe(mode, strictTls, o, level, prepared.value.managedOpt, prepared.value.sentEdns, c, sending);
    }
  }

  // Whole exchanges.

  /** How many attempts ended in one of these retries. */
  function Count(log: seq<Attempt>, whys: set<Why>): nat {
    if log == [] then 0
    else Count(log[..|log| - 1], whys) + (if log[|log| - 1].end.Retried? &&
        log[|log| - 1].end.why in whys then 1 else 0)
  }

  lemma CountAppend(log: seq<Attempt>, a: Attempt, whys: set<Why>)
    ensures Count(log + [a], whys) == Count(log, whys) + (if a.end.Retried? && a.end.why in whys then 1 else 0)
  {
    assert (log + [a])[..|log|] == log;
  }

  predicate Forces(a: Attempt) {
    a.end.Retried? && a.end.forced.Some?
  }

  /** Every forced level is at most the level it was forced from, and binds all later attempts. */
  ghost predicate ForcedBinds(log: seq<Attempt>) {
    && (forall i :: 0 <= i < |log| && Forces(log[i]) ==> log[i].end.forced.value.Leq(log[i].level))
    && (forall i, j :: 0 <= i < j < |log| && Forces(log[i]) ==> log[j].level.Leq(log[i].end.forced.value))
  }

  /** With validation required nothing is lowered: no attempt drops the possible level and a
      forced level is the level just used. */
  ghost predicate NeverLowers(log: seq<Attempt>) {
    forall i :: 0 <= i < |log| ==>
      !log[i].Lowered() && (log[i].end.Retried? ==>
        log[i].end.why !in {FeatureRetry, RcodeProbe, ServfailRetry} &&
        (log[i].end.forced.Some? ==> log[i].end.forced.value == log[i].level))
  }

  /** The attempts are those of the rounds from the first on. */
  ghost predicate SentInTurn(query: Packet, world: nat -> Observation, log: seq<Attempt>) {
    forall k :: 0 <= k < |log| ==> SentFor(query, world(k), log[k])
  }

  /** The log and the variables after any number of rounds. */
  ghost predicate Consistent(mode: ValidationMode, query: Packet, world: nat -> Observation, log: seq<Attempt>,
                             c: Control) {
    && (forall i :: 0 <= i < |log| ==> log[i].end.Retried?)
    && c.featureRetries == Count(log, {FeatureRetry, RcodeProbe}) <= MAX_FEATURE_RETRIES
    && c.transportRetries == Count(log, {TransportRetry}) <= MAX_TRANSPORT_RETRIES
    && Count(log, {ServfailRetry}) == (if c.servfailRetried then 1 else 0)
    && ForcedBinds(log) && SentInTurn(query, world, log)
    && (forall i :: 0 <= i < |log| && Forces(log[i]) ==>
          c.forcedLevel.Some? && c.forcedLevel.value.Leq(log[i].end.forced.value))
    && (mode.Yes? ==> NeverLowers(log) && !c.rcodeProbe)
  }

  /** A finished log: only the last attempt may have ended the exchange. */
  ghost predicate Finished(mode: ValidationMode, query: Packet, world: nat -> Observation, log: seq<Attempt>) {
    && (forall i :: 0 <= i < |log| && log[i].end.Last? ==> i == |log| - 1)
    && Count(log, {FeatureRetry, RcodeProbe}) <= MAX_FEATURE_RETRIES
    && Count(log, {TransportRetry}) <= MAX_TRANSPORT_RETRIES
    && Count(log, {ServfailRetry}) <= 1
    && ForcedBinds(log) && SentInTurn(query, world, log)
    && (mode.Yes? ==> NeverLowers(log))
  }

  lemma ForcedBindsAppend(log: seq<Attempt>, c: Control, a: Attempt)
    requires ForcedBinds(log)
    requires forall i :: 0 <= i < |log| && Forces(log[i]) ==>
               c.forcedLevel.Some? && c.forcedLevel.value.Leq(log[i].end.forced.value)
    requires c.forcedLevel.Some? ==> a.level == c.forcedLevel.value
    requires Forces(a) ==> a.end.forced.value.Leq(a.level)
    ensures ForcedBinds(log + [a])
  {}

  lemma AppendConsistent(mode: ValidationMode, query: Packet, world: nat -> Observation, log: seq<Attempt>, c: Control,
                         a: Attempt)
    requires Consistent(mode, query, world, log, c) && a.end.Retried? && SentFor(query, world(|log|), a)
    requires c.forcedLevel.Some? ==> a.level == c.forcedLevel.value
    requires RetryAllowed(mode, c, a.level, a.end.why, a.end.forced)
    requires mode.Yes? ==> !a.Lowered()
    ensures Consistent(mode, query, world, log + [a], Advance(c, a.end.why, a.end.forced))
  {
    hide Count, ForcedBinds, SentFor;
    CountAppend(log, a, {FeatureRetry, RcodeProbe});
    CountAppend(log, a, {TransportRetry});
    CountAppend(log, a, {ServfailRetry});
    ForcedBindsAppend(log, c, a);
  }

  lemma AppendFinished(mode: ValidationMode, query: Packet, world: nat -> Observation, log: seq<Attempt>, c: Control,
                       a: Attempt)
    requires Consistent(mode, query, world, log, c) && a.end.Last? && SentFor(query, world(|log|), a)
    requires c.forcedLevel.Some? ==> a.level == c.forcedLevel.value
    requires mode.Yes? ==> !a.Lowered()
    ensures Finished(mode, query, world, log + [a])
  {
    hide Count, ForcedBinds, SentFor;
    CountAppend(log, a, {FeatureRetry, RcodeProbe});
    CountAppend(log, a, {TransportRetry});
    CountAppend(log, a, {ServfailRetry});
    ForcedBindsAppend(log, c, a);
  }

  lemma StartConsistent(mode: ValidationMode, query: Packet, world: nat -> Observation)
    ensures Consistent(mode, query, world, [], START)
  {}

  lemma ConsistentIsFinished(mode: ValidationMode, query: Packet, world: nat -> Observation, log: seq<Attempt>,
                             c: Control)
    requires Consistent(mode, query, world, log, c)
    ensures Finished(mode, query, world, log) && (mode.Yes? ==> !c.rcodeProbe)
  {}

  /** What an exchange keeps to. */
  ghost predicate Safe(mode: ValidationMode, query: Packet, world: nat -> Observation, before: Features, attempts: nat,
                       e: Exchanged)
  {
    && Allowed(mode, before, e.server.features)
    && e.attempts == attempts + |e.log| <= MAX_ATTEMPTS
    && Finished(mode, query, world, e.log)
    && (e.outcome.Answer? ==>
          && e.log != [] && ResponseForClient(query, e.outcome.response) == Ok(e.outcome.packet)
          && Handed(world(|e.log| - 1), e.outcome.response)
          && var last := e.log[|e.log| - 1];
          && (mode.Yes? && last.managed && last.level.DnssecOk? ==> ProvesDnssec(e.outcome.response)))
  }

  lemma {:induction false} ExchangeFromSafe(mode: ValidationMode, strictTls: bool, query: Packet, s: ServerState,
                                            attempts: nat, world: nat -> Observation, c: Control, log: seq<Attempt>)
    requires Sound(s.features) && Consistent(mode, query, world, log, c) && |log| <= attempts <= MAX_ATTEMPTS
    ensures Safe(mode, query, world, s.features, attempts - |log|,
                 ExchangeFrom(mode, strictTls, query, s, attempts, world, |log|, c, log))
    decreases MAX_ATTEMPTS - attempts
  {
    hide RoundOf, Safe, Consistent, RetryAllowed, SentFor, Sound, Allowed, ProvesDnssec, Handed;
    var o := world(|log|);
    ConsistentIsFinished(mode, query, world, log, c);
    RoundSafe(mode, strictTls, query, s, attempts, o, c);
    var r := RoundOf(mode, strictTls, query, s, attempts, o, c);
    if r.Unsent? {
      UnsentSafe(mode, query, world, s.features, attempts, r.server, r.failure, log, c);
    } else {
      AllowedSound(mode, s.features, r.server.features);
      if r.judged.Again? {
        var c' := Advance(c, r.judged.why, r.judged.forced);
        AppendConsistent(mode, query, world, log, c, r.attempt);
        ExchangeFromSafe(mode, strictTls, query, r.server, attempts + 1, world, c', log + [r.attempt]);
        SafeSince(mode, query, world, s.features, r.server.features, attempts - |log|,
                  ExchangeFrom(mode, strictTls, query, r.server, attempts + 1, world, |log| + 1, c',
                      log + [r.attempt]));
      } else {
        LastSafe(mode, query, world, s.features, attempts, r, log, c);
      }
    }
  }

  lemma UnsentSafe(mode: ValidationMode, query: Packet, world: nat -> Observation, before: Features, attempts: nat,
                   s: ServerState, failure: Failure, log: seq<Attempt>, c: Control)
    requires Allowed(mode, before, s.features) && Consistent(mode, query, world, log, c) &&
             |log| <= attempts <= MAX_ATTEMPTS
    ensures Safe(mode, query, world, before, attempts - |log|, Exchanged(Failed(failure), log, s, attempts))
  {
    hide Allowed, Consistent, Finished;
    ConsistentIsFinished(mode, query, world, log, c);
  }

  /** The round that ends the exchange. */
  lemma LastSafe(mode: ValidationMode, query: Packet, world: nat -> Observation, before: Features, attempts: nat,
                 r: Round,
                 log: seq<Attempt>, c: Control)
    requires r.Tried? && !r.judged.Again? && r.attempt.end == Last && Allowed(mode, before, r.server.features)
    requires Consistent(mode, query, world, log, c) && |log| <= attempts < MAX_ATTEMPTS
    requires SentFor(query, world(|log|), r.attempt) && (c.forcedLevel.Some? ==> r.attempt.level == c.forcedLevel.value)
    requires mode.Yes? ==> !r.attempt.Lowered()
    requires r.judged.Continue? ==> Handed(world(|log|), r.judged.value)
    requires r.judged.Continue? && mode.Yes? && r.attempt.managed && r.attempt.level.DnssecOk? ==>
             ProvesDnssec(r.judged.value)
    ensures var outcome := if r.judged.Continue? then Answered(query, r.judged.value) else Failed(r.judged.failure);
            Safe(mode, query, world, before, attempts - |log|,
                 Exchanged(outcome, log + [r.attempt], r.server, attempts + 1))
  {
    hide Allowed, Consistent, Finished, SentFor, Handed, ProvesDnssec, ResponseForClient;
    AppendFinished(mode, query, world, log, c, r.attempt);
  }

  /** What is safe from a later state on is safe from an earlier one on. */
  lemma SafeSince(mode: ValidationMode, query: Packet, world: nat -> Observation, f: Features, g: Features,
                  attempts: nat,
                  e: Exchanged)
    requires Allowed(mode, f, g) && Safe(mode, query, world, g, attempts, e)
    ensures Safe(mode, query, world, f, attempts, e)
  {
    hide Finished, Handed, ProvesDnssec, ResponseForClient;
    AllowedTwice(mode, f, g, e.server.features);
  }

  lemma AllowedSound(mode: ValidationMode, f: Features, g: Features)
    requires Allowed(mode, f, g)
    ensures Sound(g)
  {}

  lemma AllowedTwice(mode: ValidationMode, f: Features, g: Features, h: Features)
    requires Allowed(mode, f, g) && Allowed(mode, g, h)
    ensures Allowed(mode, f, h)
  {}

  /** Whatever server, network and concurrent exchanges do: each round spends one attempt of the
      budget, sends the query prepared at its level, feature and transport retries stay within their
      limits, a forced level binds all later attempts, an accepted response is one the last round was
      handed, and with validation required no round lowers the possible level and an accepted answer
      to the resolver's own DO query proves DNSSEC. */
  lemma ExchangeSafe(mode: ValidationMode, strictTls: bool, query: Packet, s: ServerState, attempts: nat,
                     world: nat -> Observation)
    requires Sound(s.features) && attempts <= MAX_ATTEMPTS
    ensures Safe(mode, query, world, s.features, attempts, Exchange(mode, strictTls, query, s, attempts, world))
  {
    hide ExchangeFrom, Safe, Consistent, Sound;
    StartConsistent(mode, query, world);
    ExchangeFromSafe(mode, strictTls, query, s, attempts, world, START, []);
  }
}
