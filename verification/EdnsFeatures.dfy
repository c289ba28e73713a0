/** The per-server feature level: downgrade, grace period and recovery (`src/edns.rs`). */
module EdnsFeatures {
  import opened Bytes
  import opened Wire
  import opened EdnsPacket

  const RETRY_ATTEMPTS := 3
  const GRACE_MIN := 5 * 60
  const GRACE_MAX := 6 * 60 * 60

  /** Instants and durations in seconds. */
  type Time = int

  datatype Features = Features(
    possible: Level,
    verified: Level,
    verifiedOnce: bool,
    failedAttempts: nat,
    retryAfter: Option<Time>,
    gracePeriod: nat,
    badOpt: bool)

  const DEFAULT := Features(DnssecOk, Udp, false, 0, None, GRACE_MIN, false)

  function Min(a: nat, b: nat): nat { if a < b then a else b }

  predicate RetryDue(f: Features, now: Time) {
    f.retryAfter.Some? && f.retryAfter.value <= now
  }

  /** The level `possible_level` starts from before it looks at the retry deadline. */
  function Clamped(f: Features, best: Level): Level {
    var p := if f.badOpt && f.possible.UsesEdns() then Udp else f.possible;
    if p.Leq(best) then p else best
  }

  predicate Recovers(f: Features, best: Level, now: Time) {
    Clamped(f, best) != best && RetryDue(f, now)
  }

  /** The state after `possible_level`, which returns its `possible`. */
  function PossibleLevel(f: Features, best: Level, now: Time): Features {
    if Recovers(f, best, now) then
      f.(possible := best, failedAttempts := 0, retryAfter := None, badOpt := false,
         gracePeriod := Min(2 * f.gracePeriod, GRACE_MAX))
    else f.(possible := Clamped(f, best))
  }

  function RecordSuccess(f: Features, level: Level): Features {
    f.(verifiedOnce := true,
       verified := if level.Leq(f.verified) then f.verified else level,
       failedAttempts := if level == f.possible then 0 else f.failedAttempts)
  }

  function DowngradeTo(f: Features, level: Level, now: Time): Features {
    if f.possible.Leq(level) then f
    else f.(possible := level, verified := if f.verified.Leq(level) then f.verified else level,
            failedAttempts := 0, retryAfter := Some(now + f.gracePeriod))
  }

  function RecordFailure(f: Features, level: Level, now: Time): (Features, Option<Level>) {
    if level != f.possible then (f, None)
    else
      var g := f.(failedAttempts := Min(f.failedAttempts + 1, 255));
      if g.failedAttempts < RETRY_ATTEMPTS || level.Lower() == level then (g, None)
      else (DowngradeTo(g, level.Lower(), now), Some(level.Lower()))
  }

  function RecordBadOpt(f: Features, level: Level, now: Time): Features {
    if level.UsesEdns() then DowngradeTo(f.(badOpt := true), Udp, now) else f
  }

  function RecordDoOff(f: Features, level: Level, now: Time): Features {
    if level.DnssecOk? then DowngradeTo(f, Edns0, now) else f
  }

  datatype Op =
    | PossibleLevelOp(now: Time)
    | SuccessOp(level: Level)
    | FailureOp(level: Level, now: Time)
    | BadOptOp(level: Level, now: Time)
    | DoOffOp(level: Level, now: Time)
    | DowngradeOp(level: Level, now: Time)
    | ResetOp

  function Apply(f: Features, best: Level, op: Op): Features {
    match op
    case PossibleLevelOp(now) => PossibleLevel(f, best, now)
    case SuccessOp(level) => RecordSuccess(f, level)
    case FailureOp(level, now) => RecordFailure(f, level, now).0
    case BadOptOp(level, now) => RecordBadOpt(f, level, now)
    case DoOffOp(level, now) => RecordDoOff(f, level, now)
    case DowngradeOp(level, now) => DowngradeTo(f, level, now)
    case ResetOp => DEFAULT
  }

  /** A run with one configured best level. */
  function Run(best: Level, ops: seq<Op>): Features {
    if ops == [] then DEFAULT else Apply(Run(best, ops[..|ops| - 1]), best, ops[|ops| - 1])
  }

  /** How often the run recovered since its last reset. */
  function Recoveries(best: Level, ops: seq<Op>): nat {
    if ops == [] then 0
    else
      var before, op := ops[..|ops| - 1], ops[|ops| - 1];
      if op.ResetOp? then 0
      else Recoveries(best, before) +
           (if op.PossibleLevelOp? && Recovers(Run(best, before), best, op.now) then 1 else 0)
  }

  function Pow2(k: nat): nat { if k == 0 then 1 else 2 * Pow2(k - 1) }

  /** What holds whatever best levels are passed. */
  predicate Sound(f: Features) {
    && (f.badOpt ==> f.possible == Udp)
    && (f.possible.UsesEdns() ==> f.failedAttempts < RETRY_ATTEMPTS)
    && GRACE_MIN <= f.gracePeriod <= GRACE_MAX
  }

  /** A degraded server has a deadline. */
  ghost predicate CanRecover(f: Features, best: Level) {
    !best.Leq(f.possible) ==> f.retryAfter.Some?
  }

  lemma ApplySound(f: Features, best: Level, op: Op)
    requires Sound(f)
    ensures Sound(Apply(f, best, op))
  {}

  lemma ApplyRecoverable(f: Features, best: Level, op: Op)
    requires Sound(f) && CanRecover(f, best)
    ensures CanRecover(Apply(f, best, op), best)
  {}

  lemma {:induction false} RunKeeps(best: Level, ops: seq<Op>)
    ensures Sound(Run(best, ops)) && CanRecover(Run(best, ops), best)
    ensures Run(best, ops).gracePeriod == Min(GRACE_MIN * Pow2(Recoveries(best, ops)), GRACE_MAX)
  {
    hide Sound, CanRecover, Apply, Recovers, Pow2, Min;
    if ops == [] {
      StartKeeps(best);
    } else {
      var before := ops[..|ops| - 1];
      RunKeeps(best, before);
      ApplySound(Run(best, before), best, ops[|ops| - 1]);
      ApplyRecoverable(Run(best, before), best, ops[|ops| - 1]);
      ApplyGrace(Run(best, before), best, ops[|ops| - 1], Recoveries(best, before));
    }
  }

  lemma StartKeeps(best: Level)
    ensures Sound(DEFAULT) && CanRecover(DEFAULT, best)
    ensures DEFAULT.gracePeriod == Min(GRACE_MIN * Pow2(0), GRACE_MAX)
  {}

  /** A recovery doubles the grace period, a reset starts it over, nothing else touches it. */
  lemma ApplyGrace(f: Features, best: Level, op: Op, k: nat)
    requires f.gracePeriod == Min(GRACE_MIN * Pow2(k), GRACE_MAX)
    ensures Apply(f, best, op).gracePeriod ==
            if op.ResetOp? then Min(GRACE_MIN * Pow2(0), GRACE_MAX)
            else if op.PossibleLevelOp? && Recovers(f, best, op.now) then Min(GRACE_MIN * Pow2(k + 1), GRACE_MAX)
            else f.gracePeriod
  {
    hide Pow2, Recovers;
    GraceDoubles(k);
    StartKeeps(best);
  }

  lemma GraceDoubles(k: nat)
    ensures Min(2 * Min(GRACE_MIN * Pow2(k), GRACE_MAX), GRACE_MAX) == Min(GRACE_MIN * Pow2(k + 1), GRACE_MAX)
  {}

  /** In every run a server below its best level has a deadline, and asking for its level
      restores the best one exactly from that deadline on. */
  lemma DegradedServerRecovers(best: Level, ops: seq<Op>, now: Time)
    requires var f := Run(best, ops); !best.Leq(f.possible)
    ensures var f := Run(best, ops);
            && f.retryAfter.Some?
            && (PossibleLevel(f, best, now).possible == best <==> f.retryAfter.value <= now)
            && (now < f.retryAfter.value ==> PossibleLevel(f, best, now) == f)
  {
    RunKeeps(best, ops);
  }

  /** `verified <= possible` is not an invariant: an operation keeps it exactly when it neither
      reports success above the possible level nor asks with a best level below the verified one. */
  lemma VerifiedBound(f: Features, best: Level, op: Op)
    requires Sound(f) && f.verified.Leq(f.possible)
    ensures var g := Apply(f, best, op);
            g.verified.Leq(g.possible) <==>
            && (op.SuccessOp? ==> op.level.Leq(f.possible))
            && (op.PossibleLevelOp? ==> f.verified.Leq(best))
  {}

  lemma VerifiedMayExceedPossible()
    ensures var f := Run(Edns0, [PossibleLevelOp(0), SuccessOp(DnssecOk)]);
            !f.verified.Leq(f.possible)
  {
    var ops := [PossibleLevelOp(0), SuccessOp(DnssecOk)];
    assert ops[..1][..0] == [] && ops[..1] == [PossibleLevelOp(0)];
    assert Run(Edns0, ops[..1]) == PossibleLevel(DEFAULT, Edns0, 0);
  }

  /** `ServerFeatureState`. */
  class ServerFeatureState {
    var possible: Level
    var verified: Level
    var verifiedOnce: bool
    var failedAttempts: nat
    var retryAfter: Option<Time>
    var gracePeriod: nat
    var badOpt: bool

    constructor ()
      ensures Value() == DEFAULT
    {
      possible, verified, verifiedOnce, failedAttempts := DnssecOk, Udp, false, 0;
      retryAfter, gracePeriod, badOpt := None, GRACE_MIN, false;
    }

    ghost function Value(): Features
      reads this
    {
      Features(possible, verified, verifiedOnce, failedAttempts, retryAfter, gracePeriod, badOpt)
    }

    method PossibleLevelNow(best: Level, now: Time) returns (level: Level)
      modifies this
      ensures Value() == PossibleLevel(old(Value()), best, now) && level == possible
      ensures old(Sound(Value())) ==> Sound(Value())
    {
      if badOpt && possible.UsesEdns() {
        possible := Udp;
      }
      if !possible.Leq(best) {
        possible := best;
      }
      var retryDue := retryAfter.Some? && retryAfter.value <= now;
      if !best.Leq(possible) && retryDue {
        possible := best;
        failedAttempts := 0;
        retryAfter := None;
        badOpt := false;
        gracePeriod := Min(2 * gracePeriod, GRACE_MAX);
      }
      level := possible;
    }

    method Succeeded(level: Level)
      modifies this
      ensures Value() == RecordSuccess(old(Value()), level)
    {
      verifiedOnce := true;
      if !level.Leq(verified) {
        verified := level;
      }
      if level == possible {
        failedAttempts := 0;
      }
    }

    method Downgrade(level: Level, now: Time)
      modifies this
      ensures Value() == DowngradeTo(old(Value()), level, now)
    {
      if possible.Leq(level) {
        return;
      }
      possible := level;
      verified := if verified.Leq(level) then verified else level;
      failedAttempts := 0;
      retryAfter := Some(now + gracePeriod);
    }

    method Failed(level: Level, now: Time) returns (lower: Option<Level>)
      modifies this
      ensures (Value(), lower) == RecordFailure(old(Value()), level, now)
    {
      if level != possible {
        return None;
      }
      failedAttempts := Min(failedAttempts + 1, 255);
      if failedAttempts < RETRY_ATTEMPTS {
        return None;
      }
      var next := level.Lower();
      if next == level {
        return None;
      }
      Downgrade(next, now);
      lower := Some(next);
    }

    method SawBadOpt(level: Level, now: Time) returns (lower: Level)
      modifies this
      ensures Value() == RecordBadOpt(old(Value()), level, now) && lower == possible
    {
      if level.UsesEdns() {
        badOpt := true;
        Downgrade(Udp, now);
      }
      lower := possible;
    }

    method SawDoOff(level: Level, now: Time) returns (lower: Level)
      modifies this
      ensures Value() == RecordDoOff(old(Value()), level, now) && lower == possible
    {
      if level == DnssecOk {
        Downgrade(Edns0, now);
      }
      lower := possible;
    }
  }
}
