/**
 The circuit breaker: a timed state machine whose operations each run under one lock.
 Clock readings are taken inside the lock, so a run sees them in order.
 */
module CircuitBreakers {
  import opened MachineInts
  import opened Options

  datatype Config = Config(failureThreshold: u64, recoveryTimeout: u64, halfOpenMaxCalls: u64)

  datatype CircuitState = Closed | Open | HalfOpen

  datatype Inner = Inner(
    state: CircuitState,
    failureCount: nat,
    successCount: nat,
    halfOpenAdmitted: nat,
    lastFailureTime: u64)

  const INITIAL := Inner(Closed, 0, 0, 0, 0)

  datatype Op =
    | Allow(now: u64)
    | Success
    | Failure(now: u64)
    | Reset

  /** Whether `allow` admits the caller. */
  function Admits(c: Config, s: Inner, now: u64): bool {
    match s.state
    case Closed => true
    case Open => SatSub(now, s.lastFailureTime) >= c.recoveryTimeout
    case HalfOpen => s.halfOpenAdmitted < c.halfOpenMaxCalls
  }

  function Next(c: Config, s: Inner, op: Op): Inner {
    match op
    case Allow(now) =>
      if s.state.Open? && Admits(c, s, now) then
        s.(state := HalfOpen, successCount := 0, halfOpenAdmitted := 1)
      else if s.state.HalfOpen? && Admits(c, s, now) then
        s.(halfOpenAdmitted := s.halfOpenAdmitted + 1)
      else s
    case Success =>
      if s.state.Closed? then s.(failureCount := 0)
      else if s.state.HalfOpen? then
        var successes := s.successCount + 1;
        if successes >= c.halfOpenMaxCalls
        then s.(state := Closed, failureCount := 0, successCount := successes)
        else s.(successCount := successes)
      else s
    case Failure(now) =>
      var t := s.(lastFailureTime := now);
      if s.state.Closed? then
        var failures := s.failureCount + 1;
        t.(failureCount := failures, state := if failures >= c.failureThreshold then Open else Closed)
      else t.(state := Open)
    case Reset =>
      s.(state := Closed, failureCount := 0, successCount := 0, halfOpenAdmitted := 0)
  }

  class CircuitBreaker {
    const config: Config
    var state: CircuitState
    var failureCount: nat
    var successCount: nat
    var halfOpenAdmitted: nat
    var lastFailureTime: u64

    function View(): Inner
      reads this
    {
      Inner(state, failureCount, successCount, halfOpenAdmitted, lastFailureTime)
    }

    constructor (config: Config)
      ensures this.config == config && View() == INITIAL
      ensures state.Closed? && failureCount == 0 && successCount == 0 && halfOpenAdmitted == 0
    {
      this.config := config;
      state := Closed;
      failureCount := 0;
      successCount := 0;
      halfOpenAdmitted := 0;
      lastFailureTime := 0;
    }

    method TryAllow(now: u64) returns (admitted: bool)
      modifies this
      ensures admitted == Admits(config, old(View()), now)
      ensures View() == Next(config, old(View()), Allow(now))
      ensures old(state).Closed? ==> admitted
      ensures old(state).Open? ==>
                (admitted <==> now >= old(lastFailureTime) + config.recoveryTimeout || config.recoveryTimeout == 0)
      ensures old(state).HalfOpen? ==> (admitted <==> old(halfOpenAdmitted) < config.halfOpenMaxCalls)
      ensures failureCount == old(failureCount) && lastFailureTime == old(lastFailureTime)
      ensures old(state).Open? && admitted ==> state.HalfOpen? && successCount == 0 && halfOpenAdmitted == 1
      ensures !(old(state).Open? && admitted) ==> state == old(state) && successCount == old(successCount)
      ensures old(state).HalfOpen? && admitted ==> halfOpenAdmitted == old(halfOpenAdmitted) + 1
      ensures !admitted || old(state).Closed? ==> halfOpenAdmitted == old(halfOpenAdmitted)
    {
      match state {
        case Closed =>
          admitted := true;
        case Open =>
          admitted := SatSub(now, lastFailureTime) >= config.recoveryTimeout;
          if admitted {
            state := HalfOpen;
            successCount := 0;
            halfOpenAdmitted := 1;
          }
        case HalfOpen =>
          admitted := halfOpenAdmitted < config.halfOpenMaxCalls;
          if admitted {
            halfOpenAdmitted := halfOpenAdmitted + 1;
          }
      }
    }

    method RecordSuccess()
      modifies this
      ensures View() == Next(config, old(View()), Success)
      ensures old(state).HalfOpen? ==>
                && successCount == old(successCount) + 1
                && (state.Closed? <==> successCount >= config.halfOpenMaxCalls) && !state.Open?
      ensures !old(state).HalfOpen? ==> state == old(state) && successCount == old(successCount)
      ensures failureCount == if state.Closed? then 0 else old(failureCount)
      ensures halfOpenAdmitted == old(halfOpenAdmitted) && lastFailureTime == old(lastFailureTime)
    {
      match state {
        case Closed =>
          failureCount := 0;
        case HalfOpen =>
          successCount := successCount + 1;
          if successCount >= config.halfOpenMaxCalls {
            state := Closed;
            failureCount := 0;
          }
        case Open =>
      }
    }

    method RecordFailure(now: u64)
      modifies this
      ensures View() == Next(config, old(View()), Failure(now))
      ensures lastFailureTime == now
      ensures old(state).Closed? ==>
                && failureCount == old(failureCount) + 1
                && (state.Open? <==> failureCount >= config.failureThreshold) && !state.HalfOpen?
      ensures !old(state).Closed? ==> state.Open? && failureCount == old(failureCount)
      ensures successCount == old(successCount) && halfOpenAdmitted == old(halfOpenAdmitted)
    {
      lastFailureTime := now;
      match state {
        case Closed =>
          failureCount := failureCount + 1;
          if failureCount >= config.failureThreshold {
            state := Open;
          }
        case HalfOpen =>
          state := Open;
        case Open =>
      }
    }

    method DoReset()
      modifies this
      ensures View() == Next(config, old(View()), Reset)
      ensures state.Closed? && failureCount == 0 && successCount == 0 && halfOpenAdmitted == 0
      ensures lastFailureTime == old(lastFailureTime)
    {
      state := Closed;
      failureCount := 0;
      successCount := 0;
      halfOpenAdmitted := 0;
    }
  }

  // ---------------------------------------------------------------------------
  // Runs
  // ---------------------------------------------------------------------------

  function Exec(c: Config, s: Inner, ops: seq<Op>): Inner
    decreases |ops|
  {
    if ops == [] then s else
      var l := |ops| - 1;
      Next(c, Exec(c, s, ops[..l]), ops[l])
  }

  /** The state after the first `i` operations. */
  function At(c: Config, s: Inner, ops: seq<Op>, i: nat): Inner
    requires i <= |ops|
  {
    Exec(c, s, ops[..i])
  }

  lemma AtNext(c: Config, s: Inner, ops: seq<Op>, i: nat)
    requires i < |ops|
    ensures At(c, s, ops, i + 1) == Next(c, At(c, s, ops, i), ops[i])
  {
    assert ops[..i + 1][..i] == ops[..i];
  }

  /** The counters fit the 64-bit words they live in. */
  lemma {:induction false} CountersFit(c: Config, ops: seq<Op>)
    ensures var s := Exec(c, INITIAL, ops);
            && s.failureCount <= Max(c.failureThreshold, 1)
            && s.successCount <= Max(c.halfOpenMaxCalls, 1)
            && s.halfOpenAdmitted <= Max(c.halfOpenMaxCalls, 1)
            && (s.state.Closed? ==> s.failureCount < Max(c.failureThreshold, 1))
            && (s.state.HalfOpen? ==> s.successCount < Max(c.halfOpenMaxCalls, 1))
    decreases |ops|
  {
    if ops != [] {
      CountersFit(c, ops[..|ops| - 1]);
    }
  }

  // ---------------------------------------------------------------------------
  // Tripping
  // ---------------------------------------------------------------------------

  /** Failures recorded since the last success or reset. */
  function FailureStreak(ops: seq<Op>): nat
    decreases |ops|
  {
    if ops == [] then 0 else
      var l := |ops| - 1;
      match ops[l]
      case Failure(_) => FailureStreak(ops[..l]) + 1
      case Allow(_) => FailureStreak(ops[..l])
      case _ => 0
  }

  /** A closed breaker's count is the current streak of failures, and below the threshold. */
  lemma {:induction false} ClosedCountsStreak(c: Config, ops: seq<Op>)
    ensures var s := Exec(c, INITIAL, ops);
            s.state.Closed? ==>
              && s.failureCount == FailureStreak(ops)
              && s.failureCount < Max(c.failureThreshold, 1)
    decreases |ops|
  {
    if ops != [] {
      ClosedCountsStreak(c, ops[..|ops| - 1]);
    }
  }

  /** A closed breaker trips exactly at the failure that completes a streak of the threshold. */
  lemma TripsIff(c: Config, ops: seq<Op>, op: Op)
    requires Exec(c, INITIAL, ops).state.Closed?
    ensures !Exec(c, INITIAL, ops + [op]).state.Closed?
            <==> op.Failure? && FailureStreak(ops + [op]) >= c.failureThreshold
    ensures Exec(c, INITIAL, ops + [op]).state != HalfOpen
  {
    ClosedCountsStreak(c, ops);
    assert (ops + [op])[..|ops|] == ops;
  }

  /** The reading of the last failure recorded, if any. */
  function LastFailure(ops: seq<Op>): Option<u64>
    decreases |ops|
  {
    if ops == [] then None
    else if ops[|ops| - 1].Failure? then Some(ops[|ops| - 1].now)
    else LastFailure(ops[..|ops| - 1])
  }

  lemma {:induction false} FailureIsStamped(c: Config, ops: seq<Op>)
    ensures var s := Exec(c, INITIAL, ops);
            && (LastFailure(ops).Some? ==> s.lastFailureTime == LastFailure(ops).value)
            && (!s.state.Closed? ==> LastFailure(ops).Some?)
    decreases |ops|
  {
    if ops != [] {
      FailureIsStamped(c, ops[..|ops| - 1]);
    }
  }

  /**
   Over every run, a closed breaker admits, and an open one admits exactly when the last
   failure recorded lies at least the timeout back.
   */
  lemma WhoIsAdmitted(c: Config, ops: seq<Op>, now: u64)
    ensures var s := Exec(c, INITIAL, ops);
            && (s.state.Closed? ==> Admits(c, s, now))
            && (s.state.Open? ==>
                  && LastFailure(ops).Some?
                  && (Admits(c, s, now) <==>
                        now >= LastFailure(ops).value + c.recoveryTimeout || c.recoveryTimeout == 0))
  {
    FailureIsStamped(c, ops);
  }

  // ---------------------------------------------------------------------------
  // Closing again
  // ---------------------------------------------------------------------------

  function Successes(ops: seq<Op>): nat
    decreases |ops|
  {
    if ops == [] then 0 else
      var l := |ops| - 1;
      Successes(ops[..l]) + if ops[l].Success? then 1 else 0
  }

  function Allows(ops: seq<Op>): nat
    decreases |ops|
  {
    if ops == [] then 0 else
      var l := |ops| - 1;
      Allows(ops[..l]) + if ops[l].Allow? then 1 else 0
  }

  /** Callers admitted by `ops`, starting from `s`. */
  function Admitted(c: Config, s: Inner, ops: seq<Op>): nat
    decreases |ops|
  {
    if ops == [] then 0 else
      var l := |ops| - 1;
      Admitted(c, s, ops[..l])
      + if ops[l].Allow? && Admits(c, Exec(c, s, ops[..l]), ops[l].now) then 1 else 0
  }

  /** Operation `j` is the probe that took the breaker from open to half-open. */
  ghost predicate OpensPhase(c: Config, s: Inner, ops: seq<Op>, j: nat) {
    && j < |ops|
    && At(c, s, ops, j).state.Open?
    && ops[j].Allow?
    && At(c, s, ops, j + 1).state.HalfOpen?
  }

  /** No failure and no reset from `j` on. */
  ghost predicate Undisturbed(ops: seq<Op>, j: nat) {
    forall k :: j <= k < |ops| ==> !ops[k].Failure? && !ops[k].Reset?
  }

  /** A half-open breaker counts what happened since the phase began, and nothing disturbed it. */
  ghost predicate PhaseSince(c: Config, ops: seq<Op>, j: nat) {
    var s := Exec(c, INITIAL, ops);
    && OpensPhase(c, INITIAL, ops, j)
    && Undisturbed(ops, j)
    && s.successCount == Successes(ops[j..])
    && s.halfOpenAdmitted == Admitted(c, At(c, INITIAL, ops, j), ops[j..])
  }

  lemma PhaseExtends(c: Config, ops: seq<Op>, op: Op, j: nat)
    requires PhaseSince(c, ops, j) && Exec(c, INITIAL, ops).state.HalfOpen?
    requires op.Allow? || op.Success?
    ensures PhaseSince(c, ops + [op], j)
  {
    var all := ops + [op];
    var from := At(c, INITIAL, ops, j);
    assert all[..|ops|] == ops && all[..j] == ops[..j] && all[..j + 1] == ops[..j + 1];
    assert all[j..] == ops[j..] + [op];
    assert all[j..][..|ops| - j] == ops[j..];
    ExecSplit(c, INITIAL, ops[..j], ops[j..]);
    assert ops[..j] + ops[j..] == ops;
  }

  lemma {:induction false} ExecSplit(c: Config, s: Inner, a: seq<Op>, b: seq<Op>)
    ensures Exec(c, s, a + b) == Exec(c, Exec(c, s, a), b)
    decreases |b|
  {
    if b == [] {
      assert a + b == a;
    } else {
      assert (a + b)[..|a + b| - 1] == a + b[..|b| - 1];
      ExecSplit(c, s, a, b[..|b| - 1]);
    }
  }

  /** Where the current half-open phase began. */
  lemma {:induction false} HalfOpenPhase(c: Config, ops: seq<Op>) returns (j: nat)
    requires Exec(c, INITIAL, ops).state.HalfOpen?
    ensures PhaseSince(c, ops, j)
    decreases |ops|
  {
    var l := |ops| - 1;
    var before := Exec(c, INITIAL, ops[..l]);
    assert ops == ops[..l] + [ops[l]];
    if before.state.HalfOpen? {
      j := HalfOpenPhase(c, ops[..l]);
      PhaseExtends(c, ops[..l], ops[l], j);
    } else {
      j := l;
      AtNext(c, INITIAL, ops, l);
      assert ops[..l + 1] == ops;
      assert ops[l..] == [ops[l]] && [ops[l]][..0] == [];
      assert Admitted(c, before, [ops[l]]) == 1 && Successes([ops[l]]) == 0;
    }
  }

  /**
   A half-open breaker closes (other than by reset) only on the success that makes the
   successes recorded since its phase began reach the configured number, with no failure
   recorded in between.
   */
  lemma ClosesOnlyAfterSuccesses(c: Config, ops: seq<Op>, op: Op) returns (j: nat)
    requires Exec(c, INITIAL, ops).state.HalfOpen? && !op.Reset?
    requires Exec(c, INITIAL, ops + [op]).state.Closed?
    ensures op.Success?
    ensures OpensPhase(c, INITIAL, ops + [op], j) && Undisturbed(ops + [op], j)
    ensures Successes((ops + [op])[j..]) == Max(c.halfOpenMaxCalls, 1)
    ensures Admitted(c, At(c, INITIAL, ops, j), ops[j..]) <= Max(c.halfOpenMaxCalls, 1)
  {
    var all := ops + [op];
    assert all[..|ops|] == ops;
    j := HalfOpenPhase(c, ops);
    CountersFit(c, ops);
    PhaseExtends(c, ops, op, j);
    assert all[j..] == ops[j..] + [op] && all[j..][..|ops| - j] == ops[j..];
  }

  /** No prefix of `ops` has more successes than allows. */
  ghost predicate Matched(ops: seq<Op>) {
    && (forall k :: 0 <= k < |ops| ==> ops[k].Allow? || ops[k].Success?)
    && forall k :: 0 <= k <= |ops| ==> Successes(ops[..k]) <= Allows(ops[..k])
  }

  /** An open breaker whose timeout has passed, and how far `ops` has brought it. */
  ghost predicate Recovering(c: Config, s: Inner, ops: seq<Op>) {
    var n := Max(c.halfOpenMaxCalls, 1);
    var t := Exec(c, s, ops);
    && Admitted(c, s, ops) == Allows(ops)
    && (if Allows(ops) == 0 then t == s
        else if Successes(ops) < n then
          t.state.HalfOpen? && t.halfOpenAdmitted == Allows(ops) && t.successCount == Successes(ops)
        else t.state.Closed?)
  }

  lemma {:induction false} RecoversStepwise(c: Config, s: Inner, ops: seq<Op>)
    requires s.state.Open? && Matched(ops)
    requires Allows(ops) <= Max(c.halfOpenMaxCalls, 1)
    requires forall k :: 0 <= k < |ops| && ops[k].Allow? ==>
               SatSub(ops[k].now, s.lastFailureTime) >= c.recoveryTimeout
    ensures Recovering(c, s, ops)
    decreases |ops|
  {
    if ops != [] {
      var l := |ops| - 1;
      assert forall k :: 0 <= k <= l ==> ops[..l][..k] == ops[..k];
      assert ops[..|ops|] == ops;
      assert Successes(ops[..l]) <= Allows(ops[..l]);
      assert Successes(ops[..l + 1]) <= Allows(ops[..l + 1]);
      RecoversStepwise(c, s, ops[..l]);
    }
  }

  /**
   After the timeout, as many allows as the breaker probes with and as many successes, in
   any order in which no success precedes its allow, are all admitted and close it.
   */
  lemma MatchedProbesClose(c: Config, s: Inner, ops: seq<Op>)
    requires s.state.Open? && Matched(ops)
    requires Allows(ops) == Successes(ops) == Max(c.halfOpenMaxCalls, 1)
    requires forall k :: 0 <= k < |ops| && ops[k].Allow? ==>
               SatSub(ops[k].now, s.lastFailureTime) >= c.recoveryTimeout
    ensures Admitted(c, s, ops) == Allows(ops)
    ensures Exec(c, s, ops).state.Closed?
  {
    RecoversStepwise(c, s, ops);
  }

  // ---------------------------------------------------------------------------
  // Probes that are never reported
  // ---------------------------------------------------------------------------

  /** All probes of the phase are out, and their successes so far do not close it. */
  ghost predicate ProbesOut(c: Config, s: Inner) {
    && s.state.HalfOpen?
    && s.halfOpenAdmitted >= c.halfOpenMaxCalls
    && s.successCount < Max(c.halfOpenMaxCalls, 1)
  }

  /** Nothing that ends the phase has been recorded. */
  ghost predicate Unresolved(c: Config, s: Inner, ops: seq<Op>) {
    Undisturbed(ops, 0) && s.successCount + Successes(ops) < Max(c.halfOpenMaxCalls, 1)
  }

  /** Until then nobody is admitted, however late. */
  lemma {:induction false} LostProbesWedge(c: Config, s: Inner, ops: seq<Op>)
    requires ProbesOut(c, s) && Unresolved(c, s, ops)
    ensures Admitted(c, s, ops) == 0
    ensures Exec(c, s, ops) == s.(successCount := s.successCount + Successes(ops))
    decreases |ops|
  {
    if ops != [] {
      LostProbesWedge(c, s, ops[..|ops| - 1]);
    }
  }

  /**
   Probes that are never reported wedge the breaker: it stays half-open, with all probes
   out, exactly as long as no failure, no reset and too few successes are recorded.
   */
  lemma {:induction false} WedgedIff(c: Config, s: Inner, ops: seq<Op>)
    requires ProbesOut(c, s)
    ensures (forall i :: 0 <= i <= |ops| ==> At(c, s, ops, i).state.HalfOpen?) <==> Unresolved(c, s, ops)
    decreases |ops|
  {
    assert ops[..|ops|] == ops && At(c, s, ops, |ops|) == Exec(c, s, ops);
    if ops != [] {
      var l := |ops| - 1;
      var before := ops[..l];
      WedgedIff(c, s, before);
      forall i | 0 <= i <= l ensures At(c, s, before, i) == At(c, s, ops, i) {
        assert before[..i] == ops[..i];
      }
      AtNext(c, s, ops, l);
      if Unresolved(c, s, before) {
        LostProbesWedge(c, s, before);
        assert At(c, s, ops, l) == s.(successCount := s.successCount + Successes(before));
        assert Undisturbed(ops, 0) <==> !ops[l].Failure? && !ops[l].Reset?;
      } else {
        assert !Unresolved(c, s, ops) by {
          if Undisturbed(ops, 0) {
            assert Undisturbed(before, 0);
          }
        }
      }
    } else {
      assert At(c, s, ops, 0) == s;
    }
  }

  /**
   The ways out: the success that completes the number, or a reset, lets everyone in again;
   a failure lets callers in once the timeout has passed since it; anything else nobody.
   */
  lemma WaysOut(c: Config, s: Inner, ops: seq<Op>, op: Op, now: u64)
    requires ProbesOut(c, s) && Unresolved(c, s, ops)
    ensures var t := Exec(c, s, ops + [op]);
            && (op.Reset? || (op.Success? && s.successCount + Successes(ops) + 1 >= c.halfOpenMaxCalls) ==>
                  t.state.Closed? && Admits(c, t, now))
            && (op.Failure? ==>
                  t.state.Open? && (Admits(c, t, now) <==> SatSub(now, op.now) >= c.recoveryTimeout))
            && (Unresolved(c, s, ops + [op]) ==> t.state.HalfOpen? && !Admits(c, t, now))
  {
    LostProbesWedge(c, s, ops);
    var all := ops + [op];
    assert all[..|ops|] == ops && all[|ops|] == op;
    if Unresolved(c, s, all) {
      LostProbesWedge(c, s, all);
    }
  }

  /** A breaker reached by a run has its probes out as soon as the admissions say so. */
  lemma ProbesOutReached(c: Config, ops: seq<Op>)
    ensures var s := Exec(c, INITIAL, ops);
            ProbesOut(c, s) <==> s.state.HalfOpen? && s.halfOpenAdmitted >= c.halfOpenMaxCalls
  {
    CountersFit(c, ops);
  }

  // ---------------------------------------------------------------------------
  // How much gets through while the breaker is not closed
  // ---------------------------------------------------------------------------

  /** Times are in order and none is before `from`. */
  ghost predicate InOrder(ops: seq<Op>, from: u64) {
    && (forall i :: 0 <= i < |ops| && HasTime(ops[i]) ==> from <= TimeOf(ops[i]))
    && forall i, j :: 0 <= i < j < |ops| && HasTime(ops[i]) && HasTime(ops[j])
                      ==> TimeOf(ops[i]) <= TimeOf(ops[j])
  }

  predicate HasTime(op: Op) {
    op.Allow? || op.Failure?
  }

  function TimeOf(op: Op): u64
    requires HasTime(op)
  {
    op.now
  }

  /** The last clock reading of a run that starts at `from`. */
  function LastTime(ops: seq<Op>, from: u64): u64
    decreases |ops|
  {
    if ops == [] then from else
      var l := |ops| - 1;
      if HasTime(ops[l]) then TimeOf(ops[l]) else LastTime(ops[..l], from)
  }

  lemma {:induction false} LastTimeBounds(ops: seq<Op>, from: u64)
    requires InOrder(ops, from)
    ensures from <= LastTime(ops, from)
    ensures forall i :: 0 <= i < |ops| && HasTime(ops[i]) ==> TimeOf(ops[i]) <= LastTime(ops, from)
    decreases |ops|
  {
    if ops != [] {
      LastTimeBounds(ops[..|ops| - 1], from);
    }
  }

  /** `ops` never brings the breaker back to closed. */
  ghost predicate StaysTripped(c: Config, s: Inner, ops: seq<Op>) {
    forall i :: 0 <= i <= |ops| ==> !At(c, s, ops, i).state.Closed?
  }

  /** `phases` half-open phases have begun, each at least a timeout after the previous failure. */
  ghost predicate Throttled(c: Config, since: u64, s: Inner, now: u64, admitted: nat, phases: nat) {
    var n := Max(c.halfOpenMaxCalls, 1);
    && s.lastFailureTime <= now
    && since + phases * c.recoveryTimeout <= now
    && (s.state.Open? ==> since + phases * c.recoveryTimeout <= s.lastFailureTime && admitted <= n * phases)
    && (s.state.HalfOpen? ==>
          phases > 0 && s.halfOpenAdmitted <= n && admitted <= n * (phases - 1) + s.halfOpenAdmitted)
  }

  lemma ThrottledStep(c: Config, since: u64, s: Inner, now: u64, admitted: nat, phases: nat, op: Op)
    returns (phases': nat)
    requires Throttled(c, since, s, now, admitted, phases) && !s.state.Closed?
    requires HasTime(op) ==> now <= TimeOf(op)
    requires !Next(c, s, op).state.Closed?
    ensures var now' := if HasTime(op) then TimeOf(op) else now;
            var admitted' := admitted + (if op.Allow? && Admits(c, s, op.now) then 1 else 0);
            Throttled(c, since, Next(c, s, op), now', admitted', phases')
  {
    var n := Max(c.halfOpenMaxCalls, 1);
    phases' := phases;
    if op.Allow? && s.state.Open? && Admits(c, s, op.now) {
      phases' := phases + 1;
      assert (phases + 1) * c.recoveryTimeout == phases * c.recoveryTimeout + c.recoveryTimeout;
    } else if s.state.HalfOpen? {
      assert n * phases == n * (phases - 1) + n;
    }
  }

  lemma {:induction false} ThrottledRun(c: Config, s: Inner, ops: seq<Op>, since: u64) returns (phases: nat)
    requires s.state.Open? && s.lastFailureTime == since
    requires InOrder(ops, since) && StaysTripped(c, s, ops)
    ensures Throttled(c, since, Exec(c, s, ops), LastTime(ops, since), Admitted(c, s, ops), phases)
    decreases |ops|
  {
    if ops == [] {
      phases := 0;
    } else {
      var l := |ops| - 1;
      assert forall i :: 0 <= i <= l ==> ops[..l][..i] == ops[..i];
      assert forall i :: 0 <= i <= l ==> !At(c, s, ops[..l], i).state.Closed? by {
        forall i | 0 <= i <= l ensures !At(c, s, ops[..l], i).state.Closed? {
          assert At(c, s, ops[..l], i) == At(c, s, ops, i);
        }
      }
      var before := ThrottledRun(c, s, ops[..l], since);
      assert ops[..l][..l] == ops[..l] && ops[..l + 1] == ops;
      assert !At(c, s, ops, l).state.Closed? && !At(c, s, ops, l + 1).state.Closed?;
      LastTimeBounds(ops[..l], since);
      LastTimeAtMost(ops, since);
      phases := ThrottledStep(c, since, Exec(c, s, ops[..l]), LastTime(ops[..l], since),
                              Admitted(c, s, ops[..l]), before, ops[l]);
    }
  }

  /** The readings before the last operation are not after it. */
  lemma {:induction false} LastTimeAtMost(ops: seq<Op>, from: u64)
    requires ops != [] && InOrder(ops, from)
    ensures var l := |ops| - 1;
            HasTime(ops[l]) ==> LastTime(ops[..l], from) <= TimeOf(ops[l])
  {
    var l := |ops| - 1;
    if HasTime(ops[l]) {
      LastTimeIsAReading(ops[..l], from);
    }
  }

  lemma {:induction false} LastTimeIsAReading(ops: seq<Op>, from: u64)
    ensures LastTime(ops, from) == from
            || exists i :: 0 <= i < |ops| && HasTime(ops[i]) && TimeOf(ops[i]) == LastTime(ops, from)
    decreases |ops|
  {
    if ops != [] && !HasTime(ops[|ops| - 1]) {
      LastTimeIsAReading(ops[..|ops| - 1], from);
    }
  }

  /**
   From the failure that opened it, for as long as it does not close again, the breaker
   admits at most its probe limit once per recovery timeout elapsed.
   */
  lemma TrippedBreakerThrottles(c: Config, s: Inner, ops: seq<Op>)
    requires s.state.Open? && c.recoveryTimeout > 0
    requires InOrder(ops, s.lastFailureTime) && StaysTripped(c, s, ops)
    ensures s.lastFailureTime <= LastTime(ops, s.lastFailureTime)
    ensures var elapsed := LastTime(ops, s.lastFailureTime) - s.lastFailureTime;
            Admitted(c, s, ops) <= Max(c.halfOpenMaxCalls, 1) * (elapsed / c.recoveryTimeout)
  {
    var since := s.lastFailureTime;
    LastTimeBounds(ops, since);
    var phases := ThrottledRun(c, s, ops, since);
    assert ops[..|ops|] == ops && !At(c, s, ops, |ops|).state.Closed?;
    ThrottledBound(c, since, Exec(c, s, ops), LastTime(ops, since), Admitted(c, s, ops), phases);
  }

  /**
   The same from the failure that opened the breaker: of the calls made after it, up to any
   later reading, as long as the breaker does not close again.
   */
  lemma OpeningFailureThrottles(c: Config, before: seq<Op>, at: u64, after: seq<Op>)
    requires var opens := Exec(c, INITIAL, before + [Failure(at)]);
             opens.state.Open? && InOrder(after, at) && StaysTripped(c, opens, after)
    requires c.recoveryTimeout > 0
    ensures at <= LastTime(after, at)
    ensures Admitted(c, Exec(c, INITIAL, before + [Failure(at)]), after)
         <= Max(c.halfOpenMaxCalls, 1) * ((LastTime(after, at) - at) / c.recoveryTimeout)
  {
    var ops := before + [Failure(at)];
    FailureIsStamped(c, ops);
    TrippedBreakerThrottles(c, Exec(c, INITIAL, ops), after);
  }

  lemma ThrottledBound(c: Config, since: u64, s: Inner, now: u64, admitted: nat, phases: nat)
    requires Throttled(c, since, s, now, admitted, phases) && !s.state.Closed?
    requires c.recoveryTimeout > 0 && since <= now
    ensures admitted <= Max(c.halfOpenMaxCalls, 1) * ((now - since) / c.recoveryTimeout)
  {
    var n := Max(c.halfOpenMaxCalls, 1);
    AtLeastPhases(now - since, phases, c.recoveryTimeout);
    MulMono(n, phases, (now - since) / c.recoveryTimeout);
    if phases > 0 {
      assert n * phases == n * (phases - 1) + n;
    }
  }

  lemma AtLeastPhases(elapsed: nat, phases: nat, timeout: nat)
    requires timeout > 0 && phases * timeout <= elapsed
    ensures phases <= elapsed / timeout
  {
    if elapsed / timeout < phases {
      MulMono(timeout, elapsed / timeout + 1, phases);
    }
  }
}
