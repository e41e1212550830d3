/** `CircuitBreaker` of core/resilience/circuit_breaker.py: a timed machine with three states.
    Every method runs under a lock it never gives up half way, so it is one step. */
module CircuitBreaker {
  import opened Ratios
  import opened Wrappers

  datatype Circuit = Closed | Open | HalfOpen

  datatype Config = Config(
    failureThreshold: nat, recoveryTimeout: real, halfOpenMaxCalls: nat, successThreshold: nat)
  {
    /** The bounds of the configuration model. */
    predicate Valid() {
      failureThreshold >= 1 && recoveryTimeout > 0.0 && halfOpenMaxCalls >= 1 && successThreshold >= 1
    }
  }

  datatype Breaker = Breaker(circuit: Circuit, failures: nat, successes: nat, probes: nat, openedAt: Option<real>)

  const START := Breaker(Closed, 0, 0, 0, None)

  /** `excluded`: the exception is one of those that do not count. */
  datatype Event =
    | Allow(now: real)
    | Success(now: real)
    | Failure(now: real, excluded: bool)
    | Peek(now: real)
    | Reset(now: real)

  // ---------------------------------------------------------------------
  // The machine
  // ---------------------------------------------------------------------

  function Opened(b: Breaker, now: real): Breaker {
    b.(circuit := Open, successes := 0, probes := 0, openedAt := Some(now))
  }

  /** The `state` property: reading it after the recovery timeout half-opens the circuit. */
  function Refreshed(cfg: Config, b: Breaker, now: real): Breaker {
    if b.circuit == Open && b.openedAt.Some? && now - b.openedAt.value >= cfg.recoveryTimeout
    then b.(circuit := HalfOpen, successes := 0, probes := 0)
    else b
  }

  function Allowed(cfg: Config, b: Breaker, now: real): (bool, Breaker) {
    var r := Refreshed(cfg, b, now);
    if r.circuit == Closed then (true, r)
    else if r.circuit == Open then (false, r)
    else if r.probes < cfg.halfOpenMaxCalls then (true, r.(probes := r.probes + 1))
    else (false, r)
  }

  function Succeeded(cfg: Config, b: Breaker): Breaker {
    if b.circuit == HalfOpen then
      if b.successes + 1 >= cfg.successThreshold then START else b.(successes := b.successes + 1)
    else b.(failures := 0)
  }

  function Failed(cfg: Config, b: Breaker, now: real, excluded: bool): Breaker {
    if excluded then b
    else
      var r := b.(failures := b.failures + 1);
      if b.circuit == HalfOpen || (b.circuit == Closed && r.failures >= cfg.failureThreshold) then Opened(r, now)
      else r
  }

  function Next(cfg: Config, b: Breaker, e: Event): Breaker {
    match e
    case Allow(now) => Allowed(cfg, b, now).1
    case Success(now) => Succeeded(cfg, b)
    case Failure(now, excluded) => Failed(cfg, b, now, excluded)
    case Peek(now) => Refreshed(cfg, b, now)
    case Reset(now) => START
  }

  predicate Admits(cfg: Config, b: Breaker, e: Event) {
    e.Allow? && Allowed(cfg, b, e.now).0
  }

  class CircuitBreaker {
    const cfg: Config
    var circuit: Circuit
    var failureCount: nat
    var successCount: nat
    var halfOpenCalls: nat
    var openedAt: Option<real>

    ghost function State(): Breaker
      reads this
    {
      Breaker(circuit, failureCount, successCount, halfOpenCalls, openedAt)
    }

    constructor (cfg: Config)
      ensures this.cfg == cfg && State() == START
    {
      this.cfg := cfg;
      circuit, failureCount, successCount, halfOpenCalls, openedAt := Closed, 0, 0, 0, None;
    }

    method CurrentState(now: real) returns (c: Circuit)
      modifies this
      ensures State() == Next(cfg, old(State()), Peek(now)) && c == circuit
    {
      if circuit == Open && openedAt.Some? && now - openedAt.value >= cfg.recoveryTimeout {
        circuit, successCount, halfOpenCalls := HalfOpen, 0, 0;
      }
      return circuit;
    }

    method AllowRequest(now: real) returns (allowed: bool)
      modifies this
      ensures State() == Next(cfg, old(State()), Allow(now))
      ensures allowed <==> Admits(cfg, old(State()), Allow(now))
    {
      var current := CurrentState(now);
      if current == Closed {
        return true;
      }
      if current == Open {
        return false;
      }
      if halfOpenCalls < cfg.halfOpenMaxCalls {
        halfOpenCalls := halfOpenCalls + 1;
        return true;
      }
      return false;
    }

    method RecordSuccess(now: real)
      modifies this
      ensures State() == Next(cfg, old(State()), Success(now))
    {
      if circuit == HalfOpen {
        successCount := successCount + 1;
        if successCount >= cfg.successThreshold {
          Close();
        }
      } else {
        failureCount := 0;
      }
    }

    method RecordFailure(now: real, excluded: bool)
      modifies this
      ensures State() == Next(cfg, old(State()), Failure(now, excluded))
    {
      if excluded {
        return;
      }
      failureCount := failureCount + 1;
      if circuit == HalfOpen {
        TransitionToOpen(now);
      } else if circuit == Closed && failureCount >= cfg.failureThreshold {
        TransitionToOpen(now);
      }
    }

    /** `reset`, and the transition it shares with a successful recovery. */
    method Close()
      modifies this
      ensures State() == START
    {
      circuit, failureCount, successCount, halfOpenCalls, openedAt := Closed, 0, 0, 0, None;
    }

    method TransitionToOpen(now: real)
      modifies this
      ensures State() == Opened(old(State()), now)
    {
      circuit, openedAt, successCount, halfOpenCalls := Open, Some(now), 0, 0;
    }
  }

  // ---------------------------------------------------------------------
  // Runs
  // ---------------------------------------------------------------------

  function After(cfg: Config, b: Breaker, es: seq<Event>): Breaker
    decreases |es|
  {
    if es == [] then b else After(cfg, Next(cfg, b, es[0]), es[1..])
  }

  /** The number of requests the breaker lets through during a run. */
  function Admitted(cfg: Config, b: Breaker, es: seq<Event>): nat
    decreases |es|
  {
    if es == [] then 0
    else (if Admits(cfg, b, es[0]) then 1 else 0) + Admitted(cfg, Next(cfg, b, es[0]), es[1..])
  }

  /** Events happen from time `from` on, in order, and none later than `to`. */
  ghost predicate Timed(es: seq<Event>, from: real, to: real) {
    if es == [] then from <= to else from <= es[0].now && Timed(es[1..], es[0].now, to)
  }

  lemma {:induction false} AfterJoined(cfg: Config, b: Breaker, es: seq<Event>, fs: seq<Event>)
    ensures After(cfg, b, es + fs) == After(cfg, After(cfg, b, es), fs)
    ensures Admitted(cfg, b, es + fs) == Admitted(cfg, b, es) + Admitted(cfg, After(cfg, b, es), fs)
    decreases |es|
  {
    if es == [] {
      assert es + fs == fs;
    } else {
      assert (es + fs)[1..] == es[1..] + fs;
      AfterJoined(cfg, Next(cfg, b, es[0]), es[1..], fs);
    }
  }

  /** What holds in every reachable state. */
  ghost predicate Reachable(cfg: Config, b: Breaker) {
    && (b.circuit == Closed ==> b.failures < cfg.failureThreshold)
    && (b.circuit != Closed ==> b.openedAt.Some?)
    && (b.circuit == HalfOpen ==> b.successes < cfg.successThreshold && b.probes <= cfg.halfOpenMaxCalls)
  }

  lemma {:induction false} EveryRunIsReachable(cfg: Config, b: Breaker, es: seq<Event>)
    requires cfg.Valid() && Reachable(cfg, b)
    ensures Reachable(cfg, START) && Reachable(cfg, After(cfg, b, es))
    decreases |es|
  {
    if es != [] {
      EveryRunIsReachable(cfg, Next(cfg, b, es[0]), es[1..]);
    }
  }

  /** In every reachable state the breaker admits a request exactly when the circuit is closed, or
      half open with a probe left, or open for at least the recovery timeout. */
  lemma AdmitsExactly(cfg: Config, b: Breaker, now: real)
    requires cfg.Valid() && Reachable(cfg, b)
    ensures Admits(cfg, b, Allow(now)) <==>
      match b.circuit
      case Closed => true
      case HalfOpen => b.probes < cfg.halfOpenMaxCalls
      case Open => b.openedAt.value + cfg.recoveryTimeout <= now
  {
  }

  // ---------------------------------------------------------------------
  // When the circuit opens
  // ---------------------------------------------------------------------

  /** Counted failures since the last success or reset. */
  function Streak(es: seq<Event>): nat {
    if es == [] then 0
    else
      match es[|es| - 1]
      case Success(_) => 0
      case Reset(_) => 0
      case Failure(_, false) => Streak(es[..|es| - 1]) + 1
      case _ => Streak(es[..|es| - 1])
  }

  /** A circuit that starts closed is opened by exactly the failure that completes a streak of
      `failureThreshold`, and not before. */
  lemma {:induction false} OpensAtThreshold(cfg: Config, es: seq<Event>)
    requires cfg.Valid()
    requires forall i :: 0 <= i < |es| ==> Streak(es[..i]) < cfg.failureThreshold
    ensures var b := After(cfg, START, es);
      if Streak(es) < cfg.failureThreshold then b == START.(failures := Streak(es))
      else b == Breaker(Open, cfg.failureThreshold, 0, 0, Some(es[|es| - 1].now))
  {
    if es != [] {
      var n := |es| - 1;
      var init := es[..n];
      forall i | 0 <= i < n ensures Streak(init[..i]) < cfg.failureThreshold {
        assert init[..i] == es[..i];
      }
      OpensAtThreshold(cfg, init);
      assert es == init + [es[n]];
      AfterJoined(cfg, START, init, [es[n]]);
    }
  }

  /** A reset breaker behaves as a new one, whatever state it was in. */
  lemma ResetStartsAfresh(cfg: Config, b: Breaker, now: real, es: seq<Event>)
    ensures After(cfg, b, [Reset(now)] + es) == After(cfg, START, es)
    ensures Admitted(cfg, b, [Reset(now)] + es) == Admitted(cfg, START, es)
  {
    assert ([Reset(now)] + es)[1..] == es;
  }

  /** Every event happens before the recovery timeout after `t`, and nobody resets the breaker. */
  ghost predicate Within(cfg: Config, es: seq<Event>, t: real) {
    forall e :: e in es ==> e.now < t + cfg.recoveryTimeout && !e.Reset?
  }

  /** An open circuit admits nothing before the recovery timeout, and stays open since then, whatever
      is asked and recorded, successes included. */
  lemma {:induction false} StaysOpen(cfg: Config, b: Breaker, es: seq<Event>, t: real)
    requires b.circuit == Open && b.openedAt == Some(t) && Within(cfg, es, t)
    ensures Admitted(cfg, b, es) == 0
    ensures After(cfg, b, es).circuit == Open && After(cfg, b, es).openedAt == Some(t)
    decreases |es|
  {
    if es != [] {
      assert es[0] in es;
      StaysOpen(cfg, Next(cfg, b, es[0]), es[1..], t);
    }
  }

  /** One failed probe is enough: a failure counted at time `t` while the circuit is half open, however
      many probes are left, shuts it for a whole recovery timeout.  A failure that is excluded
      changes nothing, in any state. */
  lemma FailedProbeShuts(cfg: Config, b: Breaker, es: seq<Event>, t: real)
    requires b.circuit == HalfOpen && Within(cfg, es, t)
    ensures Admitted(cfg, b, [Failure(t, false)] + es) == 0
    ensures var r := After(cfg, b, [Failure(t, false)] + es); r.circuit == Open && r.openedAt == Some(t)
    ensures Next(cfg, b, Failure(t, false)) == Breaker(Open, b.failures + 1, 0, 0, Some(t))
    ensures Next(cfg, b, Failure(t, true)) == b
  {
    var all := [Failure(t, false)] + es;
    assert all[1..] == es;
    StaysOpen(cfg, Next(cfg, b, all[0]), es, t);
  }

  // ---------------------------------------------------------------------
  // How much an open circuit lets through
  // ---------------------------------------------------------------------

  /** Whole recovery periods in a stretch of time. */
  ghost function Periods(cfg: Config, length: real): int
    requires cfg.recoveryTimeout > 0.0
  {
    (length / cfg.recoveryTimeout).Floor
  }

  lemma PeriodsGrow(cfg: Config, x: real, y: real)
    requires cfg.recoveryTimeout > 0.0 && x <= y
    ensures Periods(cfg, x) <= Periods(cfg, y)
    ensures x + cfg.recoveryTimeout <= y ==> Periods(cfg, x) + 1 <= Periods(cfg, y)
    ensures x >= 0.0 ==> Periods(cfg, x) >= 0
  {
    var r := cfg.recoveryTimeout;
    assert y / r * r == y;
    RatioOrder(x, r, y / r);
    assert x + r <= y ==> (y / r - 1.0) * r >= x;
    RatioOrder(x, r, y / r - 1.0);
    RatioOrder(x, r, 0.0);
  }

  /** The requests a breaker that is not closed may still admit from time `at` until time `to`. */
  ghost function Allowance(cfg: Config, b: Breaker, at: real, to: real): int
    requires cfg.Valid() && b.circuit != Closed && b.openedAt.Some?
  {
    if b.circuit == Open then Periods(cfg, to - b.openedAt.value) * cfg.halfOpenMaxCalls
    else cfg.halfOpenMaxCalls - b.probes + Periods(cfg, to - at) * cfg.halfOpenMaxCalls
  }

  lemma Scale(p: int, q: int, n: nat)
    requires p <= q
    ensures p * n <= q * n
    ensures p + 1 <= q ==> p * n + n <= q * n
  {
    if p + 1 <= q {
      assert (p + 1) * n <= q * n;
    }
  }

  /** No step gains allowance, and a step that admits a request uses one up. */
  lemma StepUsesAllowance(cfg: Config, b: Breaker, e: Event, at: real, to: real)
    requires cfg.Valid() && Reachable(cfg, b) && b.circuit != Closed
    requires b.openedAt.value <= at <= e.now <= to && !e.Success? && !e.Reset?
    ensures var b1 := Next(cfg, b, e);
      && Reachable(cfg, b1) && b1.circuit != Closed && b1.openedAt.value <= e.now
      && (if Admits(cfg, b, e) then 1 else 0) + Allowance(cfg, b1, e.now, to) <= Allowance(cfg, b, at, to)
  {
    PeriodsGrow(cfg, to - e.now, to - at);
    Scale(Periods(cfg, to - e.now), Periods(cfg, to - at), cfg.halfOpenMaxCalls);
    PeriodsGrow(cfg, to - e.now, to - b.openedAt.value);
    Scale(Periods(cfg, to - e.now), Periods(cfg, to - b.openedAt.value), cfg.halfOpenMaxCalls);
  }

  lemma AllowanceIsNatural(cfg: Config, b: Breaker, at: real, to: real)
    requires cfg.Valid() && Reachable(cfg, b) && b.circuit != Closed && b.openedAt.value <= at <= to
    ensures Allowance(cfg, b, at, to) >= 0
  {
    PeriodsGrow(cfg, 0.0, to - at);
    PeriodsGrow(cfg, 0.0, to - b.openedAt.value);
    Scale(0, Periods(cfg, to - at), cfg.halfOpenMaxCalls);
    Scale(0, Periods(cfg, to - b.openedAt.value), cfg.halfOpenMaxCalls);
  }

  lemma {:induction false} AdmitsWithinAllowance(cfg: Config, b: Breaker, es: seq<Event>, at: real, to: real)
    requires cfg.Valid() && Reachable(cfg, b) && b.circuit != Closed && b.openedAt.value <= at
    requires Timed(es, at, to) && forall e :: e in es ==> !e.Success? && !e.Reset?
    ensures Admitted(cfg, b, es) <= Allowance(cfg, b, at, to)
    decreases |es|
  {
    TimedEnds(es, at, to);
    if es == [] {
      AllowanceIsNatural(cfg, b, at, to);
    } else {
      assert es[0] in es;
      StepUsesAllowance(cfg, b, es[0], at, to);
      AdmitsWithinAllowance(cfg, Next(cfg, b, es[0]), es[1..], es[0].now, to);
    }
  }

  lemma {:induction false} TimedEnds(es: seq<Event>, from: real, to: real)
    requires Timed(es, from, to)
    ensures from <= to && (es != [] ==> es[0].now <= to)
  {
    if es != [] {
      TimedEnds(es[1..], es[0].now, to);
    }
  }

  /** After opening at time `t`, in any run until time `to` in which no success is recorded and nobody
      resets it, the breaker admits at most `halfOpenMaxCalls` requests per recovery period. */
  lemma AdmissionBound(cfg: Config, b: Breaker, es: seq<Event>, t: real, to: real)
    requires cfg.Valid() && b.circuit == Open && b.openedAt == Some(t)
    requires Timed(es, t, to) && forall e :: e in es ==> !e.Success? && !e.Reset?
    ensures Admitted(cfg, b, es) <= Periods(cfg, to - t) * cfg.halfOpenMaxCalls
  {
    AdmitsWithinAllowance(cfg, b, es, t, to);
  }

  function Probes(n: nat, now: real): seq<Event> {
    if n == 0 then [] else [Allow(now)] + Probes(n - 1, now)
  }

  lemma {:induction false} ProbesAdmitted(cfg: Config, b: Breaker, n: nat, now: real)
    requires b.circuit == HalfOpen && b.probes + n <= cfg.halfOpenMaxCalls
    ensures After(cfg, b, Probes(n, now)) == b.(probes := b.probes + n)
    ensures Admitted(cfg, b, Probes(n, now)) == n
    ensures forall e :: e in Probes(n, now) ==> e == Allow(now)
    decreases n
  {
    if n > 0 {
      assert Probes(n, now)[1..] == Probes(n - 1, now);
      ProbesAdmitted(cfg, b.(probes := b.probes + 1), n - 1, now);
    }
  }

  lemma {:induction false} TimedJoined(es: seq<Event>, fs: seq<Event>, from: real, mid: real, to: real)
    requires Timed(es, from, mid) && Timed(fs, mid, to)
    ensures Timed(es + fs, from, to)
  {
    TimedEnds(es, from, mid);
    if es == [] {
      assert es + fs == fs;
      if fs != [] { assert from <= fs[0].now; }
    } else {
      assert (es + fs)[1..] == es[1..] + fs;
      TimedJoined(es[1..], fs, es[0].now, mid, to);
    }
  }

  lemma {:induction false} TimedAtOnce(es: seq<Event>, now: real)
    requires forall e :: e in es ==> e.now == now
    ensures Timed(es, now, now)
  {
    if es != [] {
      assert es[0] in es;
      TimedAtOnce(es[1..], now);
    }
  }

  /** One recovery period at full use: as many probes as allowed, then a failure. */
  function Period(cfg: Config, now: real): seq<Event> {
    [Peek(now)] + Probes(cfg.halfOpenMaxCalls, now) + [Failure(now, false)]
  }

  lemma PeriodAdmits(cfg: Config, b: Breaker, t: real)
    requires cfg.Valid() && b.circuit == Open && b.openedAt == Some(t)
    ensures var now := t + cfg.recoveryTimeout;
      var es := Period(cfg, now);
      && Admitted(cfg, b, es) == cfg.halfOpenMaxCalls
      && After(cfg, b, es).circuit == Open && After(cfg, b, es).openedAt == Some(now)
      && Timed(es, t, now) && forall e :: e in es ==> !e.Success? && !e.Reset?
  {
    var now := t + cfg.recoveryTimeout;
    var probes := Probes(cfg.halfOpenMaxCalls, now);
    var half := Next(cfg, b, Peek(now));
    assert half == b.(circuit := HalfOpen, successes := 0, probes := 0);
    ProbesAdmitted(cfg, half, cfg.halfOpenMaxCalls, now);
    AfterJoined(cfg, b, [Peek(now)], probes);
    AfterJoined(cfg, b, [Peek(now)] + probes, [Failure(now, false)]);
    TimedAtOnce(Period(cfg, now), now);
    assert Period(cfg, now)[0].now == now;
  }

  /** The end of `n` periods that begin at `t`. */
  ghost function EndOf(t: real, length: real, n: nat): real
    decreases n
  {
    if n == 0 then t else EndOf(t + length, length, n - 1)
  }

  lemma {:induction false} EndOfIs(t: real, length: real, n: nat)
    ensures EndOf(t, length, n) == t + n as real * length
    decreases n
  {
    if n > 0 {
      EndOfIs(t + length, length, n - 1);
    }
  }

  lemma {:induction false} FullPeriods(cfg: Config, b: Breaker, t: real, n: nat) returns (es: seq<Event>)
    requires cfg.Valid() && b.circuit == Open && b.openedAt == Some(t)
    ensures Timed(es, t, EndOf(t, cfg.recoveryTimeout, n)) && forall e :: e in es ==> !e.Success? && !e.Reset?
    ensures Admitted(cfg, b, es) == n * cfg.halfOpenMaxCalls
    decreases n
  {
    if n == 0 {
      es := [];
    } else {
      var now := t + cfg.recoveryTimeout;
      var first := Period(cfg, now);
      PeriodAdmits(cfg, b, t);
      var rest := FullPeriods(cfg, After(cfg, b, first), now, n - 1);
      es := first + rest;
      AfterJoined(cfg, b, first, rest);
      TimedJoined(first, rest, t, now, EndOf(now, cfg.recoveryTimeout, n - 1));
    }
  }

  /** The bound is attained: for every number of periods some run admits exactly that many. */
  lemma AdmissionBoundIsTight(cfg: Config, b: Breaker, t: real, n: nat) returns (es: seq<Event>, to: real)
    requires cfg.Valid() && b.circuit == Open && b.openedAt == Some(t)
    ensures to == t + n as real * cfg.recoveryTimeout
    ensures Timed(es, t, to) && forall e :: e in es ==> !e.Success? && !e.Reset?
    ensures Admitted(cfg, b, es) == n * cfg.halfOpenMaxCalls
  {
    es := FullPeriods(cfg, b, t, n);
    to := EndOf(t, cfg.recoveryTimeout, n);
    EndOfIs(t, cfg.recoveryTimeout, n);
  }

  // ---------------------------------------------------------------------
  // Whether a half-open circuit can close
  // ---------------------------------------------------------------------

  /** An episode: no failure is counted, nobody resets the breaker, and every recorded success
      belongs to a probe admitted before it. */
  ghost predicate Episode(cfg: Config, b: Breaker, es: seq<Event>)
    decreases |es|
  {
    es != [] ==>
      && !es[0].Reset? && (es[0].Failure? ==> es[0].excluded) && (es[0].Success? ==> b.successes < b.probes)
      && Episode(cfg, Next(cfg, b, es[0]), es[1..])
  }

  /** With more successes required than probes allowed, an episode never leaves HALF_OPEN: however
      much time passes, it admits its probes and then refuses everything. */
  lemma {:induction false} StaysHalfOpen(cfg: Config, b: Breaker, es: seq<Event>)
    requires b.circuit == HalfOpen && b.successes <= b.probes <= cfg.halfOpenMaxCalls < cfg.successThreshold
    requires Episode(cfg, b, es)
    ensures After(cfg, b, es).circuit == HalfOpen
    ensures Admitted(cfg, b, es) <= cfg.halfOpenMaxCalls - b.probes
    decreases |es|
  {
    if es != [] {
      StaysHalfOpen(cfg, Next(cfg, b, es[0]), es[1..]);
    }
  }

  /** No failure is counted and nobody resets the breaker. */
  ghost predicate Undisturbed(es: seq<Event>) {
    forall e :: e in es ==> !e.Reset? && (e.Failure? ==> e.excluded)
  }

  function Recorded(es: seq<Event>): nat {
    if es == [] then 0 else Recorded(es[..|es| - 1]) + if es[|es| - 1].Success? then 1 else 0
  }

  /** A circuit that has just become half open is closed by exactly the success that completes
      `successThreshold`, and not before. */
  lemma {:induction false} ClosesAtThreshold(cfg: Config, b: Breaker, es: seq<Event>)
    requires cfg.Valid() && b.circuit == HalfOpen && b.successes == 0 && Undisturbed(es)
    requires forall i :: 0 <= i < |es| ==> Recorded(es[..i]) < cfg.successThreshold
    ensures var r := After(cfg, b, es);
      if Recorded(es) < cfg.successThreshold then r == b.(successes := Recorded(es), probes := r.probes) else r == START
  {
    if es != [] {
      var n := |es| - 1;
      var init := es[..n];
      forall i | 0 <= i < n ensures Recorded(init[..i]) < cfg.successThreshold {
        assert init[..i] == es[..i];
      }
      ClosesAtThreshold(cfg, b, init);
      assert es == init + [es[n]];
      AfterJoined(cfg, b, init, [es[n]]);
      assert es[n] in es;
      assert After(cfg, After(cfg, b, init), [es[n]]) == Next(cfg, After(cfg, b, init), es[n]);
    }
  }

  function Successes(n: nat, now: real): seq<Event> {
    if n == 0 then [] else [Success(now)] + Successes(n - 1, now)
  }

  lemma {:induction false} SuccessesClose(cfg: Config, b: Breaker, n: nat, now: real)
    requires b.circuit == HalfOpen && b.successes + n == cfg.successThreshold && n >= 1
    requires b.probes >= cfg.successThreshold
    ensures After(cfg, b, Successes(n, now)) == START
    ensures Episode(cfg, b, Successes(n, now))
    decreases n
  {
    assert Successes(n, now)[1..] == Successes(n - 1, now);
    if n > 1 {
      SuccessesClose(cfg, b.(successes := b.successes + 1), n - 1, now);
    } else {
      assert After(cfg, START, []) == START;
    }
  }

  lemma {:induction false} ProbesAreEpisode(cfg: Config, b: Breaker, n: nat, now: real, es: seq<Event>)
    requires b.circuit == HalfOpen && b.probes + n <= cfg.halfOpenMaxCalls
    requires Episode(cfg, b.(probes := b.probes + n), es)
    ensures Episode(cfg, b, Probes(n, now) + es)
    decreases n
  {
    if n == 0 {
      assert Probes(n, now) + es == es;
    } else {
      assert (Probes(n, now) + es)[1..] == Probes(n - 1, now) + es;
      ProbesAreEpisode(cfg, b.(probes := b.probes + 1), n - 1, now, es);
    }
  }

  /** A circuit that has just become half open can close without a reset if and only if no more
      successes are required than probes are allowed. */
  lemma CanCloseExactly(cfg: Config, b: Breaker, now: real)
    requires cfg.Valid() && b.circuit == HalfOpen && b.successes == 0 && b.probes == 0
    ensures (exists es :: Episode(cfg, b, es) && After(cfg, b, es).circuit == Closed)
      <==> cfg.successThreshold <= cfg.halfOpenMaxCalls
  {
    if cfg.successThreshold <= cfg.halfOpenMaxCalls {
      var n := cfg.successThreshold;
      var probed := b.(probes := n);
      ProbesAdmitted(cfg, b, n, now);
      SuccessesClose(cfg, probed, n, now);
      ProbesAreEpisode(cfg, b, n, now, Successes(n, now));
      AfterJoined(cfg, b, Probes(n, now), Successes(n, now));
      assert After(cfg, b, Probes(n, now) + Successes(n, now)).circuit == Closed;
    } else {
      forall es | Episode(cfg, b, es) ensures After(cfg, b, es).circuit != Closed {
        StaysHalfOpen(cfg, b, es);
      }
    }
  }
}
