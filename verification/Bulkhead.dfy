/** `Bulkhead` of core/resilience/bulkhead.py: a semaphore around a guarded body, with counters.
    The lock around the counters is never held across a suspension, so every stretch of the code
    between two suspensions is one step.  A caller queues for a permit, has been woken with one but
    has not resumed yet, or is inside the guarded body. */
module Bulkhead {
  import opened Subsequences

  type Caller = nat

  /** `maxWait <= 0` means fail fast. */
  datatype Config = Config(maxConcurrent: nat, maxWait: real)

  datatype State = State(
    // the semaphore: free permits, the callers queueing for one, and those woken with one
    value: nat, queue: seq<Caller>, granted: set<Caller>,
    inside: set<Caller>,
    active: int, waiting: int, accepted: nat, rejected: nat)

  function Start(cfg: Config): State {
    State(cfg.maxConcurrent, [], {}, {}, 0, 0, 0, 0)
  }

  datatype Answer = Entered | Rejected | Waiting

  /** The semaphore lets nobody pass while a permit is missing or anybody is ahead, be it a caller
      that has been woken and is yet to resume. */
  predicate Locked(s: State) {
    s.value == 0 || s.queue != [] || s.granted != {}
  }

  function Known(s: State): set<Caller> {
    (set c | c in s.queue) + s.granted + s.inside
  }

  // ---------------------------------------------------------------------
  // The steps of a caller
  // ---------------------------------------------------------------------

  /** The code up to the first suspension: a caller enters at once if the semaphore lets it;
      otherwise it is turned away when it is to fail fast, or queues. */
  function Arrived(cfg: Config, s: State, c: Caller): (Answer, State) {
    if !Locked(s) then
      (Entered, s.(value := s.value - 1, inside := s.inside + {c}, active := s.active + 1, accepted := s.accepted + 1))
    else if cfg.maxWait <= 0.0 then (Rejected, s.(rejected := s.rejected + 1))
    else (Waiting, s.(queue := s.queue + [c], waiting := s.waiting + 1))
  }

  /** The caller that has queued longest is woken with a permit. */
  function WokenOne(s: State): State
    requires s.value > 0 && s.queue != []
  {
    s.(value := s.value - 1, queue := s.queue[1..], granted := s.granted + {s.queue[0]})
  }

  /** The `n` callers that have queued longest are woken, each with a permit. */
  function Woken(s: State, n: nat): State
    requires n <= s.value && n <= |s.queue|
    decreases n
  {
    if n == 0 then s
    else Woken(WokenOne(s), n - 1)
  }

  /** How many callers the semaphore may wake in this state: as many as there are permits and callers,
      and at least one if it can.  How many of them it wakes at once differs between versions of
      the standard library. */
  predicate Wakes(s: State, n: nat) {
    n <= s.value && n <= |s.queue| && (s.value > 0 && s.queue != [] ==> n > 0)
  }

  function Entering(s: State, c: Caller): State
    requires c in s.granted
  {
    s.(granted := s.granted - {c}, inside := s.inside + {c},
       waiting := s.waiting - 1, active := s.active + 1, accepted := s.accepted + 1)
  }

  /** A wait that has timed out: the caller leaves the queue, or gives back the permit it was woken
      with. */
  function GivingUp(s: State, c: Caller): State
    requires c in s.queue || c in s.granted
  {
    var left := s.(waiting := s.waiting - 1, rejected := s.rejected + 1);
    if c in s.queue then left.(queue := Without(s.queue, c))
    else left.(granted := s.granted - {c}, value := s.value + 1)
  }

  /** The guarded body ends, normally or by an exception. */
  function Leaving(s: State, c: Caller): State
    requires c in s.inside
  {
    s.(inside := s.inside - {c}, value := s.value + 1, active := s.active - 1)
  }

  // ---------------------------------------------------------------------
  // Runs
  // ---------------------------------------------------------------------

  /** `woken` callers are woken when a woken one resumes or gives up; a release wakes one if it can. */
  datatype Event =
    | Arrive(c: Caller)
    | Resume(c: Caller, woken: nat)
    | Timeout(c: Caller, woken: nat)
    | Exit(c: Caller)

  ghost predicate Enabled(s: State, e: Event) {
    match e
    case Arrive(c) => c !in Known(s)
    case Resume(c, woken) => c in s.granted && Wakes(Entering(s, c), woken)
    case Timeout(c, woken) =>
      if c in s.queue then woken <= s.value && woken <= |Without(s.queue, c)|
      else c in s.granted && Wakes(GivingUp(s, c), woken)
    case Exit(c) => c in s.inside
  }

  function Next(cfg: Config, s: State, e: Event): State
    requires Enabled(s, e)
  {
    match e
    case Arrive(c) => Arrived(cfg, s, c).1
    case Resume(c, woken) => Woken(Entering(s, c), woken)
    case Timeout(c, woken) => Woken(GivingUp(s, c), woken)
    case Exit(c) => Woken(Leaving(s, c), if s.queue == [] then 0 else 1)
  }

  ghost predicate Run(cfg: Config, s: State, es: seq<Event>, t: State)
    decreases |es|
  {
    if es == [] then s == t
    else Enabled(s, es[0]) && Run(cfg, Next(cfg, s, es[0]), es[1..], t)
  }

  // ---------------------------------------------------------------------
  // The invariant
  // ---------------------------------------------------------------------

  /** Every caller is in one place, permits are conserved, and the counters count what they say. */
  ghost predicate Conserved(cfg: Config, s: State) {
    && Distinct(s.queue) && s.granted !! s.inside
    && (forall c :: c in s.queue ==> c !in s.granted && c !in s.inside)
    && s.value + |s.granted| + |s.inside| == cfg.maxConcurrent
    && s.active == |s.inside|
    && s.waiting == |s.queue| + |s.granted|
    && (cfg.maxWait <= 0.0 ==> s.queue == [] && s.granted == {})
  }

  /** A permit is free while somebody queues only if somebody has been woken, who will wake the next. */
  ghost predicate Inv(cfg: Config, s: State) {
    Conserved(cfg, s) && (s.queue != [] && s.value > 0 ==> s.granted != {})
  }

  lemma WakingOneConserves(cfg: Config, s: State)
    requires Conserved(cfg, s) && s.value > 0 && s.queue != []
    ensures Conserved(cfg, WokenOne(s))
  {
    assert s.queue[0] in s.queue && s.queue == [s.queue[0]] + s.queue[1..];
  }

  lemma {:induction false} WakingConserves(cfg: Config, s: State, n: nat)
    requires Conserved(cfg, s) && n <= s.value && n <= |s.queue|
    ensures Conserved(cfg, Woken(s, n))
    decreases n
  {
    if n > 0 {
      WakingOneConserves(cfg, s);
      WakingConserves(cfg, WokenOne(s), n - 1);
    }
  }

  /** Waking touches nothing but the semaphore, and wakes the first `n`. */
  lemma {:induction false} WokenAre(s: State, n: nat)
    requires n <= s.value && n <= |s.queue|
    ensures var t := Woken(s, n);
      && t == s.(value := s.value - n, queue := s.queue[n..], granted := t.granted)
      && s.granted <= t.granted && forall i :: 0 <= i < n ==> s.queue[i] in t.granted
    decreases n
  {
    if n > 0 {
      WokenAre(WokenOne(s), n - 1);
      forall i | 0 <= i < n ensures s.queue[i] in Woken(s, n).granted {
        if i > 0 { assert s.queue[i] == WokenOne(s).queue[i - 1]; }
      }
    }
  }

  /** Once a step has seen to its own caller, waking `n` others restores the invariant, if it wakes
      one when it has to. */
  lemma WakingRestores(cfg: Config, s: State, n: nat)
    requires Conserved(cfg, s) && n <= s.value && n <= |s.queue|
    requires s.value > 0 && s.queue != [] ==> n > 0 || s.granted != {}
    ensures Inv(cfg, Woken(s, n))
  {
    WakingConserves(cfg, s, n);
    WokenAre(s, n);
    if n > 0 {
      assert s.queue[0] in Woken(s, n).granted;
    }
  }

  lemma ArriveKeepsInv(cfg: Config, s: State, c: Caller)
    requires Inv(cfg, s) && c !in Known(s)
    ensures Inv(cfg, Arrived(cfg, s, c).1)
  {
  }

  lemma GivingUpConserves(cfg: Config, s: State, c: Caller)
    requires Conserved(cfg, s) && (c in s.queue || c in s.granted)
    ensures Conserved(cfg, GivingUp(s, c))
  {
    WithoutDistinct(s.queue, c);
  }

  lemma StepKeepsInv(cfg: Config, s: State, e: Event)
    requires Inv(cfg, s) && Enabled(s, e)
    ensures Inv(cfg, Next(cfg, s, e))
  {
    match e
    case Arrive(c) => ArriveKeepsInv(cfg, s, c);
    case Resume(c, woken) => WakingRestores(cfg, Entering(s, c), woken);
    case Timeout(c, woken) =>
      GivingUpConserves(cfg, s, c);
      WakingRestores(cfg, GivingUp(s, c), woken);
    case Exit(c) => WakingRestores(cfg, Leaving(s, c), if s.queue == [] then 0 else 1);
  }

  function Arrivals(es: seq<Event>): nat {
    if es == [] then 0 else (if es[0].Arrive? then 1 else 0) + Arrivals(es[1..])
  }

  function Exits(es: seq<Event>): nat {
    if es == [] then 0 else (if es[0].Exit? then 1 else 0) + Exits(es[1..])
  }

  lemma StepCounts(cfg: Config, s: State, e: Event)
    requires Inv(cfg, s) && Enabled(s, e)
    ensures var t := Next(cfg, s, e);
      && t.waiting + t.accepted + t.rejected == s.waiting + s.accepted + s.rejected + (if e.Arrive? then 1 else 0)
      && t.accepted + s.active == s.accepted + t.active + (if e.Exit? then 1 else 0)
  {
    match e
    case Arrive(c) =>
    case Resume(c, woken) =>
      WokenAre(Entering(s, c), woken);
    case Timeout(c, woken) =>
      WithoutDistinct(s.queue, c);
      WokenAre(GivingUp(s, c), woken);
    case Exit(c) =>
      WokenAre(Leaving(s, c), if s.queue == [] then 0 else 1);
  }

  /** In every interleaving: the active counter is the number of callers inside the guarded body and
      never exceeds the limit; permits are neither lost nor duplicated; and every arrival is
      waiting, accepted or rejected, every accepted one inside or gone. */
  lemma {:induction false} EveryRun(cfg: Config, s: State, es: seq<Event>, t: State)
    requires Inv(cfg, s) && Run(cfg, s, es, t)
    ensures Inv(cfg, Start(cfg)) && Inv(cfg, t)
    ensures t.active == |t.inside| <= cfg.maxConcurrent
    ensures t.waiting + t.accepted + t.rejected == s.waiting + s.accepted + s.rejected + Arrivals(es)
    ensures t.accepted + s.active == s.accepted + t.active + Exits(es)
    decreases |es|
  {
    if es != [] {
      StepKeepsInv(cfg, s, es[0]);
      StepCounts(cfg, s, es[0]);
      EveryRun(cfg, Next(cfg, s, es[0]), es[1..], t);
    }
  }

  /** Nobody queues in vain: while somebody does, a caller inside or a woken one is still to come by
      and pass a permit on. */
  lemma SomebodyWillWake(cfg: Config, s: State)
    requires Inv(cfg, s) && cfg.maxConcurrent > 0 && s.queue != []
    ensures s.inside + s.granted != {}
  {
  }

  /** A fail-fast arrival is turned away exactly when the body is full. */
  lemma FailFastExactly(cfg: Config, s: State, c: Caller)
    requires Inv(cfg, s) && cfg.maxWait <= 0.0
    ensures Arrived(cfg, s, c).0 == if |s.inside| == cfg.maxConcurrent then Rejected else Entered
  {
  }

  /** A caller that may wait has to exactly when the body is full or a woken caller is yet to resume;
      otherwise it enters at once. */
  lemma WaitsExactly(cfg: Config, s: State, c: Caller)
    requires Inv(cfg, s) && cfg.maxWait > 0.0
    ensures Arrived(cfg, s, c).0 == if |s.inside| == cfg.maxConcurrent || s.granted != {} then Waiting else Entered
  {
  }

  /** A run in which both callers inside leave while a third one queues, and a fourth arrives. */
  const BOTH_LEAVE := [Arrive(0), Arrive(1), Arrive(2), Exit(0), Exit(1)]

  /** A caller that may wait can have to although the body is not full: here it is empty, and the
      newcomer queues behind a caller that has been woken and is yet to resume. */
  lemma WaitsThoughNotFull(cfg: Config) returns (t: State)
    requires cfg.maxConcurrent == 2 && cfg.maxWait > 0.0
    ensures Run(cfg, Start(cfg), BOTH_LEAVE, t)
    ensures t.value == 1 && t.inside == {} && t.queue == [] && Arrived(cfg, t, 3).0 == Waiting
  {
    var s1 := Next(cfg, Start(cfg), BOTH_LEAVE[0]);
    var s2 := Next(cfg, s1, BOTH_LEAVE[1]);
    var s3 := Next(cfg, s2, BOTH_LEAVE[2]);
    var s4 := Next(cfg, s3, BOTH_LEAVE[3]);
    assert s4 == State(0, [], {2}, {1}, 1, 1, 2, 0);
    t := Next(cfg, s4, BOTH_LEAVE[4]);
    var es := BOTH_LEAVE;
    assert es[4..] == [es[4]] && es[4..][1..] == [] && Run(cfg, s4, es[4..], t);
    assert es[3..][1..] == es[4..] && Run(cfg, s3, es[3..], t);
    assert es[2..][1..] == es[3..] && Run(cfg, s2, es[2..], t);
    assert es[1..][1..] == es[2..] && Run(cfg, s1, es[1..], t);
  }

  // ---------------------------------------------------------------------
  // First come, first served
  // ---------------------------------------------------------------------

  /** The place of `q[i]` once `c` has left the queue. */
  function PlaceAfter(q: seq<Caller>, c: Caller, i: nat): nat
    requires i < |q|
  {
    |Without(q[..i], c)|
  }

  lemma StaysInPlace(q: seq<Caller>, c: Caller, i: nat)
    requires i < |q| && q[i] != c
    ensures var k := PlaceAfter(q, c, i); k <= i && k < |Without(q, c)| && Without(q, c)[k] == q[i]
  {
    assert q == q[..i] + q[i..];
    WithoutJoined(q[..i], q[i..], c);
  }

  lemma StaysInOrder(q: seq<Caller>, c: Caller, i: nat, j: nat)
    requires i < j < |q| && q[i] != c
    ensures PlaceAfter(q, c, i) < PlaceAfter(q, c, j)
  {
    assert q[..j] == q[..i] + q[i..j];
    WithoutJoined(q[..i], q[i..j], c);
  }

  /** A step takes its own caller out of the queue and wakes the first `n` of the rest. */
  lemma QueueAfter(cfg: Config, s: State, e: Event) returns (n: nat)
    requires Inv(cfg, s) && Enabled(s, e)
    ensures var rest, t := Without(s.queue, e.c), Next(cfg, s, e);
      n <= |rest| && rest[n..] <= t.queue && forall k :: 0 <= k < n ==> rest[k] in t.granted
  {
    WithoutDistinct(s.queue, e.c);
    if e.c !in s.queue { WithoutAbsent(s.queue, e.c); }
    match e
    case Arrive(c) =>
      n := 0;
    case Resume(c, woken) =>
      n := woken;
      WokenAre(Entering(s, c), n);
    case Timeout(c, woken) =>
      n := woken;
      WokenAre(GivingUp(s, c), n);
    case Exit(c) =>
      n := if s.queue == [] then 0 else 1;
      WokenAre(Leaving(s, c), n);
  }

  /** Permits are granted in the order of arrival: a step that wakes a caller wakes all that queue
      ahead of it, ... */
  lemma GrantsInOrder(cfg: Config, s: State, e: Event, i: nat, j: nat)
    requires Inv(cfg, s) && Enabled(s, e) && i < j < |s.queue| && e.c != s.queue[i] && e.c != s.queue[j]
    ensures s.queue[j] in Next(cfg, s, e).granted ==> s.queue[i] in Next(cfg, s, e).granted
  {
    var t := Next(cfg, s, e);
    var n := QueueAfter(cfg, s, e);
    StepKeepsInv(cfg, s, e);
    StaysInPlace(s.queue, e.c, i);
    StaysInPlace(s.queue, e.c, j);
    StaysInOrder(s.queue, e.c, i, j);
    var rest, k := Without(s.queue, e.c), PlaceAfter(s.queue, e.c, j);
    if k >= n {
      assert t.queue[k - n] == rest[n..][k - n] == s.queue[j];
    }
  }

  /** ... and nobody is overtaken: an event of another caller grants the waiting caller its permit, or
      leaves it at the same place of the queue or further ahead. */
  lemma LineMovesForward(cfg: Config, s: State, e: Event, i: nat)
    requires Inv(cfg, s) && Enabled(s, e) && i < |s.queue| && e.c != s.queue[i]
    ensures var t := Next(cfg, s, e);
      s.queue[i] in t.granted || exists j :: 0 <= j <= i && j < |t.queue| && t.queue[j] == s.queue[i]
  {
    var t := Next(cfg, s, e);
    var n := QueueAfter(cfg, s, e);
    StaysInPlace(s.queue, e.c, i);
    var rest, k := Without(s.queue, e.c), PlaceAfter(s.queue, e.c, i);
    if k >= n {
      assert t.queue[k - n] == rest[n..][k - n] == s.queue[i];
    }
  }

  class Bulkhead {
    const cfg: Config
    var value: nat
    var queue: seq<Caller>
    var granted: set<Caller>
    var inside: set<Caller>
    var active: int
    var waiting: int
    var totalAccepted: nat
    var totalRejected: nat

    ghost function Abs(): State
      reads this
    {
      State(value, queue, granted, inside, active, waiting, totalAccepted, totalRejected)
    }

    constructor (cfg: Config)
      ensures this.cfg == cfg && Abs() == Start(cfg)
    {
      this.cfg := cfg;
      value, queue, granted, inside := cfg.maxConcurrent, [], {}, {};
      active, waiting, totalAccepted, totalRejected := 0, 0, 0, 0;
    }

    method AcquireArrive(c: Caller) returns (answer: Answer)
      requires Enabled(Abs(), Arrive(c))
      modifies this
      ensures (answer, Abs()) == Arrived(cfg, old(Abs()), c)
    {
      waiting := waiting + 1;
      var locked := value == 0 || queue != [] || granted != {};
      if cfg.maxWait <= 0.0 && locked {
        waiting, totalRejected := waiting - 1, totalRejected + 1;
        return Rejected;
      }
      if locked {
        queue := queue + [c];
        return Waiting;
      }
      value := value - 1;
      waiting, active, totalAccepted := waiting - 1, active + 1, totalAccepted + 1;
      inside := inside + {c};
      return Entered;
    }

    /** The semaphore's wake-up of its `n` longest waiting callers. */
    method WakeUp(n: nat)
      requires n <= value && n <= |queue|
      modifies this`value, this`queue, this`granted
      ensures Abs() == Woken(old(Abs()), n)
    {
      for i := 0 to n
        invariant n - i <= value && n - i <= |queue|
        invariant Woken(Abs(), n - i) == Woken(old(Abs()), n)
      {
        value, queue, granted := value - 1, queue[1..], granted + {queue[0]};
      }
    }

    method AcquireResume(c: Caller, woken: nat)
      requires Enabled(Abs(), Resume(c, woken))
      modifies this
      ensures Abs() == Next(cfg, old(Abs()), Resume(c, woken))
    {
      granted, inside := granted - {c}, inside + {c};
      waiting, active, totalAccepted := waiting - 1, active + 1, totalAccepted + 1;
      WakeUp(woken);
    }

    method AcquireTimeout(c: Caller, woken: nat)
      requires Enabled(Abs(), Timeout(c, woken))
      modifies this
      ensures Abs() == Next(cfg, old(Abs()), Timeout(c, woken))
    {
      if c in queue {
        queue := Without(queue, c);
      } else {
        granted, value := granted - {c}, value + 1;
      }
      waiting, totalRejected := waiting - 1, totalRejected + 1;
      WakeUp(woken);
    }

    method Leave(c: Caller)
      requires Enabled(Abs(), Exit(c))
      modifies this
      ensures Abs() == Next(cfg, old(Abs()), Exit(c))
    {
      inside := inside - {c};
      value := value + 1;
      WakeUp(if queue == [] then 0 else 1);
      active := active - 1;
    }
  }
}
