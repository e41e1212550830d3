/** The replica controller of k8s/autoscaler.py.  Metric values are per replica, as the ones of a
    horizontal pod autoscaler are: the total load of a metric is its value times the replicas. */
module Autoscaler {
  import opened Ratios
  import opened Wrappers

  datatype Spec = Spec(
    enabled: bool, minReplicas: int, maxReplicas: int,
    targetCpu: int, targetMemory: int, targetRps: Option<int>,
    upCooldown: int, downCooldown: int)
  {
    /** The bounds of the resource definition. */
    predicate Valid() {
      && minReplicas >= 1 && maxReplicas >= 1 && targetCpu >= 1 && targetMemory >= 1
      && (targetRps.Some? ==> targetRps.value >= 1)
      && upCooldown >= 0 && downCooldown >= 0
    }
  }

  datatype Metrics = Metrics(cpu: Option<real>, memory: Option<real>, rps: Option<real>)

  /** A metric that takes part in the decision, with its target. */
  datatype Reading = Reading(value: real, target: real)

  function Readings(spec: Spec, m: Metrics): (r: seq<Reading>)
    requires spec.Valid()
    ensures forall x :: x in r ==> x.target > 0.0
  {
    (if m.cpu.Some? then [Reading(m.cpu.value, spec.targetCpu as real)] else [])
    + (if m.memory.Some? then [Reading(m.memory.value, spec.targetMemory as real)] else [])
    + (if m.rps.Some? && spec.targetRps.Some? then [Reading(m.rps.value, spec.targetRps.value as real)] else [])
  }

  function MaxRatio(rs: seq<Reading>): (r: real)
    requires rs != [] && forall x :: x in rs ==> x.target > 0.0
    ensures forall x :: x in rs ==> x.value / x.target <= r
    ensures exists x :: x in rs && x.value / x.target == r
  {
    var first := rs[0].value / rs[0].target;
    if |rs| == 1 then first
    else
      assert rs == [rs[0]] + rs[1..];
      var rest := MaxRatio(rs[1..]);
      if first >= rest then first else rest
  }

  function Ceil(x: real): (n: int)
    ensures (n - 1) as real < x <= n as real
  {
    -((-x).Floor)
  }

  function Scaled(current: real, ratio: real): real {
    current * ratio
  }

  /** `_compute_desired`, before the bounds are applied. */
  function ComputeDesired(spec: Spec, current: int, m: Metrics): int
    requires spec.Valid()
  {
    var rs := Readings(spec, m);
    if rs == [] then current else Ceil(Scaled(current as real, MaxRatio(rs)))
  }

  function Clamp(spec: Spec, desired: int): (r: int)
    ensures r >= spec.minReplicas
    ensures spec.minReplicas <= spec.maxReplicas ==> r <= spec.maxReplicas
    ensures spec.minReplicas <= desired <= spec.maxReplicas ==> r == desired
  {
    var low := if spec.maxReplicas < desired then spec.maxReplicas else desired;
    if spec.minReplicas > low then spec.minReplicas else low
  }

  // ---------------------------------------------------------------------
  // What the desired count means
  // ---------------------------------------------------------------------

  /** `replicas` carry the total load of every metric at or below its target. */
  ghost predicate Carries(rs: seq<Reading>, current: real, replicas: real) {
    forall x :: x in rs ==> Carried(x, current, replicas)
  }

  predicate Carried(x: Reading, current: real, replicas: real) {
    x.value * current <= x.target * replicas
  }

  lemma OneCarried(x: Reading, current: real, replicas: real)
    requires x.target > 0.0
    ensures Carried(x, current, replicas) <==> Scaled(current, x.value / x.target) <= replicas
  {
    var ratio := x.value / x.target;
    assert ratio * x.target == x.value;
    assert x.value * current == current * ratio * x.target;
    ScaleOrder(current * ratio, replicas, x.target);
  }

  lemma ProductOrder(c: real, a: real, b: real)
    requires c >= 0.0 && a <= b
    ensures Scaled(c, a) <= Scaled(c, b)
  {
    if c > 0.0 { ScaleOrder(a, b, c); }
  }

  lemma LoadCarried(rs: seq<Reading>, current: real, replicas: real, max: real)
    requires (forall x :: x in rs ==> x.target > 0.0 && x.value / x.target <= max) && current >= 0.0
    requires exists x :: x in rs && x.value / x.target == max
    ensures Carries(rs, current, replicas) <==> Scaled(current, max) <= replicas
  {
    forall x | x in rs ensures Scaled(current, max) <= replicas ==> Carried(x, current, replicas) {
      ProductOrder(current, x.value / x.target, max);
      OneCarried(x, current, replicas);
    }
    var x :| x in rs && x.value / x.target == max;
    OneCarried(x, current, replicas);
  }

  lemma CeilOrder(x: real, n: int)
    ensures Ceil(x) <= n <==> x <= n as real
  {
  }

  lemma LoadCarriedByCeil(rs: seq<Reading>, current: real, replicas: int)
    requires rs != [] && (forall x :: x in rs ==> x.target > 0.0) && current >= 0.0
    ensures Carries(rs, current, replicas as real) <==> Ceil(Scaled(current, MaxRatio(rs))) <= replicas
  {
    LoadCarried(rs, current, replicas as real, MaxRatio(rs));
    CeilOrder(Scaled(current, MaxRatio(rs)), replicas);
  }

  /** One metric, where it is measured, is carried. */
  ghost predicate MetricCarried(v: Option<real>, target: Option<int>, current: int, replicas: int) {
    v.Some? && target.Some? ==> v.value * current as real <= target.value as real * replicas as real
  }

  lemma CarriesEach(spec: Spec, m: Metrics, current: int, replicas: int)
    requires spec.Valid()
    ensures Carries(Readings(spec, m), current as real, replicas as real) <==>
      && MetricCarried(m.cpu, Some(spec.targetCpu), current, replicas)
      && MetricCarried(m.memory, Some(spec.targetMemory), current, replicas)
      && MetricCarried(m.rps, spec.targetRps, current, replicas)
  {
    var rs := Readings(spec, m);
    assert m.cpu.Some? ==> Reading(m.cpu.value, spec.targetCpu as real) in rs;
    assert m.memory.Some? ==> Reading(m.memory.value, spec.targetMemory as real) in rs;
    assert m.rps.Some? && spec.targetRps.Some? ==> Reading(m.rps.value, spec.targetRps.value as real) in rs;
  }

  /** Some metric that has a target is measured. */
  predicate Measured(spec: Spec, m: Metrics) {
    m.cpu.Some? || m.memory.Some? || (m.rps.Some? && spec.targetRps.Some?)
  }

  /** The unclamped desired count is the least number of replicas on which every metric that is
      measured stays at or below its target under the present total load; it is the present
      count when nothing is measured. */
  lemma DesiredIsLeast(spec: Spec, current: int, m: Metrics, replicas: int)
    requires spec.Valid() && current >= 0
    ensures Measured(spec, m) ==> (ComputeDesired(spec, current, m) <= replicas <==>
      && MetricCarried(m.cpu, Some(spec.targetCpu), current, replicas)
      && MetricCarried(m.memory, Some(spec.targetMemory), current, replicas)
      && MetricCarried(m.rps, spec.targetRps, current, replicas))
    ensures !Measured(spec, m) ==> ComputeDesired(spec, current, m) == current
  {
    if Measured(spec, m) {
      LoadCarriedByCeil(Readings(spec, m), current as real, replicas);
      CarriesEach(spec, m, current, replicas);
    }
  }

  // ---------------------------------------------------------------------
  // Evaluating and applying
  // ---------------------------------------------------------------------

  datatype Direction = Up | Down | Stay

  /** A scaling of the gateway with this key, decided at time `at`. */
  datatype Event = Event(gateway: string, direction: Direction, fromReplicas: int, toReplicas: int, at: real)

  /** The part of a gateway the controller reads and writes. */
  class Gateway {
    const key: string
    var autoscaling: Option<Spec>
    var specReplicas: int
    var statusReplicas: int
    var readyReplicas: int
    var availableReplicas: int

    constructor (key: string, autoscaling: Option<Spec>, specReplicas: int)
      ensures this.key == key && this.autoscaling == autoscaling && this.specReplicas == specReplicas
      ensures statusReplicas == readyReplicas == availableReplicas == 0
    {
      this.key, this.autoscaling, this.specReplicas := key, autoscaling, specReplicas;
      statusReplicas, readyReplicas, availableReplicas := 0, 0, 0;
    }

    /** The replicas in status, or those of the spec before the status is known. */
    function Current(): int
      reads this
    {
      if statusReplicas != 0 then statusReplicas else specReplicas
    }
  }

  datatype Clocks = Clocks(lastUp: map<string, real>, lastDown: map<string, real>)

  predicate CooldownOk(c: Clocks, key: string, d: Direction, spec: Spec, now: real) {
    var (last, cooldown) := if d == Up then (c.lastUp, spec.upCooldown) else (c.lastDown, spec.downCooldown);
    key in last ==> now - last[key] >= cooldown as real
  }

  function Wanted(current: int, desired: int): Direction {
    if desired > current then Up else if desired < current then Down else Stay
  }

  /** The decision for a gateway whose autoscaling is on. */
  function Decide(c: Clocks, key: string, spec: Spec, current: int, m: Metrics, now: real): Direction
    requires spec.Valid()
  {
    var d := Wanted(current, Clamp(spec, ComputeDesired(spec, current, m)));
    if d != Stay && !CooldownOk(c, key, d, spec, now) then Stay else d
  }

  /** The controller: its timestamps and its log of events. */
  datatype Controller = Controller(clocks: Clocks, log: seq<Event>)

  const FRESH := Controller(Clocks(map[], map[]), [])

  /** An evaluation of a gateway whose autoscaling is on. */
  datatype Look = Look(key: string, spec: Spec, current: int, m: Metrics, now: real)

  function Next(c: Controller, l: Look): Controller
    requires l.spec.Valid()
  {
    var d := Decide(c.clocks, l.key, l.spec, l.current, l.m, l.now);
    if d == Stay then c
    else
      var e := Event(l.key, d, l.current, Clamp(l.spec, ComputeDesired(l.spec, l.current, l.m)), l.now);
      Controller(
        if d == Up then c.clocks.(lastUp := c.clocks.lastUp[l.key := l.now])
        else c.clocks.(lastDown := c.clocks.lastDown[l.key := l.now]),
        c.log + [e])
  }

  class Autoscaler {
    var lastScaleUp: map<string, real>
    var lastScaleDown: map<string, real>
    var events: seq<Event>

    constructor ()
      ensures State() == FRESH
    {
      lastScaleUp, lastScaleDown, events := map[], map[], [];
    }

    ghost function State(): Controller
      reads this
    {
      Controller(Clocks(lastScaleUp, lastScaleDown), events)
    }

    method Evaluate(g: Gateway, m: Metrics, now: real) returns (e: Event)
      requires g.autoscaling.Some? ==> g.autoscaling.value.Valid()
      modifies this
      ensures g.autoscaling.None? || !g.autoscaling.value.enabled ==> e.direction == Stay && State() == old(State())
      ensures g.autoscaling.Some? && g.autoscaling.value.enabled ==>
        var current := if g.statusReplicas != 0 then g.statusReplicas else g.specReplicas;
        State() == Next(old(State()), Look(g.key, g.autoscaling.value, current, m, now))
      ensures e.direction != Stay ==> events == old(events) + [e]
      ensures e.direction == Stay ==> State() == old(State())
      ensures e.direction == Stay ==> e == Event(g.key, Stay, g.statusReplicas, g.statusReplicas, now)
    {
      if g.autoscaling.None? || !g.autoscaling.value.enabled {
        return Event(g.key, Stay, g.statusReplicas, g.statusReplicas, now);
      }
      var spec := g.autoscaling.value;
      var current := g.Current();
      var desired := Clamp(spec, ComputeDesired(spec, current, m));
      if desired > current {
        if g.key in lastScaleUp && now - lastScaleUp[g.key] < spec.upCooldown as real {
          return Event(g.key, Stay, g.statusReplicas, g.statusReplicas, now);
        }
        lastScaleUp := lastScaleUp[g.key := now];
        e := Event(g.key, Up, current, desired, now);
      } else if desired < current {
        if g.key in lastScaleDown && now - lastScaleDown[g.key] < spec.downCooldown as real {
          return Event(g.key, Stay, g.statusReplicas, g.statusReplicas, now);
        }
        lastScaleDown := lastScaleDown[g.key := now];
        e := Event(g.key, Down, current, desired, now);
      } else {
        return Event(g.key, Stay, g.statusReplicas, g.statusReplicas, now);
      }
      events := events + [e];
    }

    method ApplyScaling(g: Gateway, e: Event)
      modifies g
      ensures g.autoscaling == old(g.autoscaling)
      ensures e.direction == Stay ==> g.specReplicas == old(g.specReplicas) && g.statusReplicas == old(g.statusReplicas)
      ensures e.direction == Stay ==>
        g.readyReplicas == old(g.readyReplicas) && g.availableReplicas == old(g.availableReplicas)
      ensures e.direction != Stay ==>
        g.specReplicas == g.statusReplicas == g.readyReplicas == g.availableReplicas == e.toReplicas
    {
      if e.direction == Stay {
        return;
      }
      g.specReplicas := e.toReplicas;
      g.statusReplicas := e.toReplicas;
      g.readyReplicas := e.toReplicas;
      g.availableReplicas := e.toReplicas;
    }
  }

  // ---------------------------------------------------------------------
  // Runs of evaluations
  // ---------------------------------------------------------------------

  function After(c: Controller, ls: seq<Look>): Controller
    requires forall l :: l in ls ==> l.spec.Valid()
    decreases |ls|
  {
    if ls == [] then c else After(Next(c, ls[0]), ls[1..])
  }

  /** Evaluations happen from time `from` on, in order. */
  ghost predicate Timed(ls: seq<Look>, from: real) {
    ls != [] ==> from <= ls[0].now && Timed(ls[1..], ls[0].now)
  }

  function LastOf(c: Clocks, d: Direction): map<string, real> {
    if d == Up then c.lastUp else c.lastDown
  }

  /** The timestamps are those of the latest events in the log, none of which is after `now`. */
  ghost predicate Follows(c: Controller, now: real) {
    Covered(c, now) && Backed(c.log, c.clocks.lastUp, Up) && Backed(c.log, c.clocks.lastDown, Down)
  }

  ghost predicate Covered(c: Controller, now: real) {
    forall e :: e in c.log ==>
      && e.direction != Stay && e.at <= now
      && e.gateway in LastOf(c.clocks, e.direction) && e.at <= LastOf(c.clocks, e.direction)[e.gateway]
  }

  ghost predicate Backed(log: seq<Event>, last: map<string, real>, d: Direction) {
    forall key :: key in last ==> Logged(log, key, d, last[key])
  }

  ghost predicate Logged(log: seq<Event>, key: string, d: Direction, at: real) {
    exists e :: e in log && e.gateway == key && e.direction == d && e.at == at
  }

  lemma NextCovered(c: Controller, l: Look, from: real)
    requires l.spec.Valid() && Covered(c, from) && from <= l.now
    ensures Covered(Next(c, l), l.now)
  {
  }

  lemma NextBacked(log: seq<Event>, last: map<string, real>, d: Direction, e: Event)
    requires Backed(log, last, d)
    ensures Backed(log + [e], last, d)
    ensures e.direction == d ==> Backed(log + [e], last[e.gateway := e.at], d)
  {
    forall key, at | Logged(log, key, d, at) ensures Logged(log + [e], key, d, at) {
      var f :| f in log && f.gateway == key && f.direction == d && f.at == at;
      assert f in log + [e];
    }
    assert e in log + [e];
  }

  lemma NextFollows(c: Controller, l: Look, from: real)
    requires l.spec.Valid() && Follows(c, from) && from <= l.now
    ensures Follows(Next(c, l), l.now)
  {
    NextCovered(c, l, from);
    var t := Next(c, l);
    if t != c {
      NextBacked(c.log, c.clocks.lastUp, Up, t.log[|c.log|]);
      NextBacked(c.log, c.clocks.lastDown, Down, t.log[|c.log|]);
    }
  }

  /** An event of this gateway in this direction was recorded less than `cooldown` ago. */
  ghost predicate Recent(log: seq<Event>, key: string, d: Direction, cooldown: int, now: real) {
    exists e :: e in log && e.gateway == key && e.direction == d && now - e.at < cooldown as real
  }

  /** What one evaluation logs, told from the log: an event towards the clamped desired count, unless
      that is the present count or an event of the same gateway and direction is recent. */
  lemma ScalesExactly(c: Controller, l: Look)
    requires l.spec.Valid() && Follows(c, l.now)
    ensures var desired := Clamp(l.spec, ComputeDesired(l.spec, l.current, l.m));
      Next(c, l).log ==
        if desired > l.current && !Recent(c.log, l.key, Up, l.spec.upCooldown, l.now) then
          c.log + [Event(l.key, Up, l.current, desired, l.now)]
        else if desired < l.current && !Recent(c.log, l.key, Down, l.spec.downCooldown, l.now) then
          c.log + [Event(l.key, Down, l.current, desired, l.now)]
        else c.log
  {
  }

  /** The cooldowns configured for each gateway stay the same during the run. */
  ghost predicate Cooldowns(ls: seq<Look>, up: string -> int, down: string -> int) {
    forall l :: l in ls ==> l.spec.Valid() && l.spec.upCooldown == up(l.key) && l.spec.downCooldown == down(l.key)
  }

  /** Events of one gateway in one direction are a cooldown apart. */
  ghost predicate Apart(log: seq<Event>, up: string -> int, down: string -> int) {
    forall i, j :: 0 <= i < j < |log| ==> TwoApart(log[i], log[j], up, down)
  }

  ghost predicate TwoApart(e: Event, f: Event, up: string -> int, down: string -> int) {
    e.gateway == f.gateway && e.direction == f.direction ==>
      f.at - e.at >= (if e.direction == Up then up else down)(e.gateway) as real
  }

  lemma NextKeepsApart(c: Controller, l: Look, up: string -> int, down: string -> int)
    requires Follows(c, l.now) && Cooldowns([l], up, down) && l.spec.Valid() && Apart(c.log, up, down)
    ensures Apart(Next(c, l).log, up, down)
  {
    assert l in [l];
    ScalesExactly(c, l);
    var t := Next(c, l);
    forall i, j | 0 <= i < j < |t.log| ensures TwoApart(t.log[i], t.log[j], up, down) {
      assert t.log[i] == c.log[i] && c.log[i] in c.log;
      if j < |c.log| { assert t.log[j] == c.log[j]; }
    }
  }

  /** In every run of evaluations, of any gateways, under changing loads: the timestamps follow the
      log, so every evaluation scales as `ScalesExactly` tells, and no gateway is scaled twice in
      one direction within the cooldown of that direction. */
  lemma {:induction false} EveryRun(c: Controller, ls: seq<Look>, from: real, up: string -> int, down: string -> int)
    requires Follows(c, from) && Timed(ls, from) && Cooldowns(ls, up, down) && Apart(c.log, up, down)
    requires forall l :: l in ls ==> l.spec.Valid()
    ensures Follows(FRESH, from) && Apart(FRESH.log, up, down)
    ensures Follows(After(c, ls), if ls == [] then from else ls[|ls| - 1].now) && Apart(After(c, ls).log, up, down)
    decreases |ls|
  {
    if ls != [] {
      assert ls[0] in ls;
      NextFollows(c, ls[0], from);
      FollowsLater(c, from, ls[0].now);
      NextKeepsApart(c, ls[0], up, down);
      EveryRun(Next(c, ls[0]), ls[1..], ls[0].now, up, down);
    }
  }

  lemma FollowsLater(c: Controller, now: real, later: real)
    requires Follows(c, now) && now <= later
    ensures Follows(c, later)
  {
  }

  // ---------------------------------------------------------------------
  // Convergence
  // ---------------------------------------------------------------------

  ghost predicate SameTotal(v: Option<real>, current: int, w: Option<real>, replicas: int) {
    (v.Some? <==> w.Some?) && (v.Some? ==> v.value * current as real == w.value * replicas as real)
  }

  /** `m` measured on `current` replicas and `m2` on `replicas` are the same total load. */
  ghost predicate SameLoad(m: Metrics, current: int, m2: Metrics, replicas: int) {
    SameTotal(m.cpu, current, m2.cpu, replicas) && SameTotal(m.memory, current, m2.memory, replicas)
    && SameTotal(m.rps, current, m2.rps, replicas)
  }

  lemma SameTotalCarried(v: Option<real>, w: Option<real>, target: Option<int>, current: int, next: int, replicas: int)
    requires SameTotal(v, current, w, next)
    ensures MetricCarried(v, target, current, replicas) <==> MetricCarried(w, target, next, replicas)
  {
  }

  lemma SameLoadCarried(spec: Spec, current: int, m: Metrics, next: int, m2: Metrics, replicas: int)
    requires spec.Valid() && current >= 0 && next >= 0 && SameLoad(m, current, m2, next) && Measured(spec, m)
    ensures ComputeDesired(spec, current, m) <= replicas <==> ComputeDesired(spec, next, m2) <= replicas
  {
    DesiredIsLeast(spec, current, m, replicas);
    DesiredIsLeast(spec, next, m2, replicas);
    SameTotalCarried(m.cpu, m2.cpu, Some(spec.targetCpu), current, next, replicas);
    SameTotalCarried(m.memory, m2.memory, Some(spec.targetMemory), current, next, replicas);
    SameTotalCarried(m.rps, m2.rps, spec.targetRps, current, next, replicas);
  }

  /** The unclamped desired count depends on the total load only, not on the replicas it was
      measured on. */
  lemma DesiredFollowsLoad(spec: Spec, current: int, m: Metrics, next: int, m2: Metrics)
    requires spec.Valid() && current >= 0 && next >= 0 && SameLoad(m, current, m2, next) && Measured(spec, m)
    ensures ComputeDesired(spec, next, m2) == ComputeDesired(spec, current, m)
  {
    SameLoadCarried(spec, current, m, next, m2, ComputeDesired(spec, current, m));
    SameLoadCarried(spec, current, m, next, m2, ComputeDesired(spec, next, m2));
  }

  /** The controller converges in one step: once the clamped count is applied, every later
      evaluation under the same total load, in whatever cooldown state, decides to stay. */
  lemma ConvergesInOneStep(
    spec: Spec, current: int, m: Metrics, next: int, m2: Metrics, c: Controller, key: string, now: real)
    requires spec.Valid() && current >= 0
    requires next == Clamp(spec, ComputeDesired(spec, current, m)) && SameLoad(m, current, m2, next)
    ensures next >= 1 && Next(c, Look(key, spec, next, m2, now)) == c
  {
    if Measured(spec, m) {
      DesiredFollowsLoad(spec, current, m, next, m2);
    }
  }
}
