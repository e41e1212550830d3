/** `CooldownManager` of router/cooldown.py: failure counts, and timed cooldown cleared lazily by
    the query. */
module Cooldown {

  /** The two dictionaries of the manager. */
  datatype Cooldowns = Cooldowns(failures: map<string, nat>, until: map<string, real>)

  const NONE := Cooldowns(map[], map[])

  function FailureCount(c: Cooldowns, id: string): nat {
    if id in c.failures then c.failures[id] else 0
  }

  /** The whole record of `id` is dropped, by a success, a reset or an expired cooldown. */
  function Forgotten(c: Cooldowns, id: string): Cooldowns {
    Cooldowns(c.failures - {id}, c.until - {id})
  }

  /** One more failure, recorded at time `now`. */
  function Failed(c: Cooldowns, id: string, allowedFails: int, seconds: int, now: real): Cooldowns {
    var n := FailureCount(c, id) + 1;
    Cooldowns(c.failures[id := n], if n >= allowedFails then c.until[id := now + seconds as real] else c.until)
  }

  /** The query at time `now`: its answer, and what it leaves behind. */
  function Queried(c: Cooldowns, id: string, now: real): (bool, Cooldowns) {
    if id !in c.until then (false, c)
    else if now < c.until[id] then (true, c)
    else (false, Forgotten(c, id))
  }

  /** Cooldown is entered exactly at the threshold: an id that is not cooling has fewer failures
      on record than are allowed, one that is cooling has at least as many. */
  ghost predicate Consistent(c: Cooldowns, allowedFails: int) {
    forall id :: FailureCount(c, id) < allowedFails <==> id !in c.until
  }

  lemma StaysConsistent(c: Cooldowns, id: string, allowedFails: int, seconds: int, now: real)
    requires allowedFails >= 1 && Consistent(c, allowedFails)
    ensures Consistent(NONE, allowedFails)
    ensures Consistent(Forgotten(c, id), allowedFails)
    ensures Consistent(Failed(c, id, allowedFails, seconds, now), allowedFails)
    ensures Consistent(Queried(c, id, now).1, allowedFails)
  {
    var failed := Failed(c, id, allowedFails, seconds, now);
    forall other ensures FailureCount(failed, other) < allowedFails <==> other !in failed.until {
      assert FailureCount(c, other) < allowedFails <==> other !in c.until;
    }
    var forgotten := Forgotten(c, id);
    forall other ensures FailureCount(forgotten, other) < allowedFails <==> other !in forgotten.until {
      assert FailureCount(c, other) < allowedFails <==> other !in c.until;
    }
  }

  function FailedTimes(c: Cooldowns, id: string, n: nat, allowedFails: int, seconds: int, now: real): Cooldowns {
    if n == 0 then c else Failed(FailedTimes(c, id, n - 1, allowedFails, seconds, now), id, allowedFails, seconds, now)
  }

  /** Starting from a clean record, `n` failures in a row put an id into cooldown exactly when `n`
      reaches the threshold; until then every query answers no, afterwards every query answers yes
      until `seconds` have passed, and the first later one restores the clean record. */
  lemma {:induction false} ThresholdExactly(
    c: Cooldowns, id: string, n: nat, allowedFails: int, seconds: int, now: real, later: real)
    requires allowedFails >= 1 && seconds >= 0 && later >= now
    requires id !in c.failures && id !in c.until
    ensures FailureCount(FailedTimes(c, id, n, allowedFails, seconds, now), id) == n
    ensures id in FailedTimes(c, id, n, allowedFails, seconds, now).until <==> n >= allowedFails
    ensures Queried(FailedTimes(c, id, n, allowedFails, seconds, now), id, later).0
      <==> n >= allowedFails && later < now + seconds as real
    ensures n >= allowedFails && later >= now + seconds as real
      ==> Queried(FailedTimes(c, id, n, allowedFails, seconds, now), id, later).1 == c
  {
    if n > 0 {
      ThresholdExactly(c, id, n - 1, allowedFails, seconds, now, later);
    }
    var f := FailedTimes(c, id, n, allowedFails, seconds, now);
    OthersUntouched(c, id, n, allowedFails, seconds, now);
    if n >= allowedFails && later >= now + seconds as real {
      assert f.failures - {id} == c.failures && f.until - {id} == c.until;
    }
  }

  lemma {:induction false} OthersUntouched(c: Cooldowns, id: string, n: nat, allowedFails: int, seconds: int, now: real)
    ensures var f := FailedTimes(c, id, n, allowedFails, seconds, now);
      f.failures - {id} == c.failures - {id} && f.until - {id} == c.until - {id}
      && (id in f.until ==> id in c.until || f.until[id] == now + seconds as real)
  {
    if n > 0 {
      OthersUntouched(c, id, n - 1, allowedFails, seconds, now);
      var g := FailedTimes(c, id, n - 1, allowedFails, seconds, now);
      var f := FailedTimes(c, id, n, allowedFails, seconds, now);
      assert f.failures - {id} == g.failures - {id} && f.until - {id} == g.until - {id};
    }
  }

  class CooldownManager {
    const allowedFails: int
    const cooldownSeconds: int
    var failures: map<string, nat>
    var cooldownUntil: map<string, real>

    constructor (allowedFails: int, cooldownSeconds: int)
      ensures this.allowedFails == allowedFails && this.cooldownSeconds == cooldownSeconds
      ensures State() == NONE
    {
      this.allowedFails, this.cooldownSeconds := allowedFails, cooldownSeconds;
      failures, cooldownUntil := map[], map[];
    }

    ghost function State(): Cooldowns
      reads this
    {
      Cooldowns(failures, cooldownUntil)
    }

    method RecordSuccess(id: string)
      modifies this
      ensures State() == Forgotten(old(State()), id)
    {
      failures := failures - {id};
      cooldownUntil := cooldownUntil - {id};
    }

    method RecordFailure(id: string, now: real)
      modifies this
      ensures State() == Failed(old(State()), id, allowedFails, cooldownSeconds, now)
    {
      failures := failures[id := (if id in failures then failures[id] else 0) + 1];
      if failures[id] >= allowedFails {
        cooldownUntil := cooldownUntil[id := now + cooldownSeconds as real];
      }
    }

    method IsInCooldown(id: string, now: real) returns (cooling: bool)
      modifies this
      ensures (cooling, State()) == Queried(old(State()), id, now)
    {
      if id !in cooldownUntil {
        return false;
      }
      if now < cooldownUntil[id] {
        return true;
      }
      cooldownUntil := cooldownUntil - {id};
      failures := failures - {id};
      return false;
    }

    method Reset(id: string)
      modifies this
      ensures State() == Forgotten(old(State()), id)
    {
      failures := failures - {id};
      cooldownUntil := cooldownUntil - {id};
    }

    /** The ids cooling at time `now`: those whose query at that time answers yes. */
    method AllInCooldown(now: real) returns (ids: set<string>)
      ensures forall id :: id in ids <==> Queried(State(), id, now).0
    {
      ids := set id | id in cooldownUntil && now < cooldownUntil[id];
    }
  }
}
