/** Theorems about whole runs of the routing protocol. */
module Routing {
  import opened Wrappers
  import opened Cooldown
  import opened Router

  // ---------------------------------------------------------------------
  // What one attempt does
  // ---------------------------------------------------------------------

  /** The log grew by calls to `model` at most, each answered by the environment. */
  ghost predicate Extends(env: Env, st: RouterState, st': RouterState) {
    && st.ticks <= st'.ticks
    && |st.calls| <= |st'.calls| && st'.calls[..|st.calls|] == st.calls
    && forall k :: |st.calls| <= k < |st'.calls| ==> st'.calls[k].reply == env.reply(k)
  }

  lemma ExtendsTwice(env: Env, st: RouterState, st1: RouterState, st2: RouterState)
    requires Extends(env, st, st1) && Extends(env, st1, st2)
    ensures Extends(env, st, st2)
  {
    assert st2.calls[..|st.calls|] == st1.calls[..|st.calls|];
    forall k | |st.calls| <= k < |st2.calls| ensures st2.calls[k].reply == env.reply(k) {
      if k < |st1.calls| { assert st2.calls[..|st1.calls|][k] == st1.calls[k]; }
    }
  }

  /** An attempt makes one call and reports its reply, or makes none and reports the model missing. */
  ghost predicate IsAttempt(env: Env, model: string, st: RouterState, reply: Reply, st': RouterState) {
    && Extends(env, st, st') && st'.tried == st.tried
    && if |st'.calls| == |st.calls| then reply == Raised(ModelNotFoundError)
       else |st'.calls| == |st.calls| + 1 && reply == env.reply(|st.calls|) && st'.calls[|st.calls|].model == model
  }

  /** The policy retries after this reply. */
  predicate IsRetryable(r: Reply) {
    r.Raised? && ShouldRetry(r.error)
  }

  ghost predicate ClockBelow(env: Env, from: nat, to: nat, limit: real) {
    forall i :: from <= i < to ==> env.clock(i) < limit
  }

  /** The model is not registered, or has a cooldown on record that is not over when its deployments
      are asked about. */
  ghost predicate Refuses(cfg: Config, env: Env, model: string, st: RouterState) {
    || model !in cfg.deployments
    || (model in st.cool.until
        && ClockBelow(env, st.ticks, st.ticks + |cfg.deployments[model]|, st.cool.until[model]))
  }

  /** The failures that count: an old cooldown takes the whole record with it. */
  function FailuresOnRecord(st: RouterState, model: string): nat {
    if model in st.cool.until then 0 else FailureCount(st.cool, model)
  }

  /** What decides whether the next attempt will still be made: a model that does not refuse is
      called, and a retryable failure is counted against the threshold; one that refuses is not
      called, and it does refuse while the clock is below the end of its cooldown. */
  ghost predicate HonoursCooldown(
    cfg: Config, env: Env, model: string, st: RouterState, reply: Reply, st': RouterState)
  {
    && (Refuses(cfg, env, model, st) ==> |st'.calls| == |st.calls|)
    && (!Refuses(cfg, env, model, st) ==>
          && |st'.calls| == |st.calls| + 1
          && (IsRetryable(reply) ==>
                && FailureCount(st'.cool, model) == FailuresOnRecord(st, model) + 1
                && if FailureCount(st'.cool, model) < cfg.allowedFails then model !in st'.cool.until
                   else EntersCooldown(cfg, env, model, st, st')))
    && (model in st.cool.until && ClockBelow(env, st.ticks, st'.ticks, st.cool.until[model]) ==>
          Refuses(cfg, env, model, st))
  }

  /** The last call has put the model into cooldown. */
  ghost predicate EntersCooldown(cfg: Config, env: Env, model: string, st: RouterState, st': RouterState) {
    && model in st'.cool.until && |st'.calls| == |st.calls| + 1
    && var call := st'.calls[|st.calls|];
    && st.ticks <= call.tick && st'.ticks == call.tick + 2
    && call.cooledUntil == Some(st'.cool.until[model])
  }

  lemma {:induction false} AvailableLogs(env: Env, all: seq<Deployment>, st: RouterState)
    ensures var st' := Available(env, all, st).1;
      st'.calls == st.calls && st'.tried == st.tried && st'.clients == st.clients && st'.ticks >= st.ticks
  {
    if all != [] {
      AvailableLogs(env, all[1..], Cooling(env, all[0].name, st).1);
    }
  }

  lemma AttemptIsAttempt(cfg: Config, env: Env, model: string, st: RouterState)
    ensures IsAttempt(env, model, st, Attempt(cfg, env, model, st).0, Attempt(cfg, env, model, st).1)
  {
    if model in cfg.deployments {
      AvailableLogs(env, cfg.deployments[model], st);
    }
  }

  lemma {:induction false} NoneCooling(env: Env, model: string, all: seq<Deployment>, st: RouterState)
    requires forall d :: d in all ==> d.name == model
    requires model !in st.cool.until
    ensures Available(env, all, st) == (all, st)
  {
    if all != [] {
      assert all[0] in all;
      NoneCooling(env, model, all[1..], st);
      assert [all[0]] + all[1..] == all;
    }
  }

  /** The answer about the deployments of a model with a cooldown on record: none while it lasts;
      otherwise the first that finds it over clears it, and the rest are available. */
  lemma {:induction false} CoolingAvailable(env: Env, model: string, all: seq<Deployment>, st: RouterState)
    requires forall d :: d in all ==> d.name == model
    requires model in st.cool.until
    ensures var (available, st') := Available(env, all, st);
      if ClockBelow(env, st.ticks, st.ticks + |all|, st.cool.until[model]) then
        available == [] && st' == st.(ticks := st.ticks + |all|)
      else
        && available != [] && (forall d :: d in available ==> d in all)
        && st'.cool == Forgotten(st.cool, model)
        && !ClockBelow(env, st.ticks, st'.ticks, st.cool.until[model])
  {
    if all != [] {
      assert all[0] in all;
      var st1 := Cooling(env, all[0].name, st).1;
      AvailableLogs(env, all[1..], st1);
      assert Available(env, all, st).1 == Available(env, all[1..], st1).1;
      if env.clock(st.ticks) < st.cool.until[model] {
        CoolingAvailable(env, model, all[1..], st1);
        assert ClockBelow(env, st.ticks, st.ticks + |all|, st.cool.until[model])
          <==> ClockBelow(env, st1.ticks, st1.ticks + |all[1..]|, st.cool.until[model]);
      } else {
        NoneCooling(env, model, all[1..], st1);
      }
    }
  }

  /** What selection leaves behind when the model does not refuse. */
  lemma SelectsUnlessRefused(cfg: Config, env: Env, model: string, st: RouterState)
    requires cfg.Valid()
    ensures var (selected, st') := Select(cfg, env, model, st);
      && (selected.None? <==> Refuses(cfg, env, model, st))
      && (selected.None? ==>
            st' == st.(ticks := st.ticks + if model in cfg.deployments then |cfg.deployments[model]| else 0))
      && st'.calls == st.calls && st'.ticks >= st.ticks
      && (selected.Some? ==>
            && selected.value.name == model && model !in st'.cool.until
            && FailureCount(st'.cool, model) == FailuresOnRecord(st, model)
            && (model in st.cool.until ==> !ClockBelow(env, st.ticks, st'.ticks, st.cool.until[model])))
  {
    if model !in cfg.deployments {
      return;
    }
    var all := cfg.deployments[model];
    AvailableLogs(env, all, st);
    if model in st.cool.until {
      CoolingAvailable(env, model, all, st);
    } else {
      NoneCooling(env, model, all, st);
    }
    var available := Available(env, all, st).0;
    if available != [] {
      assert available[env.pick(|st.calls|) % |available|] in available;
    }
  }

  lemma AttemptHonoursCooldown(cfg: Config, env: Env, model: string, st: RouterState)
    requires cfg.Valid()
    ensures HonoursCooldown(cfg, env, model, st, Attempt(cfg, env, model, st).0, Attempt(cfg, env, model, st).1)
  {
    SelectsUnlessRefused(cfg, env, model, st);
  }

  lemma AttemptingIsAttempt(cfg: Config, env: Env, model: string)
    ensures forall s :: IsAttempt(env, model, s, Attempting(cfg, env, model)(s).0, Attempting(cfg, env, model)(s).1)
  {
    forall s ensures IsAttempt(env, model, s, Attempting(cfg, env, model)(s).0, Attempting(cfg, env, model)(s).1) {
      AttemptIsAttempt(cfg, env, model, s);
    }
  }

  lemma AttemptingHonoursCooldown(cfg: Config, env: Env, model: string)
    requires cfg.Valid()
    ensures forall s ::
      HonoursCooldown(cfg, env, model, s, Attempting(cfg, env, model)(s).0, Attempting(cfg, env, model)(s).1)
  {
    forall s
      ensures HonoursCooldown(cfg, env, model, s, Attempting(cfg, env, model)(s).0, Attempting(cfg, env, model)(s).1)
    {
      AttemptHonoursCooldown(cfg, env, model, s);
    }
  }

  // ---------------------------------------------------------------------
  // How the retries of a model end
  // ---------------------------------------------------------------------

  /** How many retries the replies from call number `from` on ask for, out of `left`: the first reply
      that is not retryable ends them. */
  function RetriesAsked(env: Env, from: nat, left: nat): (k: nat)
    ensures k <= left && (k < left ==> !IsRetryable(env.reply(from + k)))
    ensures forall i :: from <= i < from + k ==> IsRetryable(env.reply(i))
    decreases left
  {
    if left == 0 || !IsRetryable(env.reply(from)) then 0 else RetriesAsked(env, from + 1, left - 1) + 1
  }

  lemma {:induction false} RetriesExtend(
    env: Env, model: string, attempt: AttemptFn, left: nat, st: RouterState)
    requires forall s :: IsAttempt(env, model, s, attempt(s).0, attempt(s).1)
    ensures Extends(env, st, WithRetry(attempt, left, st).1)
    ensures WithRetry(attempt, left, st).1.tried == st.tried
  {
    var (reply, st1) := attempt(st);
    assert IsAttempt(env, model, st, reply, st1);
    if !(reply.Answer? || left == 0 || !ShouldRetry(reply.error)) {
      RetriesExtend(env, model, attempt, left - 1, st1);
    }
  }

  /** The cooldown that this call started was not over at any query of the next attempt. */
  ghost predicate Outlasts(cfg: Config, env: Env, call: Call) {
    && call.cooledUntil.Some? && call.model in cfg.deployments
    && ClockBelow(env, call.tick + 2, call.tick + 2 + |cfg.deployments[call.model]|, call.cooledUntil.value)
  }

  /** The retries end in one of two ways: with the reply of the last call the replies ask for, or,
      short of it, with `ModelNotFoundError`, because the model refuses from the start or the last
      call started a cooldown that outlasts it. */
  ghost predicate Ends(
    cfg: Config, env: Env, model: string, left: nat, st: RouterState, reply: Reply, st': RouterState)
  {
    var k := RetriesAsked(env, |st.calls|, left);
    && Extends(env, st, st')
    && if |st'.calls| > |st.calls| + k then
         reply == env.reply(|st.calls| + k) && |st'.calls| == |st.calls| + k + 1
       else
         reply == Raised(ModelNotFoundError)
         && if |st'.calls| == |st.calls| then Refuses(cfg, env, model, st)
            else Outlasts(cfg, env, st'.calls[|st'.calls| - 1])
  }

  /** So it is for the retry loop around any attempt that honours cooldown, in every environment and
      however long the calls take. */
  lemma {:induction false} RetriesEnd(
    cfg: Config, env: Env, model: string, attempt: AttemptFn, left: nat, st: RouterState)
    requires forall s :: IsAttempt(env, model, s, attempt(s).0, attempt(s).1)
    requires forall s :: HonoursCooldown(cfg, env, model, s, attempt(s).0, attempt(s).1)
    ensures Ends(cfg, env, model, left, st, WithRetry(attempt, left, st).0, WithRetry(attempt, left, st).1)
  {
    var (reply, st1) := attempt(st);
    if left > 0 && IsRetryable(reply) {
      var (last, st') := WithRetry(attempt, left - 1, st1);
      assert WithRetry(attempt, left, st) == (last, st');
      RetriesEnd(cfg, env, model, attempt, left - 1, st1);
      assert Ends(cfg, env, model, left, st, last, st') by {
        assert IsAttempt(env, model, st, reply, st1) && HonoursCooldown(cfg, env, model, st, reply, st1);
        EndsOneLater(cfg, env, model, left, st, reply, st1, last, st');
      }
    } else {
      assert WithRetry(attempt, left, st) == (reply, st1);
      assert Ends(cfg, env, model, left, st, reply, st1) by {
        assert IsAttempt(env, model, st, reply, st1) && HonoursCooldown(cfg, env, model, st, reply, st1);
        EndsAtOnce(cfg, env, model, left, st, reply, st1);
      }
    }
  }

  lemma EndsAtOnce(
    cfg: Config, env: Env, model: string, left: nat, st: RouterState, reply: Reply, st1: RouterState)
    requires IsAttempt(env, model, st, reply, st1) && HonoursCooldown(cfg, env, model, st, reply, st1)
    requires left == 0 || !IsRetryable(reply)
    ensures Ends(cfg, env, model, left, st, reply, st1)
  {
    assert |st1.calls| > |st.calls| ==> RetriesAsked(env, |st.calls|, left) == 0;
  }

  lemma EndsOneLater(
    cfg: Config, env: Env, model: string, left: nat,
    st: RouterState, reply: Reply, st1: RouterState, last: Reply, st': RouterState)
    requires IsAttempt(env, model, st, reply, st1) && HonoursCooldown(cfg, env, model, st, reply, st1)
    requires left > 0 && IsRetryable(reply)
    requires Ends(cfg, env, model, left - 1, st1, last, st')
    ensures Ends(cfg, env, model, left, st, last, st')
  {
    ExtendsTwice(env, st, st1, st');
    assert RetriesAsked(env, |st.calls|, left) == RetriesAsked(env, |st1.calls|, left - 1) + 1;
    if |st'.calls| == |st1.calls| {
      assert st'.calls == st1.calls;
    }
  }

  /** The cooldown that this call started, if it did, is over at none of the readings of the clock that
      follow the call, up to but excluding number `to`. */
  ghost predicate LastsUntil(env: Env, call: Call, to: nat) {
    call.cooledUntil.Some? ==> ClockBelow(env, call.tick + 2, to, call.cooledUntil.value)
  }

  /** No cooldown that a call between `st` and `st'` started was over at a later reading of the clock
      before `st'`. */
  ghost predicate NoneExpires(env: Env, st: RouterState, st': RouterState) {
    forall k :: |st.calls| <= k < |st'.calls| ==> LastsUntil(env, st'.calls[k], st'.ticks)
  }

  /** The last call the replies ask for is not made: the model refuses from the start, or its failures
      on record and those to come reach the threshold before. */
  ghost predicate Stopped(cfg: Config, env: Env, model: string, left: nat, st: RouterState) {
    var k := RetriesAsked(env, |st.calls|, left);
    Refuses(cfg, env, model, st) || (k > 0 && FailuresOnRecord(st, model) + k >= cfg.allowedFails)
  }

  /** The calls made before the cooldown stops the model. */
  ghost function CallsUntilStopped(cfg: Config, env: Env, model: string, st: RouterState): nat {
    var c := FailuresOnRecord(st, model);
    if Refuses(cfg, env, model, st) then 0 else if c < cfg.allowedFails then cfg.allowedFails - c else 1
  }

  /** Which way the retries end, told from the environment and the state before them. */
  ghost predicate EndsAsTold(
    cfg: Config, env: Env, model: string, left: nat, st: RouterState, reply: Reply, st': RouterState)
  {
    var k := RetriesAsked(env, |st.calls|, left);
    if Stopped(cfg, env, model, left, st) then
      reply == Raised(ModelNotFoundError) && |st'.calls| == |st.calls| + CallsUntilStopped(cfg, env, model, st)
    else
      reply == env.reply(|st.calls| + k) && |st'.calls| == |st.calls| + k + 1
  }

  /** The retry loop around any attempt that honours cooldown, whatever the provider replies. */
  lemma {:induction false} RetriesEndExactly(
    cfg: Config, env: Env, model: string, attempt: AttemptFn, left: nat, st: RouterState)
    requires forall s :: IsAttempt(env, model, s, attempt(s).0, attempt(s).1)
    requires forall s :: HonoursCooldown(cfg, env, model, s, attempt(s).0, attempt(s).1)
    requires NoneExpires(env, st, WithRetry(attempt, left, st).1)
    ensures EndsAsTold(cfg, env, model, left, st, WithRetry(attempt, left, st).0, WithRetry(attempt, left, st).1)
  {
    var (reply, st1) := attempt(st);
    if left > 0 && IsRetryable(reply) {
      var (last, st') := WithRetry(attempt, left - 1, st1);
      assert WithRetry(attempt, left, st) == (last, st');
      assert NoneExpires(env, st1, st') by {
        assert IsAttempt(env, model, st, reply, st1);
      }
      RetriesEndExactly(cfg, env, model, attempt, left - 1, st1);
      assert EndsAsTold(cfg, env, model, left, st, last, st') by {
        assert IsAttempt(env, model, st, reply, st1) && HonoursCooldown(cfg, env, model, st, reply, st1);
        if FailureCount(st1.cool, model) >= cfg.allowedFails {
          CoolingIsRefused(cfg, env, model, attempt, left - 1, st, st1);
        }
        ToldOneLater(cfg, env, model, left, st, reply, st1, last, st');
      }
    } else {
      assert WithRetry(attempt, left, st) == (reply, st1);
      assert EndsAsTold(cfg, env, model, left, st, reply, st1) by {
        assert IsAttempt(env, model, st, reply, st1) && HonoursCooldown(cfg, env, model, st, reply, st1);
        ToldAtOnce(cfg, env, model, left, st, reply, st1);
      }
    }
  }

  lemma ToldAtOnce(
    cfg: Config, env: Env, model: string, left: nat, st: RouterState, reply: Reply, st1: RouterState)
    requires IsAttempt(env, model, st, reply, st1) && HonoursCooldown(cfg, env, model, st, reply, st1)
    requires left == 0 || !IsRetryable(reply)
    ensures EndsAsTold(cfg, env, model, left, st, reply, st1)
  {
    assert |st1.calls| > |st.calls| ==> RetriesAsked(env, |st.calls|, left) == 0;
  }

  /** One retryable failure earlier the same is told. */
  lemma ToldOneLater(
    cfg: Config, env: Env, model: string, left: nat,
    st: RouterState, reply: Reply, st1: RouterState, last: Reply, st': RouterState)
    requires IsAttempt(env, model, st, reply, st1) && HonoursCooldown(cfg, env, model, st, reply, st1)
    requires left > 0 && IsRetryable(reply)
    requires FailureCount(st1.cool, model) >= cfg.allowedFails ==> Refuses(cfg, env, model, st1)
    requires EndsAsTold(cfg, env, model, left - 1, st1, last, st')
    ensures EndsAsTold(cfg, env, model, left, st, last, st')
  {
    assert !Refuses(cfg, env, model, st);
    assert RetriesAsked(env, |st.calls|, left) == RetriesAsked(env, |st1.calls|, left - 1) + 1;
  }

  /** A cooldown that has just begun, and does not expire in the run, is found at the next attempt. */
  lemma CoolingIsRefused(
    cfg: Config, env: Env, model: string, attempt: AttemptFn, left: nat, st: RouterState, st1: RouterState)
    requires forall s :: IsAttempt(env, model, s, attempt(s).0, attempt(s).1)
    requires forall s :: HonoursCooldown(cfg, env, model, s, attempt(s).0, attempt(s).1)
    requires EntersCooldown(cfg, env, model, st, st1)
    requires NoneExpires(env, st, WithRetry(attempt, left, st1).1)
    ensures Refuses(cfg, env, model, st1)
  {
    var (reply, st2) := attempt(st1);
    assert IsAttempt(env, model, st1, reply, st2) && HonoursCooldown(cfg, env, model, st1, reply, st2);
    RetriesExtend(env, model, attempt, left, st1);
    if left > 0 && IsRetryable(reply) {
      RetriesExtend(env, model, attempt, left - 1, st2);
    }
    var st' := WithRetry(attempt, left, st1).1;
    assert st'.calls[|st.calls|] == st1.calls[|st.calls|] && st2.ticks <= st'.ticks;
  }

  // ---------------------------------------------------------------------
  // The shape of every request
  // ---------------------------------------------------------------------

  /** What `_execute_with_retry` does for one model: at most `max` calls, all to that model; every
      call before the last raised an error worth retrying; the last reply is reported, unless the
      model turned out to be unavailable. */
  ghost predicate IsExecution(env: Env, model: string, max: nat, st: RouterState, reply: Reply, st': RouterState) {
    && Extends(env, st, st') && st'.tried == st.tried
    && |st'.calls| <= |st.calls| + max
    && (forall k :: |st.calls| <= k < |st'.calls| ==> st'.calls[k].model == model)
    && (forall k :: |st.calls| <= k < |st'.calls| - 1 ==> IsRetryable(env.reply(k)))
    && (reply == Raised(ModelNotFoundError) || (|st'.calls| > |st.calls| && reply == env.reply(|st'.calls| - 1)))
    && (reply == Raised(ModelNotFoundError) && |st'.calls| > |st.calls| ==> env.reply(|st'.calls| - 1).Raised?)
  }

  lemma {:induction false} RetryIsExecution(
    env: Env, model: string, attempt: AttemptFn, left: nat, st: RouterState)
    requires forall s :: IsAttempt(env, model, s, attempt(s).0, attempt(s).1)
    ensures IsExecution(env, model, left + 1, st, WithRetry(attempt, left, st).0, WithRetry(attempt, left, st).1)
  {
    var (reply, st1) := attempt(st);
    assert IsAttempt(env, model, st, reply, st1);
    if !(reply.Answer? || left == 0 || !ShouldRetry(reply.error)) {
      RetryIsExecution(env, model, attempt, left - 1, st1);
    }
  }

  lemma ExecutesExtend(cfg: Config, env: Env)
    ensures forall m, s ::
      IsExecution(env, m, cfg.maxRetries + 1, s, Executing(cfg, env)(m, s).0, Executing(cfg, env)(m, s).1)
  {
    forall m, s
      ensures IsExecution(env, m, cfg.maxRetries + 1, s, Executing(cfg, env)(m, s).0, Executing(cfg, env)(m, s).1)
    {
      AttemptingIsAttempt(cfg, env, m);
      RetryIsExecution(env, m, Attempting(cfg, env, m), cfg.maxRetries, s);
    }
  }

  /** The models of a chain have been tried in order, all of them unless the reply ends the chain. */
  ghost predicate TriedInOrder(models: seq<string>, before: seq<string>, tried: seq<string>, reply: Reply) {
    exists n :: 0 < n <= |models| && tried == before + models[..n]
      && (n < |models| ==> reply.Answer? || Aborts(reply.error))
  }

  ghost predicate IsChainRun(env: Env, models: seq<string>, max: nat, st: RouterState, reply: Reply, st': RouterState) {
    && Extends(env, st, st')
    && |st'.calls| <= |st.calls| + max
    && (forall k :: |st.calls| <= k < |st'.calls| - 1 ==> env.reply(k).Raised? && !Aborts(env.reply(k).error))
    && (reply == Raised(ModelNotFoundError) || (|st'.calls| > |st.calls| && reply == env.reply(|st'.calls| - 1)))
    && TriedInOrder(models, st.tried, st'.tried, reply)
  }

  /** A chain tries its models in order and stops at the first answer or aborting error. */
  lemma {:induction false} FallbacksAreChainRun(
    env: Env, providerFn: ProviderFn, models: seq<string>, perModel: nat, st: RouterState)
    requires models != []
    requires forall m, s :: IsExecution(env, m, perModel, s, providerFn(m, s).0, providerFn(m, s).1)
    ensures IsChainRun(env, models, |models| * perModel, st,
      WithFallbacks(providerFn, models, st).0, WithFallbacks(providerFn, models, st).1)
    decreases |models|
  {
    var st0 := st.(tried := st.tried + [models[0]]);
    var (reply, st1) := providerFn(models[0], st0);
    assert IsExecution(env, models[0], perModel, st0, reply, st1);
    assert st1.tried == st.tried + models[..1];
    Multiply(|models|, perModel);
    if !(reply.Answer? || Aborts(reply.error) || |models| == 1) {
      FallbacksAreChainRun(env, providerFn, models[1..], perModel, st1);
      var (r, st') := WithFallbacks(providerFn, models[1..], st1);
      ExtendsTwice(env, st, st1, st');
      TriedOneMore(models, st.tried, st'.tried, r);
    } else {
      assert TriedInOrder(models, st.tried, st1.tried, reply);
    }
  }

  lemma TriedOneMore(models: seq<string>, before: seq<string>, tried: seq<string>, reply: Reply)
    requires models != [] && TriedInOrder(models[1..], before + [models[0]], tried, reply)
    ensures TriedInOrder(models, before, tried, reply)
  {
    var n :| 0 < n <= |models| - 1 && tried == before + [models[0]] + models[1..][..n]
      && (n < |models| - 1 ==> reply.Answer? || Aborts(reply.error));
    assert tried == before + models[..n + 1];
  }

  lemma Multiply(n: nat, m: nat)
    requires n > 0
    ensures n * m == m + (n - 1) * m && (n - 1) * m >= 0
  {
  }

  /** Every chat completion, from any state, in any environment: at most
      `(1 + |fallbacks|) * (maxRetries + 1)` provider calls; the models are tried in the order of the
      chain; only the last call may have been answered or have raised an aborting error; and the
      reply is that of the last call, unless the last model tried was unavailable. */
  lemma EveryRequest(cfg: Config, env: Env, model: string, st: RouterState)
    ensures IsChainRun(env, cfg.ChainOf(model), |cfg.ChainOf(model)| * (cfg.maxRetries + 1), st,
      Complete(cfg, env, model, st).0, Complete(cfg, env, model, st).1)
  {
    ExecutesExtend(cfg, env);
    FallbacksAreChainRun(env, Executing(cfg, env), cfg.ChainOf(model), cfg.maxRetries + 1, st);
  }

  lemma PrimaryEndsExactly(cfg: Config, env: Env, model: string, st: RouterState)
    requires cfg.Valid()
    requires NoneExpires(env, st, Execute(cfg, env, model, st).1)
    ensures var (reply, st') := Execute(cfg, env, model, st);
      EndsAsTold(cfg, env, model, cfg.maxRetries, st, reply, st')
  {
    AttemptingIsAttempt(cfg, env, model);
    AttemptingHonoursCooldown(cfg, env, model);
    RetriesEndExactly(cfg, env, model, Attempting(cfg, env, model), cfg.maxRetries, st);
  }

  /** Every execution of a model, in every environment, ends in one of the two ways. */
  lemma ExecutionEnds(cfg: Config, env: Env, model: string, st: RouterState)
    requires cfg.Valid()
    ensures var (reply, st') := Execute(cfg, env, model, st);
      Ends(cfg, env, model, cfg.maxRetries, st, reply, st')
  {
    AttemptingIsAttempt(cfg, env, model);
    AttemptingHonoursCooldown(cfg, env, model);
    RetriesEnd(cfg, env, model, Attempting(cfg, env, model), cfg.maxRetries, st);
  }

  /** The second model of a chain is tried exactly when the first neither answers nor aborts. */
  lemma SecondIsTried(
    env: Env, providerFn: ProviderFn, models: seq<string>, perModel: nat, st: RouterState)
    requires |models| > 1
    requires forall m, s :: IsExecution(env, m, perModel, s, providerFn(m, s).0, providerFn(m, s).1)
    ensures var (reply, st1) := providerFn(models[0], st.(tried := st.tried + [models[0]]));
      var (r, st') := WithFallbacks(providerFn, models, st);
      if reply.Answer? || Aborts(reply.error) then (r, st') == (reply, st1) && st'.tried == st.tried + [models[0]]
      else st.tried + models[..2] <= st'.tried
  {
    var st0 := st.(tried := st.tried + [models[0]]);
    var (reply, st1) := providerFn(models[0], st0);
    assert IsExecution(env, models[0], perModel, st0, reply, st1);
    FallbacksAreChainRun(env, providerFn, models[1..], perModel, st1);
    var st' := WithFallbacks(providerFn, models[1..], st1).1;
    var n :| 0 < n <= |models[1..]| && st'.tried == st1.tried + models[1..][..n];
    assert st1.tried == st.tried + [models[0]];
    TwoTried(st.tried, models, n);
  }

  lemma OnlyOneTried(tried: seq<string>, models: seq<string>)
    requires |models| > 1
    ensures !(tried + models[..2] <= tried + [models[0]])
  {
    assert |tried + models[..2]| > |tried + [models[0]]|;
  }

  lemma TwoTried(tried: seq<string>, models: seq<string>, n: nat)
    requires 0 < n < |models|
    ensures tried + models[..2] <= tried + [models[0]] + models[1..][..n]
  {
    assert tried + [models[0]] + models[1..][..n] == tried + models[..2] + models[2..n + 1];
  }

  lemma AfterPrimary(cfg: Config, env: Env, model: string, st: RouterState)
    requires |cfg.ChainOf(model)| > 1
    ensures var (reply, st1) := Execute(cfg, env, model, st.(tried := st.tried + [model]));
      var (r, st') := Complete(cfg, env, model, st);
      if reply.Answer? || Aborts(reply.error) then
        (r, st') == (reply, st1) && st'.tried == st.tried + [model]
        && !(st.tried + cfg.ChainOf(model)[..2] <= st'.tried)
      else st.tried + cfg.ChainOf(model)[..2] <= st'.tried
  {
    var st0 := st.(tried := st.tried + [model]);
    ExecutesExtend(cfg, env);
    assert Executing(cfg, env)(model, st0) == Execute(cfg, env, model, st0);
    SecondIsTried(env, Executing(cfg, env), cfg.ChainOf(model), cfg.maxRetries + 1, st);
    OnlyOneTried(st.tried, cfg.ChainOf(model));
  }

  /** The handover theorem.  The first fallback of a primary is tried if and only if its cooldown does
      not stop it, it is registered, and the last call its replies ask for fails without ending
      the chain.  If it is stopped, the request ends in `ModelNotFoundError` and no fallback is
      tried.  Whatever the provider replies and however long it takes, as long as no cooldown that
      the primary enters meanwhile is over before it is through. */
  lemma HandsOverExactly(cfg: Config, env: Env, model: string, st: RouterState)
    requires cfg.Valid() && |cfg.ChainOf(model)| > 1
    requires NoneExpires(env, st, Execute(cfg, env, model, st.(tried := st.tried + [model])).1)
    ensures var k := RetriesAsked(env, |st.calls|, cfg.maxRetries);
      var last := env.reply(|st.calls| + k);
      var stopped := Stopped(cfg, env, model, cfg.maxRetries, st);
      var (reply, st') := Complete(cfg, env, model, st);
      && (st.tried + cfg.ChainOf(model)[..2] <= st'.tried <==> !stopped && last.Raised? && !Aborts(last.error))
      && (stopped ==>
            && reply == Raised(ModelNotFoundError) && st'.tried == st.tried + [model]
            && |st'.calls| == |st.calls| + CallsUntilStopped(cfg, env, model, st))
      && (!stopped && (last.Answer? || Aborts(last.error)) ==>
            reply == last && st'.tried == st.tried + [model] && |st'.calls| == |st.calls| + k + 1)
  {
    var st0 := st.(tried := st.tried + [model]);
    PrimaryEndsExactly(cfg, env, model, st0);
    AfterPrimary(cfg, env, model, st);
  }

  /** With the settings the router is built with by default (three retries, three failures
      allowed), the documented fallback never comes to the help of a fresh primary that always
      fails retryably: its third failure starts a cooldown, and the fourth attempt ends the
      request unless the cooldown is over by then. */
  lemma DefaultsNeverFallBack(cfg: Config, env: Env, model: string)
    requires cfg.Valid() && model in cfg.deployments && |cfg.ChainOf(model)| > 1
    requires cfg.maxRetries == 3 && cfg.allowedFails == 3
    requires forall k :: 0 <= k < 3 ==> IsRetryable(env.reply(k))
    requires NoneExpires(env, START, Execute(cfg, env, model, START.(tried := [model])).1)
    ensures var (reply, st') := Complete(cfg, env, model, START);
      st'.tried == [model] && |st'.calls| == 3 && reply == Raised(ModelNotFoundError)
  {
    assert START.tried + [model] == [model];
    HandsOverExactly(cfg, env, model, START);
  }

  // ---------------------------------------------------------------------
  // What a request does, model by model
  // ---------------------------------------------------------------------

  /** A model's turn in a chain: its stretch of the log. */
  datatype Turn = Turn(model: string, before: RouterState, reply: Reply, after: RouterState)

  /** All calls of the turn go to its model, and they end in one of the two ways: with the reply of the
      last call the replies ask for, or with `ModelNotFoundError` for a cause. */
  ghost predicate IsTurn(cfg: Config, env: Env, t: Turn) {
    && Ends(cfg, env, t.model, cfg.maxRetries, t.before, t.reply, t.after)
    && t.after.tried == t.before.tried + [t.model]
    && forall k :: |t.before.calls| <= k < |t.after.calls| ==> t.after.calls[k].model == t.model
  }

  /** The turns of a request: each model of the chain has its turn after the one before it, as long as
      turns fail without aborting, and the reply is that of the last turn. */
  ghost predicate AreTurns(
    cfg: Config, env: Env, chain: seq<string>, st: RouterState, reply: Reply, st': RouterState, turns: seq<Turn>)
  {
    && 0 < |turns| <= |chain|
    && (forall i :: 0 <= i < |turns| ==> turns[i].model == chain[i] && IsTurn(cfg, env, turns[i]))
    && turns[0].before == st && turns[|turns| - 1].after == st' && turns[|turns| - 1].reply == reply
    && (forall i :: 0 < i < |turns| ==> HandsOn(turns[i - 1], turns[i]))
    && (|turns| < |chain| ==> reply.Answer? || Aborts(reply.error))
  }

  /** One turn fails without aborting, and the next begins where it ends. */
  ghost predicate HandsOn(t: Turn, next: Turn) {
    t.reply.Raised? && !Aborts(t.reply.error) && next.before == t.after
  }

  lemma FirstTurn(cfg: Config, env: Env, model: string, st: RouterState) returns (t: Turn)
    requires cfg.Valid()
    ensures var (reply, st1) := Executing(cfg, env)(model, st.(tried := st.tried + [model]));
      t == Turn(model, st, reply, st1) && IsTurn(cfg, env, t)
  {
    var st0 := st.(tried := st.tried + [model]);
    var (reply, st1) := Execute(cfg, env, model, st0);
    t := Turn(model, st, reply, st1);
    ExecutionEnds(cfg, env, model, st0);
    ExecutesExtend(cfg, env);
    assert Executing(cfg, env)(model, st0) == (reply, st1);
  }

  lemma TurnBefore(
    cfg: Config, env: Env, chain: seq<string>, t: Turn, reply: Reply, st': RouterState, turns: seq<Turn>)
    requires |chain| > 1 && t.model == chain[0] && IsTurn(cfg, env, t)
    requires t.reply.Raised? && !Aborts(t.reply.error)
    requires AreTurns(cfg, env, chain[1..], t.after, reply, st', turns)
    ensures AreTurns(cfg, env, chain, t.before, reply, st', [t] + turns)
  {
    var all := [t] + turns;
    forall i | 0 <= i < |all| ensures all[i].model == chain[i] && IsTurn(cfg, env, all[i]) {
      if i > 0 { assert all[i] == turns[i - 1] && chain[i] == chain[1..][i - 1]; }
    }
    forall i | 0 < i < |all| ensures HandsOn(all[i - 1], all[i]) {
      if i > 1 { assert all[i] == turns[i - 1] && all[i - 1] == turns[i - 2]; }
    }
  }

  lemma {:induction false} ChainIsTurns(cfg: Config, env: Env, chain: seq<string>, st: RouterState)
    returns (turns: seq<Turn>)
    requires cfg.Valid() && chain != []
    ensures var (reply, st') := WithFallbacks(Executing(cfg, env), chain, st);
      AreTurns(cfg, env, chain, st, reply, st', turns)
    decreases |chain|
  {
    var t := FirstTurn(cfg, env, chain[0], st);
    if t.reply.Answer? || Aborts(t.reply.error) || |chain| == 1 {
      turns := [t];
    } else {
      var rest := ChainIsTurns(cfg, env, chain[1..], t.after);
      var (reply, st') := WithFallbacks(Executing(cfg, env), chain[1..], t.after);
      TurnBefore(cfg, env, chain, t, reply, st', rest);
      turns := [t] + rest;
    }
  }

  /** Every chat completion consists of turns: the log is cut into one stretch per model tried, in the
      order of the chain, every call of a stretch going to its model; the reply is that of the last
      turn; and a turn ends in `ModelNotFoundError` without a call asking for it only if its model
      is unknown or cooling. */
  lemma RequestIsTurns(cfg: Config, env: Env, model: string, st: RouterState) returns (turns: seq<Turn>)
    requires cfg.Valid()
    ensures var (reply, st') := Complete(cfg, env, model, st);
      AreTurns(cfg, env, cfg.ChainOf(model), st, reply, st', turns)
  {
    turns := ChainIsTurns(cfg, env, cfg.ChainOf(model), st);
  }

  /** A model that gets its turn is called: if it is registered, has no cooldown on record, and the
      provider answers, that answer is the reply, after a single call to it. */
  lemma TurnAnswers(cfg: Config, env: Env, t: Turn)
    requires IsTurn(cfg, env, t) && t.model in cfg.deployments && t.model !in t.before.cool.until
    requires env.reply(|t.before.calls|).Answer?
    ensures t.reply == env.reply(|t.before.calls|) && |t.after.calls| == |t.before.calls| + 1
    ensures t.after.calls[|t.before.calls|].model == t.model && t.after.calls[|t.before.calls|].reply == t.reply
  {
    assert RetriesAsked(env, |t.before.calls|, cfg.maxRetries) == 0;
  }

  lemma {:induction false} ChainSplits(providerFn: ProviderFn, left: seq<string>, right: seq<string>, st: RouterState)
    requires left != [] && right != []
    ensures var (reply, st1) := WithFallbacks(providerFn, left, st);
      WithFallbacks(providerFn, left + right, st) ==
        if reply.Answer? || Aborts(reply.error) then (reply, st1) else WithFallbacks(providerFn, right, st1)
    decreases |left|
  {
    assert (left + right)[0] == left[0] && (left + right)[1..] == left[1..] + right;
    if |left| > 1 {
      ChainSplits(providerFn, left[1..], right, providerFn(left[0], st.(tried := st.tried + [left[0]])).1);
    } else {
      assert left[1..] + right == right;
    }
  }

  /** Fallbacks come to the help of a request: if the primary and the first `j` fallbacks configured
      for it fail without aborting, the next fallback is called, and if it is registered, has no
      cooldown on record and answers, the request is answered by it. */
  lemma FallbackAnswers(cfg: Config, env: Env, model: string, st: RouterState, j: nat)
    requires cfg.Valid() && model in cfg.fallbacks && j < |cfg.fallbacks[model]|
    requires var (reply, st1) := WithFallbacks(Executing(cfg, env), [model] + cfg.fallbacks[model][..j], st);
      && reply.Raised? && !Aborts(reply.error)
      && cfg.fallbacks[model][j] in cfg.deployments && cfg.fallbacks[model][j] !in st1.cool.until
      && env.reply(|st1.calls|).Answer?
    ensures var st1 := WithFallbacks(Executing(cfg, env), [model] + cfg.fallbacks[model][..j], st).1;
      var (reply, st') := Complete(cfg, env, model, st);
      && reply == env.reply(|st1.calls|) && |st'.calls| == |st1.calls| + 1
      && st'.calls[..|st1.calls|] == st1.calls && st'.calls[|st1.calls|].model == cfg.fallbacks[model][j]
  {
    var left, right := [model] + cfg.fallbacks[model][..j], cfg.fallbacks[model][j..];
    assert cfg.ChainOf(model) == left + right && right[0] == cfg.fallbacks[model][j];
    ChainSplits(Executing(cfg, env), left, right, st);
    var st1 := WithFallbacks(Executing(cfg, env), left, st).1;
    var t := FirstTurn(cfg, env, right[0], st1);
    TurnAnswers(cfg, env, t);
  }

  // ---------------------------------------------------------------------
  // The first fallback, told from the environment
  // ---------------------------------------------------------------------

  /** No model but this one has gained or lost a cooldown. */
  ghost predicate TouchesOnly(model: string, st: RouterState, st': RouterState) {
    forall m :: m != model ==> (m in st'.cool.until <==> m in st.cool.until)
  }

  lemma {:induction false} AvailableTouchesOnly(env: Env, model: string, all: seq<Deployment>, st: RouterState)
    requires forall d :: d in all ==> d.name == model
    ensures TouchesOnly(model, st, Available(env, all, st).1)
    ensures forall d :: d in Available(env, all, st).0 ==> d in all
  {
    if all != [] {
      assert all[0] in all;
      AvailableTouchesOnly(env, model, all[1..], Cooling(env, all[0].name, st).1);
    }
  }

  lemma AttemptTouchesOnly(cfg: Config, env: Env, model: string, st: RouterState)
    requires cfg.Valid()
    ensures TouchesOnly(model, st, Attempt(cfg, env, model, st).1)
  {
    if model in cfg.deployments {
      AvailableTouchesOnly(env, model, cfg.deployments[model], st);
      SelectsUnlessRefused(cfg, env, model, st);
    }
  }

  lemma {:induction false} RetriesTouchOnly(model: string, attempt: AttemptFn, left: nat, st: RouterState)
    requires forall s :: TouchesOnly(model, s, attempt(s).1)
    ensures TouchesOnly(model, st, WithRetry(attempt, left, st).1)
  {
    var (reply, st1) := attempt(st);
    assert TouchesOnly(model, st, st1);
    if !(reply.Answer? || left == 0 || !ShouldRetry(reply.error)) {
      RetriesTouchOnly(model, attempt, left - 1, st1);
    }
  }

  /** The handover is a call: when the primary hands over, as `HandsOverExactly` tells, to another model
      that is registered and has no cooldown on record, and the provider answers the call that
      follows the primary's, the request is answered by that call to the fallback. */
  lemma FirstFallbackAnswers(cfg: Config, env: Env, model: string, st: RouterState)
    requires cfg.Valid() && model in cfg.fallbacks && cfg.fallbacks[model] != []
    requires NoneExpires(env, st, Execute(cfg, env, model, st.(tried := st.tried + [model])).1)
    requires var k := RetriesAsked(env, |st.calls|, cfg.maxRetries);
      var last, fallback := env.reply(|st.calls| + k), cfg.fallbacks[model][0];
      && !Stopped(cfg, env, model, cfg.maxRetries, st) && last.Raised? && !Aborts(last.error)
      && fallback != model && fallback in cfg.deployments && fallback !in st.cool.until
      && env.reply(|st.calls| + k + 1).Answer?
    ensures var k := RetriesAsked(env, |st.calls|, cfg.maxRetries);
      var (reply, st') := Complete(cfg, env, model, st);
      && reply == env.reply(|st.calls| + k + 1) && |st'.calls| == |st.calls| + k + 2
      && st'.calls[|st.calls| + k + 1].model == cfg.fallbacks[model][0]
  {
    var st0 := st.(tried := st.tried + [model]);
    PrimaryEndsExactly(cfg, env, model, st0);
    forall s ensures TouchesOnly(model, s, Attempting(cfg, env, model)(s).1) {
      AttemptTouchesOnly(cfg, env, model, s);
    }
    RetriesTouchOnly(model, Attempting(cfg, env, model), cfg.maxRetries, st0);
    assert [model] + cfg.fallbacks[model][..0] == [model];
    assert WithFallbacks(Executing(cfg, env), [model], st) == Execute(cfg, env, model, st0);
    FallbackAnswers(cfg, env, model, st, 0);
  }

  // ---------------------------------------------------------------------
  // Whole runs: cooldown is honoured, clients are shared
  // ---------------------------------------------------------------------

  /** No reading of the clock from now on is before `t`. */
  ghost predicate Past(env: Env, st: RouterState, t: real) {
    forall i :: st.ticks <= i ==> t <= env.clock(i)
  }

  /** The cooldown a call started is either on record, or over. */
  ghost predicate StillHeld(env: Env, st: RouterState, c: Call) {
    c.cooledUntil.Some? ==>
      (c.model in st.cool.until && c.cooledUntil.value <= st.cool.until[c.model]) || Past(env, st, c.cooledUntil.value)
  }

  /** The invariant of a run: what the log promises, and what links it to the present state. */
  ghost predicate Inv(cfg: Config, env: Env, st: RouterState) {
    && Counted(st) && CooldownEntered(cfg, st.calls)
    && Held(env, st) && CooldownHonoured(st.calls)
    && Shared(cfg, st)
  }

  ghost predicate Counted(st: RouterState) {
    forall m :: Streak(st.calls, m) == if m in st.cool.until then 0 else FailureCount(st.cool, m)
  }

  ghost predicate Held(env: Env, st: RouterState) {
    forall c :: c in st.calls ==> StillHeld(env, st, c)
  }

  /** The cache holds, for every model called, the client of one of its deployments, and that client
      has served all calls to it. */
  ghost predicate Shared(cfg: Config, st: RouterState) {
    && (forall m :: m in st.clients ==> ClientOfModel(cfg, m, st.clients[m]))
    && forall c :: c in st.calls ==>
         && c.model in st.clients && c.served == st.clients[c.model]
         && c.model in cfg.deployments && c.chosen in cfg.deployments[c.model]
  }

  ghost predicate ClientOfModel(cfg: Config, model: string, client: Client) {
    model in cfg.deployments && exists d :: d in cfg.deployments[model] && client == cfg.ClientOf(d)
  }

  predicate Retryable(c: Call) {
    IsRetryable(c.reply)
  }

  /** The retryable failures of a model since its last answer, or since its last cooldown began. */
  ghost function Streak(calls: seq<Call>, model: string): nat {
    if calls == [] then 0
    else
      var c := calls[|calls| - 1];
      if c.model == model && (c.reply.Answer? || c.cooledUntil.Some?) then 0
      else Streak(calls[..|calls| - 1], model) + if c.model == model && Retryable(c) then 1 else 0
  }

  /** A call starts a cooldown exactly when it is the failure that completes the streak, and that
      cooldown lasts at least `cooldownSeconds` from the start of the call. */
  ghost predicate CooldownEntered(cfg: Config, calls: seq<Call>) {
    forall i :: 0 <= i < |calls| ==>
      var c := calls[i];
      && (c.cooledUntil.Some? <==> Retryable(c) && Streak(calls[..i], c.model) + 1 >= cfg.allowedFails)
      && (c.cooledUntil.Some? ==> c.start + cfg.cooldownSeconds as real <= c.cooledUntil.value)
  }

  /** Once the failures of a model have started a cooldown, the model is not called again before
      that cooldown ends. */
  ghost predicate CooldownHonoured(calls: seq<Call>) {
    forall i, j :: 0 <= i < j < |calls| && calls[i].model == calls[j].model && calls[i].cooledUntil.Some?
      ==> calls[i].cooledUntil.value <= calls[j].start
  }

  ghost predicate SameClientPerModel(calls: seq<Call>) {
    forall i, j :: 0 <= i < j < |calls| && calls[i].model == calls[j].model ==> calls[i].served == calls[j].served
  }

  lemma {:induction false} AvailableKeepsInv(
    cfg: Config, env: Env, model: string, all: seq<Deployment>, st: RouterState)
    requires Monotone(env.clock) && Inv(cfg, env, st)
    requires forall d :: d in all ==> d.name == model
    ensures Inv(cfg, env, Available(env, all, st).1)
    ensures Available(env, all, st).1.calls == st.calls
    ensures Available(env, all, st).0 != [] || model !in st.cool.until ==>
      model !in Available(env, all, st).1.cool.until
    ensures forall d :: d in Available(env, all, st).0 ==> d in all
  {
    if all != [] {
      assert all[0] in all;
      var st1 := Cooling(env, all[0].name, st).1;
      forall c | c in st1.calls ensures StillHeld(env, st1, c) {
        assert StillHeld(env, st, c);
      }
      AvailableKeepsInv(cfg, env, model, all[1..], st1);
    }
  }

  /** What the log gains from a call once it is settled. */
  lemma SettledCall(cfg: Config, env: Env, call: Call, st: RouterState) returns (c: Call)
    requires Monotone(env.clock) && call.chosen.name == call.model && call.cooledUntil.None?
    requires st.ticks > 0 && call.start == env.clock(st.ticks - 1)
    ensures var st' := Settle(cfg, env, call, st);
      var model := call.model;
      && st'.calls == st.calls + [c] && c == call.(cooledUntil := c.cooledUntil)
      && st'.ticks >= st.ticks && st'.clients == st.clients
      && (forall m :: m != model ==> FailureCount(st'.cool, m) == FailureCount(st.cool, m))
      && (forall m :: m != model ==> (m in st'.cool.until <==> m in st.cool.until))
      && (forall m :: m != model && m in st.cool.until ==> st'.cool.until[m] == st.cool.until[m])
      && if c.cooledUntil.Some? then
           && Retryable(c) && FailureCount(st.cool, model) + 1 >= cfg.allowedFails
           && model in st'.cool.until && st'.cool.until[model] == c.cooledUntil.value
           && c.start + cfg.cooldownSeconds as real <= c.cooledUntil.value
         else
           && (Retryable(c) ==> FailureCount(st.cool, model) + 1 < cfg.allowedFails)
           && (model !in st.cool.until ==> model !in st'.cool.until)
           && FailureCount(st'.cool, model) ==
                if c.reply.Answer? then 0 else FailureCount(st.cool, model) + if Retryable(c) then 1 else 0
  {
    c := Settle(cfg, env, call, st).calls[|st.calls|];
    assert env.clock(st.ticks - 1) <= env.clock(st.ticks);
  }

  lemma LogKeepsCounts(st: RouterState, c: Call, st': RouterState)
    requires Counted(st) && c.model !in st.cool.until
    requires st'.calls == st.calls + [c]
    requires forall m :: m != c.model ==> FailureCount(st'.cool, m) == FailureCount(st.cool, m)
    requires forall m :: m != c.model ==> (m in st'.cool.until <==> m in st.cool.until)
    requires c.cooledUntil.Some? ==> Retryable(c)
    requires c.cooledUntil.Some? <==> c.model in st'.cool.until
    requires c.cooledUntil.None? && c.reply.Answer? ==> FailureCount(st'.cool, c.model) == 0
    requires c.cooledUntil.None? && c.reply.Raised? ==>
      FailureCount(st'.cool, c.model) == FailureCount(st.cool, c.model) + if Retryable(c) then 1 else 0
    ensures Counted(st')
  {
    assert st'.calls[..|st.calls|] == st.calls;
    forall m ensures Streak(st'.calls, m) == if m in st'.cool.until then 0 else FailureCount(st'.cool, m) {
      assert Streak(st.calls, m) == if m in st.cool.until then 0 else FailureCount(st.cool, m);
    }
  }

  lemma LogKeepsEntered(cfg: Config, calls: seq<Call>, c: Call)
    requires CooldownEntered(cfg, calls)
    requires c.cooledUntil.Some? <==> Retryable(c) && Streak(calls, c.model) + 1 >= cfg.allowedFails
    requires c.cooledUntil.Some? ==> c.start + cfg.cooldownSeconds as real <= c.cooledUntil.value
    ensures CooldownEntered(cfg, calls + [c])
  {
    var all := calls + [c];
    assert all[..|calls|] == calls;
    forall i | 0 <= i < |calls| ensures all[..i] == calls[..i] && all[i] == calls[i] {
    }
  }

  lemma LogKeepsPromises(env: Env, st: RouterState, c: Call, st': RouterState)
    requires Held(env, st) && CooldownHonoured(st.calls) && c.model !in st.cool.until
    requires st'.calls == st.calls + [c] && st'.ticks >= st.ticks
    requires forall b :: b in st.calls && b.model == c.model && b.cooledUntil.Some? ==> b.cooledUntil.value <= c.start
    requires c.cooledUntil.Some? ==> c.model in st'.cool.until && st'.cool.until[c.model] == c.cooledUntil.value
    requires forall m :: m != c.model ==> (m in st'.cool.until <==> m in st.cool.until)
    requires forall m :: m != c.model && m in st.cool.until ==> st'.cool.until[m] == st.cool.until[m]
    ensures Held(env, st') && CooldownHonoured(st'.calls)
  {
    forall b | b in st'.calls ensures StillHeld(env, st', b) {
      if b in st.calls { assert StillHeld(env, st, b); }
    }
    forall i, j | 0 <= i < j < |st'.calls| && st'.calls[i].model == st'.calls[j].model && st'.calls[i].cooledUntil.Some?
      ensures st'.calls[i].cooledUntil.value <= st'.calls[j].start
    {
      assert st'.calls[i] == st.calls[i] && st.calls[i] in st.calls;
    }
  }

  lemma SettleKeepsInv(cfg: Config, env: Env, call: Call, st: RouterState)
    requires Monotone(env.clock) && Inv(cfg, env, st)
    requires call.chosen.name == call.model && call.cooledUntil.None? && call.model !in st.cool.until
    requires st.ticks > 0 && call.start == env.clock(st.ticks - 1)
    requires call.model in st.clients && call.served == st.clients[call.model]
    requires call.model in cfg.deployments && call.chosen in cfg.deployments[call.model]
    requires forall c :: c in st.calls && c.model == call.model && c.cooledUntil.Some? ==>
      c.cooledUntil.value <= call.start
    ensures Inv(cfg, env, Settle(cfg, env, call, st))
  {
    var c := SettledCall(cfg, env, call, st);
    var st' := Settle(cfg, env, call, st);
    LogKeepsCounts(st, c, st');
    LogKeepsEntered(cfg, st.calls, c);
    LogKeepsPromises(env, st, c, st');
  }

  /** A selected deployment is one of the model's, and the model has no cooldown on record then. */
  lemma SelectKeepsInv(cfg: Config, env: Env, model: string, st: RouterState)
    requires cfg.Valid() && Monotone(env.clock) && Inv(cfg, env, st)
    ensures var (selected, st1) := Select(cfg, env, model, st);
      && Inv(cfg, env, st1)
      && (selected.Some? ==>
            && model in cfg.deployments && selected.value in cfg.deployments[model]
            && selected.value.name == model && model !in st1.cool.until)
  {
    if model in cfg.deployments {
      var all := cfg.deployments[model];
      AvailableKeepsInv(cfg, env, model, all, st);
      var available := Available(env, all, st).0;
      if available != [] {
        assert available[env.pick(|st.calls|) % |available|] in available;
      }
    }
  }

  lemma CallingKeepsInv(cfg: Config, env: Env, d: Deployment, st: RouterState)
    requires Inv(cfg, env, st) && d.name !in st.cool.until
    requires d.name in cfg.deployments && d in cfg.deployments[d.name]
    ensures Inv(cfg, env, Calling(cfg, d, st))
    ensures forall c :: c in st.calls && c.model == d.name && c.cooledUntil.Some? ==>
      c.cooledUntil.value <= env.clock(st.ticks)
  {
    var st' := Calling(cfg, d, st);
    forall c | c in st.calls
      ensures StillHeld(env, st', c)
      ensures c.model == d.name && c.cooledUntil.Some? ==> c.cooledUntil.value <= env.clock(st.ticks)
    {
      assert StillHeld(env, st, c);
    }
    assert forall m :: FailureCount(st'.cool, m) == FailureCount(st.cool, m);
  }

  lemma AttemptKeepsInv(cfg: Config, env: Env, model: string, st: RouterState)
    requires cfg.Valid() && Monotone(env.clock) && Inv(cfg, env, st)
    ensures Inv(cfg, env, Attempt(cfg, env, model, st).1)
  {
    SelectKeepsInv(cfg, env, model, st);
    var (selected, st1) := Select(cfg, env, model, st);
    if selected.Some? {
      CallingKeepsInv(cfg, env, selected.value, st1);
      SettleKeepsInv(cfg, env, CallOf(cfg, env, model, selected.value, st1), Calling(cfg, selected.value, st1));
    }
  }

  lemma {:induction false} RetriesKeepInv(cfg: Config, env: Env, attempt: AttemptFn, left: nat, st: RouterState)
    requires forall s :: Inv(cfg, env, s) ==> Inv(cfg, env, attempt(s).1)
    requires Inv(cfg, env, st)
    ensures Inv(cfg, env, WithRetry(attempt, left, st).1)
  {
    var (reply, st1) := attempt(st);
    if !(reply.Answer? || left == 0 || !ShouldRetry(reply.error)) {
      RetriesKeepInv(cfg, env, attempt, left - 1, st1);
    }
  }

  lemma {:induction false} FallbacksKeepInv(
    cfg: Config, env: Env, providerFn: ProviderFn, models: seq<string>, st: RouterState)
    requires models != []
    requires forall m, s :: Inv(cfg, env, s) ==> Inv(cfg, env, providerFn(m, s).1)
    requires Inv(cfg, env, st)
    ensures Inv(cfg, env, WithFallbacks(providerFn, models, st).1)
    decreases |models|
  {
    var st0 := st.(tried := st.tried + [models[0]]);
    assert Inv(cfg, env, st0) by {
      forall c | c in st0.calls ensures StillHeld(env, st0, c) { assert StillHeld(env, st, c); }
    }
    var (reply, st1) := providerFn(models[0], st0);
    if !(reply.Answer? || Aborts(reply.error) || |models| == 1) {
      FallbacksKeepInv(cfg, env, providerFn, models[1..], st1);
    }
  }

  lemma RequestKeepsInv(cfg: Config, env: Env, model: string, st: RouterState)
    requires cfg.Valid() && Monotone(env.clock) && Inv(cfg, env, st)
    ensures Inv(cfg, env, Complete(cfg, env, model, st).1)
  {
    forall m, s | Inv(cfg, env, s) ensures Inv(cfg, env, Executing(cfg, env)(m, s).1) {
      forall s' | Inv(cfg, env, s') ensures Inv(cfg, env, Attempting(cfg, env, m)(s').1) {
        AttemptKeepsInv(cfg, env, m, s');
      }
      RetriesKeepInv(cfg, env, Attempting(cfg, env, m), cfg.maxRetries, s);
    }
    FallbacksKeepInv(cfg, env, Executing(cfg, env), cfg.ChainOf(model), st);
  }

  lemma {:induction false} RunKeepsInv(cfg: Config, env: Env, requests: seq<string>, st: RouterState)
    requires cfg.Valid() && Monotone(env.clock) && Inv(cfg, env, st)
    ensures Inv(cfg, env, Serve(cfg, env, requests, st))
  {
    if requests != [] {
      RequestKeepsInv(cfg, env, requests[0], st);
      RunKeepsInv(cfg, env, requests[1..], Complete(cfg, env, requests[0], st).1);
    }
  }

  /** Over any sequence of requests, in any environment with a monotonic clock: a cooldown starts
      with exactly the `allowedFails`-th retryable failure of a model in a row; the model is then
      not called before it ends, by whichever request and at whatever place of whichever chain;
      and all calls to a model are served by one client, that of the deployment
      first selected for it, even where the strategy chose another deployment. */
  lemma EveryRun(cfg: Config, env: Env, requests: seq<string>)
    requires cfg.Valid() && Monotone(env.clock)
    ensures CooldownHonoured(Serve(cfg, env, requests, START).calls)
    ensures CooldownEntered(cfg, Serve(cfg, env, requests, START).calls)
    ensures SameClientPerModel(Serve(cfg, env, requests, START).calls)
  {
    RunKeepsInv(cfg, env, requests, START);
    var st := Serve(cfg, env, requests, START);
    forall i, j | 0 <= i < j < |st.calls| && st.calls[i].model == st.calls[j].model
      ensures st.calls[i].served == st.calls[j].served
    {
      assert st.calls[i] in st.calls && st.calls[j] in st.calls;
    }
  }

  // ---------------------------------------------------------------------
  // Whose client serves a call
  // ---------------------------------------------------------------------

  /** Every call is served by the client of the deployment the strategy chose for it. */
  ghost predicate OwnClients(cfg: Config, calls: seq<Call>) {
    forall c :: c in calls ==> c.served == cfg.ClientOf(c.chosen)
  }

  ghost predicate AlwaysOwnClients(cfg: Config) {
    forall env: Env, requests: seq<string> :: Monotone(env.clock) ==>
      OwnClients(cfg, Serve(cfg, env, requests, START).calls)
  }

  predicate SameClient(cfg: Config, d: Deployment, e: Deployment) {
    && cfg.classOf(d.provider) == cfg.classOf(e.provider)
    && d.apiKey == e.apiKey && d.apiBase == e.apiBase && d.headers == e.headers
  }

  lemma SameClientExactly(cfg: Config, d: Deployment, e: Deployment)
    ensures SameClient(cfg, d, e) <==> cfg.ClientOf(d) == cfg.ClientOf(e)
  {
  }

  /** The deployments of a model differ at most in what plays no part in their client. */
  ghost predicate Interchangeable(cfg: Config, model: string)
    requires model in cfg.deployments
  {
    forall d, e :: d in cfg.deployments[model] && e in cfg.deployments[model] ==> SameClient(cfg, d, e)
  }

  /** A clock that stands still, a provider that always answers, and a strategy that picks `i` for the
      first call and `j` for every later one. */
  function TwoPicks(i: nat, j: nat): Env {
    Env(_ => 0.0, _ => Answer(0), k => if k == 0 then i else j)
  }

  lemma AnsweredAtOnce(cfg: Config, env: Env, model: string, st: RouterState)
    requires cfg.Valid() && model in cfg.deployments && st.cool == NONE
    requires env.reply(|st.calls|).Answer?
    ensures var all := cfg.deployments[model];
      var d := all[env.pick(|st.calls|) % |all|];
      var st' := Complete(cfg, env, model, st).1;
      && st'.calls == st.calls + [CallOf(cfg, env, model, d, st)]
      && st'.clients == Calling(cfg, d, st).clients && st'.cool == NONE
  {
    var st0 := st.(tried := st.tried + [model]);
    NoneCooling(env, model, cfg.deployments[model], st0);
    var all := cfg.deployments[model];
    assert all[env.pick(|st.calls|) % |all|] in all;
    assert Complete(cfg, env, model, st) == Attempt(cfg, env, model, st0);
    assert Forgotten(NONE, model) == NONE;
  }

  lemma ServeTwo(cfg: Config, env: Env, model: string, st: RouterState)
    ensures Serve(cfg, env, [model, model], st) ==
      Complete(cfg, env, model, Complete(cfg, env, model, st).1).1
  {
    var st1 := Complete(cfg, env, model, st).1;
    assert [model, model][1..] == [model] && [model][1..] == [];
    assert Serve(cfg, env, [model], st1) == Complete(cfg, env, model, st1).1;
  }

  /** The second of two answered requests is served by the client of the first deployment picked. */
  lemma AnsweredTwice(cfg: Config, env: Env, model: string)
    requires cfg.Valid() && model in cfg.deployments
    requires env.reply(0).Answer? && env.reply(1).Answer?
    ensures var all := cfg.deployments[model];
      var calls := Serve(cfg, env, [model, model], START).calls;
      && |calls| == 2 && calls[1].chosen == all[env.pick(1) % |all|]
      && calls[1].served == cfg.ClientOf(all[env.pick(0) % |all|])
  {
    AnsweredAtOnce(cfg, env, model, START);
    var st1 := Complete(cfg, env, model, START).1;
    assert |st1.calls| == 1;
    AnsweredAtOnce(cfg, env, model, st1);
    ServeTwo(cfg, env, model, START);
    var all := cfg.deployments[model];
    assert all[env.pick(0) % |all|].name == model && all[env.pick(1) % |all|].name == model;
  }

  lemma SmallModulus(i: nat, n: nat)
    requires i < n
    ensures i % n == i
  {
  }

  /** Two requests for the model are enough to serve one deployment by the client of another. */
  lemma WrongClient(cfg: Config, model: string, i: nat, j: nat)
    requires cfg.Valid() && model in cfg.deployments
    requires i < |cfg.deployments[model]| && j < |cfg.deployments[model]|
    requires cfg.ClientOf(cfg.deployments[model][i]) != cfg.ClientOf(cfg.deployments[model][j])
    ensures var calls := Serve(cfg, TwoPicks(i, j), [model, model], START).calls;
      && |calls| == 2 && calls[1].chosen == cfg.deployments[model][j]
      && calls[1].served == cfg.ClientOf(cfg.deployments[model][i]) != cfg.ClientOf(calls[1].chosen)
  {
    var env, n := TwoPicks(i, j), |cfg.deployments[model]|;
    SmallModulus(i, n);
    SmallModulus(j, n);
    assert env.pick(0) == i && env.pick(1) == j;
    AnsweredTwice(cfg, env, model);
  }

  lemma SharedIsOwn(cfg: Config, env: Env, requests: seq<string>)
    requires cfg.Valid() && Monotone(env.clock)
    requires forall m :: m in cfg.deployments ==> Interchangeable(cfg, m)
    ensures OwnClients(cfg, Serve(cfg, env, requests, START).calls)
  {
    RunKeepsInv(cfg, env, requests, START);
    var st := Serve(cfg, env, requests, START);
    forall c | c in st.calls ensures c.served == cfg.ClientOf(c.chosen) {
      assert ClientOfModel(cfg, c.model, st.clients[c.model]);
      var d :| d in cfg.deployments[c.model] && st.clients[c.model] == cfg.ClientOf(d);
      assert Interchangeable(cfg, c.model);
      SameClientExactly(cfg, d, c.chosen);
    }
  }

  /** In all runs every call is served by the client of its own deployment if and only if, for every
      model, all its deployments come to the same client. */
  lemma OwnClientsExactly(cfg: Config)
    requires cfg.Valid()
    ensures AlwaysOwnClients(cfg) <==> forall m :: m in cfg.deployments ==> Interchangeable(cfg, m)
  {
    if forall m :: m in cfg.deployments ==> Interchangeable(cfg, m) {
      forall env: Env, requests: seq<string> | Monotone(env.clock)
        ensures OwnClients(cfg, Serve(cfg, env, requests, START).calls)
      {
        SharedIsOwn(cfg, env, requests);
      }
    } else {
      var m :| m in cfg.deployments && !Interchangeable(cfg, m);
      var all := cfg.deployments[m];
      var i, j :| 0 <= i < |all| && 0 <= j < |all| && !SameClient(cfg, all[i], all[j]);
      SameClientExactly(cfg, all[i], all[j]);
      WrongClient(cfg, m, i, j);
      var calls := Serve(cfg, TwoPicks(i, j), [m, m], START).calls;
      assert calls[1] in calls;
      assert Monotone(TwoPicks(i, j).clock);
    }
  }
}
