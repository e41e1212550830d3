/** The dispatch protocol of router/router.py, router/retry.py and router/fallback.py: a fallback
    chain around a retry loop around the selection of a deployment, filtered by cooldown.

    Everything the router does not decide itself is a function the theorems quantify over: the
    reading of the monotonic clock at each look, the outcome of each provider call, and the
    deployment the load-balancing strategy picks for each call. */
module Router {
  import opened Cooldown
  import opened Wrappers

  // ---------------------------------------------------------------------
  // Errors and the retry policy
  // ---------------------------------------------------------------------

  /** The exception classes the policy tells apart.  A subclass counts as its base class, and
      `NetworkError` stands for the timeout and network errors of the HTTP client. */
  datatype Error =
    | AuthenticationError
    | BadRequestError
    | ModelNotFoundError
    | RateLimitError
    | ServiceUnavailableError
    | ProviderError(status: int)
    | NetworkError
    | OtherError

  datatype Reply = Answer(body: int) | Raised(error: Error)

  const RETRYABLE_STATUS_CODES := {429, 500, 502, 503, 504}

  predicate ShouldRetry(e: Error) {
    match e
    case AuthenticationError | BadRequestError | ModelNotFoundError => false
    case RateLimitError | ServiceUnavailableError => true
    case ProviderError(status) => status in RETRYABLE_STATUS_CODES
    case NetworkError => true
    case OtherError => false
  }

  /** The errors that end a fallback chain at once. */
  predicate Aborts(e: Error) {
    e.AuthenticationError? || e.BadRequestError? || e.ModelNotFoundError?
  }

  /** The policy retries when there is hope that the same call succeeds later; the errors that end a
      chain are never retried. */
  lemma ErrorClasses(e: Error)
    ensures ShouldRetry(e) <==>
      || e in {RateLimitError, ServiceUnavailableError, NetworkError}
      || (e.ProviderError? && (e.status == 429 || e.status == 500 || 502 <= e.status <= 504))
    ensures Aborts(e) <==> e in {AuthenticationError, BadRequestError, ModelNotFoundError}
    ensures !(ShouldRetry(e) && Aborts(e))
  {
  }

  // ---------------------------------------------------------------------
  // Configuration, environment and state
  // ---------------------------------------------------------------------

  type Headers = map<string, string>

  datatype Deployment = Deployment(
    name: string, provider: string, providerModel: string,
    apiKey: Option<string>, apiBase: Option<string>, headers: Headers)

  /** A provider client is what it is built from: a class, credentials, an address and headers. */
  datatype Client = Client(cls: string, apiKey: Option<string>, apiBase: Option<string>, headers: Headers)

  type Fallbacks = map<string, seq<string>>

  function FallbacksOf(fallbacks: Fallbacks, model: string): seq<string> {
    if model in fallbacks then fallbacks[model] else []
  }

  /** `classOf` is the lookup of the class registered for a provider name. */
  datatype Config = Config(
    deployments: map<string, seq<Deployment>>,
    fallbacks: Fallbacks,
    classOf: string -> string,
    maxRetries: nat,
    allowedFails: int,
    cooldownSeconds: int)
  {
    /** What `_build_registry` guarantees: a deployment carries the model name it is filed under. */
    ghost predicate Valid() {
      forall m :: m in deployments ==> |deployments[m]| > 0 && forall d :: d in deployments[m] ==> d.name == m
    }

    function ChainOf(model: string): (chain: seq<string>)
      ensures chain != [] && chain[0] == model
    {
      [model] + FallbacksOf(fallbacks, model)
    }

    /** The client built for a deployment. */
    function ClientOf(d: Deployment): Client {
      Client(classOf(d.provider), d.apiKey, d.apiBase, d.headers)
    }
  }

  /** `clock(i)` is the i-th reading of the clock, `reply(k)` the outcome of the k-th provider
      call, `pick(k)` the strategy's choice for it. */
  datatype Env = Env(clock: nat -> real, reply: nat -> Reply, pick: nat -> nat)

  ghost predicate Monotone(clock: nat -> real) {
    forall i, j :: i <= j ==> clock(i) <= clock(j)
  }

  /** One provider call: the deployment selected, the client that served it, when it started, by the
      `tick`-th reading of the clock, and the end of the cooldown its failure started, if it did. */
  datatype Call = Call(
    model: string, chosen: Deployment, served: Client, tick: nat, start: real, reply: Reply,
    cooledUntil: Option<real>)

  /** `tried` logs the models the fallback chain hands to the provider function. */
  datatype RouterState = RouterState(
    cool: Cooldowns, clients: map<string, Client>, ticks: nat, calls: seq<Call>, tried: seq<string>)

  const START := RouterState(NONE, map[], 0, [], [])

  // ---------------------------------------------------------------------
  // The protocol, step by step
  // ---------------------------------------------------------------------

  /** `is_in_cooldown`; the clock is read only for an id with a cooldown on record. */
  function Cooling(env: Env, id: string, st: RouterState): (bool, RouterState) {
    if id !in st.cool.until then (false, st)
    else
      var (cooling, cool) := Queried(st.cool, id, env.clock(st.ticks));
      (cooling, st.(cool := cool, ticks := st.ticks + 1))
  }

  /** `get_deployments`: each deployment is asked about in turn, at its own time. */
  function Available(env: Env, all: seq<Deployment>, st: RouterState): (seq<Deployment>, RouterState)
  {
    if all == [] then ([], st)
    else
      var (cooling, st1) := Cooling(env, all[0].name, st);
      var (rest, st2) := Available(env, all[1..], st1);
      (if cooling then rest else [all[0]] + rest, st2)
  }

  function Select(cfg: Config, env: Env, model: string, st: RouterState): (Option<Deployment>, RouterState)
  {
    if model !in cfg.deployments then (None, st)
    else
      var (available, st1) := Available(env, cfg.deployments[model], st);
      if available == [] then (None, st1)
      else (Some(available[env.pick(|st.calls|) % |available|]), st1)
  }

  /** The bookkeeping after the provider has replied to `call`. */
  function Settle(cfg: Config, env: Env, call: Call, st: RouterState): RouterState {
    var id := call.chosen.name;
    if call.reply.Answer? then
      st.(cool := Forgotten(st.cool, id), calls := st.calls + [call])
    else if !ShouldRetry(call.reply.error) then
      st.(calls := st.calls + [call])
    else if FailureCount(st.cool, id) + 1 >= cfg.allowedFails then
      var cool := Failed(st.cool, id, cfg.allowedFails, cfg.cooldownSeconds, env.clock(st.ticks));
      st.(cool := cool, ticks := st.ticks + 1, calls := st.calls + [call.(cooledUntil := Some(cool.until[id]))])
    else
      st.(cool := Failed(st.cool, id, cfg.allowedFails, cfg.cooldownSeconds, 0.0), calls := st.calls + [call])
  }

  /** The client for a deployment: one is cached per deployment name, which is the model name. */
  function ClientFor(cfg: Config, clients: map<string, Client>, d: Deployment): Client {
    if d.name in clients then clients[d.name] else cfg.ClientOf(d)
  }

  /** The call made when `d` has been selected; its reply is the environment's. */
  function CallOf(cfg: Config, env: Env, model: string, d: Deployment, st: RouterState): Call {
    Call(model, d, ClientFor(cfg, st.clients, d), st.ticks, env.clock(st.ticks), env.reply(|st.calls|), None)
  }

  /** The state while that call is under way. */
  function Calling(cfg: Config, d: Deployment, st: RouterState): RouterState {
    st.(ticks := st.ticks + 1, clients := st.clients[d.name := ClientFor(cfg, st.clients, d)])
  }

  /** One attempt of `_execute_with_retry`. */
  function Attempt(cfg: Config, env: Env, model: string, st: RouterState): (Reply, RouterState) {
    var (selected, st1) := Select(cfg, env, model, st);
    if selected.None? then (Raised(ModelNotFoundError), st1)
    else
      var call := CallOf(cfg, env, model, selected.value, st1);
      (call.reply, Settle(cfg, env, call, Calling(cfg, selected.value, st1)))
  }

  type AttemptFn = RouterState -> (Reply, RouterState)

  type ProviderFn = (string, RouterState) -> (Reply, RouterState)

  /** `with_retry`: up to `left` more attempts after the first. */
  function WithRetry(attempt: AttemptFn, left: nat, st: RouterState): (Reply, RouterState) {
    var (reply, st1) := attempt(st);
    if reply.Answer? || left == 0 || !ShouldRetry(reply.error) then (reply, st1)
    else WithRetry(attempt, left - 1, st1)
  }

  function Attempting(cfg: Config, env: Env, model: string): AttemptFn {
    st => Attempt(cfg, env, model, st)
  }

  /** `_execute_with_retry`, the provider function of a chain. */
  function Execute(cfg: Config, env: Env, model: string, st: RouterState): (Reply, RouterState) {
    WithRetry(Attempting(cfg, env, model), cfg.maxRetries, st)
  }

  function Executing(cfg: Config, env: Env): ProviderFn {
    (model, st) => Execute(cfg, env, model, st)
  }

  /** `execute_with_fallbacks`. */
  function WithFallbacks(providerFn: ProviderFn, models: seq<string>, st: RouterState): (Reply, RouterState)
    requires models != []
    decreases |models|
  {
    var (reply, st1) := providerFn(models[0], st.(tried := st.tried + [models[0]]));
    if reply.Answer? || Aborts(reply.error) || |models| == 1 then (reply, st1)
    else WithFallbacks(providerFn, models[1..], st1)
  }

  /** `chat_completion`. */
  function Complete(cfg: Config, env: Env, model: string, st: RouterState): (Reply, RouterState) {
    WithFallbacks(Executing(cfg, env), cfg.ChainOf(model), st)
  }

  /** A whole run: chat completions one after the other. */
  function Serve(cfg: Config, env: Env, requests: seq<string>, st: RouterState): RouterState {
    if requests == [] then st
    else Serve(cfg, env, requests[1..], Complete(cfg, env, requests[0], st).1)
  }

  // ---------------------------------------------------------------------
  // The registry
  // ---------------------------------------------------------------------

  /** One `model_list` entry of the configuration file. */
  datatype Entry = Entry(
    modelName: string, providerModel: string, apiKey: Option<string>, apiBase: Option<string>, headers: Headers)

  const ENVIRON_PREFIX := "os.environ/"

  /** A key that refers to an environment variable stands for its value, if it has one. */
  function ResolvedKey(environ: map<string, string>, key: Option<string>): Option<string> {
    if key.Some? && ENVIRON_PREFIX <= key.value then
      var name := key.value[|ENVIRON_PREFIX|..];
      if name in environ then Some(environ[name]) else None
    else key
  }

  /** The part of `s` before its first slash, when there is one. */
  function BeforeSlash(s: string): (r: Option<string>)
    ensures r.Some? <==> '/' in s
    ensures r.Some? ==> '/' !in r.value && r.value + "/" <= s
  {
    if s == "" then None
    else if s[0] == '/' then Some("")
    else
      match BeforeSlash(s[1..])
      case None => None
      case Some(rest) => Some([s[0]] + rest)
  }

  type Registry = map<string, seq<Deployment>>

  function DeploymentOf(e: Entry, provider: string, apiKey: Option<string>): Deployment {
    Deployment(e.modelName, provider, e.providerModel, apiKey, e.apiBase, e.headers)
  }

  function Filed(deployments: Registry, d: Deployment): Registry {
    deployments[d.name := (if d.name in deployments then deployments[d.name] else []) + [d]]
  }

  function WithEntry(environ: map<string, string>, deployments: Registry, e: Entry): Registry {
    match BeforeSlash(e.providerModel)
    case None => deployments
    case Some(provider) => Filed(deployments, DeploymentOf(e, provider, ResolvedKey(environ, e.apiKey)))
  }

  function RegistryOf(environ: map<string, string>, entries: seq<Entry>): Registry {
    if entries == [] then map[]
    else WithEntry(environ, RegistryOf(environ, entries[..|entries| - 1]), entries[|entries| - 1])
  }

  /** Some entry of the model names its provider by a slash. */
  ghost predicate HasEntry(entries: seq<Entry>, model: string) {
    exists i :: 0 <= i < |entries| && entries[i].modelName == model && '/' in entries[i].providerModel
  }

  lemma HasEntrySnoc(entries: seq<Entry>, e: Entry, model: string)
    ensures HasEntry(entries + [e], model) <==>
      HasEntry(entries, model) || (e.modelName == model && '/' in e.providerModel)
  {
    var all := entries + [e];
    assert all[|entries|] == e;
    if HasEntry(entries, model) {
      var i :| 0 <= i < |entries| && entries[i].modelName == model && '/' in entries[i].providerModel;
      assert all[i] == entries[i];
    }
  }

  lemma EntryKeepsValid(environ: map<string, string>, e: Entry, before: Config, after: Config)
    requires before.Valid() && after.deployments == WithEntry(environ, before.deployments, e)
    ensures after.Valid()
    ensures forall m :: m in after.deployments <==>
      m in before.deployments || (e.modelName == m && '/' in e.providerModel)
  {
  }

  /** Every registry the router builds files each deployment under its own name, and knows exactly
      the models that have an entry with a slash. */
  lemma {:induction false} RegistryIsValid(environ: map<string, string>, entries: seq<Entry>, cfg: Config)
    requires cfg.deployments == RegistryOf(environ, entries)
    ensures cfg.Valid()
    ensures forall m :: m in cfg.deployments <==> HasEntry(entries, m)
  {
    if entries != [] {
      var init, last := entries[..|entries| - 1], entries[|entries| - 1];
      var before := cfg.(deployments := RegistryOf(environ, init));
      RegistryIsValid(environ, init, before);
      EntryKeepsValid(environ, last, before, cfg);
      assert entries == init + [last];
      forall m ensures m in cfg.deployments <==> HasEntry(entries, m) {
        HasEntrySnoc(init, last, m);
        assert m in before.deployments <==> HasEntry(init, m);
      }
    }
  }

  /** The entries of a model that name their provider by a slash, in order. */
  function EntriesOf(entries: seq<Entry>, model: string): seq<Entry> {
    if entries == [] then []
    else
      var last := entries[|entries| - 1];
      EntriesOf(entries[..|entries| - 1], model)
      + if last.modelName == model && '/' in last.providerModel then [last] else []
  }

  /** The deployment is what the entry describes: its provider is what comes before the first slash, and
      a key that names an environment variable stands for its value. */
  ghost predicate Describes(environ: map<string, string>, e: Entry, d: Deployment) {
    && d.name == e.modelName && d.providerModel == e.providerModel && d.apiBase == e.apiBase && d.headers == e.headers
    && d.provider + "/" <= e.providerModel && '/' !in d.provider
    && (forall name :: e.apiKey == Some(ENVIRON_PREFIX + name) ==>
          d.apiKey == if name in environ then Some(environ[name]) else None)
    && (e.apiKey.None? || !(ENVIRON_PREFIX <= e.apiKey.value) ==> d.apiKey == e.apiKey)
  }

  ghost predicate DescribeAll(environ: map<string, string>, entries: seq<Entry>, deployments: seq<Deployment>) {
    |entries| == |deployments| && forall k :: 0 <= k < |entries| ==> Describes(environ, entries[k], deployments[k])
  }

  lemma KeyIsResolved(environ: map<string, string>, e: Entry, provider: string)
    requires provider + "/" <= e.providerModel && '/' !in provider
    ensures Describes(environ, e, DeploymentOf(e, provider, ResolvedKey(environ, e.apiKey)))
  {
    forall name | e.apiKey == Some(ENVIRON_PREFIX + name)
      ensures ResolvedKey(environ, e.apiKey) == if name in environ then Some(environ[name]) else None
    {
      assert e.apiKey.value[|ENVIRON_PREFIX|..] == name;
    }
  }

  /** The deployments of a model are those its entries describe, in the order of the entries. */
  lemma {:induction false} RegistryLists(environ: map<string, string>, entries: seq<Entry>, model: string)
    ensures var r := RegistryOf(environ, entries);
      DescribeAll(environ, EntriesOf(entries, model), if model in r then r[model] else [])
  {
    if entries != [] {
      var last := entries[|entries| - 1];
      RegistryLists(environ, entries[..|entries| - 1], model);
      var provider := BeforeSlash(last.providerModel);
      if provider.Some? {
        KeyIsResolved(environ, last, provider.value);
        var before := RegistryOf(environ, entries[..|entries| - 1]);
        DescribeMore(
          environ, EntriesOf(entries[..|entries| - 1], model), if model in before then before[model] else [],
          last, DeploymentOf(last, provider.value, ResolvedKey(environ, last.apiKey)));
      }
    }
  }

  lemma DescribeMore(environ: map<string, string>, es: seq<Entry>, ds: seq<Deployment>, e: Entry, d: Deployment)
    requires DescribeAll(environ, es, ds) && Describes(environ, e, d)
    ensures DescribeAll(environ, es + [e], ds + [d])
  {
  }

  /** The environment variables are a parameter. */
  method BuildRegistry(environ: map<string, string>, entries: seq<Entry>) returns (deployments: Registry)
    ensures deployments == RegistryOf(environ, entries)
  {
    deployments := map[];
    for i := 0 to |entries|
      invariant deployments == RegistryOf(environ, entries[..i])
    {
      assert entries[..i + 1][..i] == entries[..i];
      var provider := BeforeSlash(entries[i].providerModel);
      if provider.Some? {
        var e := entries[i];
        if e.modelName !in deployments {
          deployments := deployments[e.modelName := []];
        }
        var key := ResolvedKey(environ, e.apiKey);
        var d := Deployment(e.modelName, provider.value, e.providerModel, key, e.apiBase, e.headers);
        deployments := deployments[e.modelName := deployments[e.modelName] + [d]];
      }
    }
    assert entries[..|entries|] == entries;
  }

  /** The end of `_build_registry`: the fallbacks of the configuration come after those the router was
      given. */
  method MergeFallbacks(given: Fallbacks, configured: Fallbacks) returns (merged: Fallbacks)
    ensures merged.Keys == given.Keys + configured.Keys
    ensures forall m :: m in merged ==> merged[m] == FallbacksOf(given, m) + FallbacksOf(configured, m)
  {
    merged := given;
    var todo := configured.Keys;
    while todo != {}
      invariant todo <= configured.Keys && merged.Keys == given.Keys + (configured.Keys - todo)
      invariant forall m :: m in merged ==>
        merged[m] == FallbacksOf(given, m) + if m in todo then [] else FallbacksOf(configured, m)
      decreases todo
    {
      var m :| m in todo;
      merged := merged[m := FallbacksOf(merged, m) + configured[m]];
      todo := todo - {m};
    }
  }

  // ---------------------------------------------------------------------
  // The router itself
  // ---------------------------------------------------------------------

  class Router {
    const cfg: Config
    const env: Env
    const cooldown: CooldownManager
    var clients: map<string, Client>
    // the environment's side of the run so far
    var ticks: nat
    var calls: seq<Call>
    var tried: seq<string>

    ghost predicate Wired()
      reads this
    {
      cooldown.allowedFails == cfg.allowedFails && cooldown.cooldownSeconds == cfg.cooldownSeconds
    }

    ghost function State(): RouterState
      reads this, cooldown
    {
      RouterState(cooldown.State(), clients, ticks, calls, tried)
    }

    constructor (cfg: Config, env: Env)
      ensures this.cfg == cfg && this.env == env && fresh(cooldown) && Wired()
      ensures State() == START
    {
      this.cfg, this.env := cfg, env;
      cooldown := new CooldownManager(cfg.allowedFails, cfg.cooldownSeconds);
      clients, ticks, calls, tried := map[], 0, [], [];
    }

    method Now() returns (t: real)
      modifies this`ticks
      ensures t == env.clock(old(ticks)) && ticks == old(ticks) + 1
    {
      t := env.clock(ticks);
      ticks := ticks + 1;
    }

    method IsCooling(id: string) returns (cooling: bool)
      requires Wired()
      modifies this`ticks, cooldown
      ensures (cooling, State()) == Cooling(env, id, old(State()))
    {
      if id !in cooldown.cooldownUntil {
        return false;
      }
      var now := Now();
      cooling := cooldown.IsInCooldown(id, now);
    }

    method GetDeployments(all: seq<Deployment>) returns (available: seq<Deployment>)
      requires Wired()
      modifies this`ticks, cooldown
      ensures (available, State()) == Available(env, all, old(State()))
    {
      available := [];
      for i := 0 to |all|
        invariant available + Available(env, all[i..], State()).0 == Available(env, all, old(State())).0
        invariant Available(env, all[i..], State()).1 == Available(env, all, old(State())).1
      {
        assert all[i..][0] == all[i] && all[i..][1..] == all[i + 1..];
        var cooling := IsCooling(all[i].name);
        if !cooling {
          available := available + [all[i]];
        }
      }
      assert all[|all|..] == [] && available + [] == available;
    }

    method SelectDeployment(model: string) returns (selected: Option<Deployment>)
      requires Wired()
      modifies this`ticks, cooldown
      ensures (selected, State()) == Select(cfg, env, model, old(State()))
    {
      if model !in cfg.deployments {
        return None;
      }
      var available := GetDeployments(cfg.deployments[model]);
      if available == [] {
        return None;
      }
      return Some(available[env.pick(|calls|) % |available|]);
    }

    method MakeProvider(d: Deployment) returns (client: Client)
      modifies this`clients
      ensures client == ClientFor(cfg, old(clients), d) && clients == old(clients)[d.name := client]
    {
      if d.name in clients {
        return clients[d.name];
      }
      client := cfg.ClientOf(d);
      clients := clients[d.name := client];
    }

    /** The part of an attempt after the provider has replied. */
    method RecordOutcome(call: Call)
      requires Wired()
      modifies this`ticks, this`calls, cooldown
      ensures State() == Settle(cfg, env, call, old(State()))
    {
      var logged := call;
      var id := call.chosen.name;
      if call.reply.Answer? {
        cooldown.RecordSuccess(id);
      } else if ShouldRetry(call.reply.error) {
        var now := 0.0;
        if (if id in cooldown.failures then cooldown.failures[id] else 0) + 1 >= cfg.allowedFails {
          now := Now();
        }
        cooldown.RecordFailure(id, now);
        if cooldown.failures[id] >= cfg.allowedFails {
          logged := logged.(cooledUntil := Some(cooldown.cooldownUntil[id]));
        }
      }
      calls := calls + [logged];
    }

    method AttemptOnce(model: string) returns (reply: Reply)
      requires Wired()
      modifies this, cooldown
      ensures (reply, State()) == Attempting(cfg, env, model)(old(State()))
    {
      var selected := SelectDeployment(model);
      if selected.None? {
        return Raised(ModelNotFoundError);
      }
      var start := Now();
      var client := MakeProvider(selected.value);
      reply := env.reply(|calls|);
      RecordOutcome(Call(model, selected.value, client, ticks - 1, start, reply, None));
    }

    method ExecuteWithRetry(model: string) returns (reply: Reply)
      requires Wired()
      modifies this, cooldown
      ensures (reply, State()) == Execute(cfg, env, model, old(State()))
    {
      reply := Raised(OtherError);
      var attempt := 0;
      while attempt <= cfg.maxRetries
        invariant attempt <= cfg.maxRetries
        invariant WithRetry(Attempting(cfg, env, model), cfg.maxRetries - attempt, State())
          == Execute(cfg, env, model, old(State()))
        decreases cfg.maxRetries - attempt
      {
        reply := AttemptOnce(model);
        if reply.Answer? || attempt >= cfg.maxRetries || !ShouldRetry(reply.error) {
          return;
        }
        attempt := attempt + 1;
      }
    }

    method ChatCompletion(model: string) returns (reply: Reply)
      requires Wired()
      modifies this, cooldown
      ensures (reply, State()) == Complete(cfg, env, model, old(State()))
    {
      var models := cfg.ChainOf(model);
      reply := Raised(OtherError);
      var i := 0;
      while i < |models|
        invariant i < |models|
        invariant WithFallbacks(Executing(cfg, env), models[i..], State()) == Complete(cfg, env, model, old(State()))
        decreases |models| - i
      {
        tried := tried + [models[i]];
        reply := ExecuteWithRetry(models[i]);
        if reply.Answer? || Aborts(reply.error) || i == |models| - 1 {
          return;
        }
        i := i + 1;
      }
    }
  }
}
