/** Budget gating of router/budget.py: spend per budget and period, reset lazily by whoever looks
    first after the period has ended.  Providers and tags are budgeted by the same code. */
module Budget {

  datatype Period = Daily | Weekly | Monthly | Unlimited {
    function Seconds(): (s: real)
      requires !Unlimited?
      ensures s == 24.0 * 3600.0 * (match this case Daily => 1.0 case Weekly => 7.0 case Monthly => 30.0)
    {
      match this case Daily => 86400.0 case Weekly => 604800.0 case Monthly => 2592000.0
    }
  }

  datatype Config = Config(maxBudget: real, period: Period)

  /** One budget's spend, and when its period began. */
  datatype Account = Account(spend: real, start: real)

  function Current(cfg: Config, a: Account, now: real): Account {
    if cfg.period != Unlimited && now - a.start >= cfg.period.Seconds() then Account(0.0, now) else a
  }

  function Charged(cfg: Config, a: Account, cost: real, now: real): Account {
    if cost <= 0.0 then a else var c := Current(cfg, a, now); c.(spend := c.spend + cost)
  }

  datatype Check = Check(allowed: bool, spend: real, remaining: real, exceededBy: real)

  function Checked(cfg: Config, a: Account, now: real): Check {
    var c := Current(cfg, a, now);
    var remaining := cfg.maxBudget - c.spend;
    var exceeded := if remaining < 0.0 then -remaining else 0.0;
    Check(remaining > 0.0, c.spend, if remaining > 0.0 then remaining else 0.0, exceeded)
  }

  type Budgets = map<string, Config>

  type Accounts = map<string, Account>

  /** The account of a provider or tag; one that has none starts at `now`. */
  function AccountIn(states: Accounts, name: string, now: real): Account {
    if name in states then states[name] else Account(0.0, now)
  }

  /** What a look at one budget leaves behind. */
  function Looked(budgets: Budgets, states: Accounts, name: string, now: real): Accounts {
    if name in budgets then states[name := Current(budgets[name], AccountIn(states, name, now), now)] else states
  }

  function ChargedTo(budgets: Budgets, states: Accounts, name: string, cost: real, now: real): Accounts {
    if name in budgets then states[name := Charged(budgets[name], AccountIn(states, name, now), cost, now)] else states
  }

  /** A cost charged to every name of a list in turn. */
  function ChargedToAll(budgets: Budgets, states: Accounts, names: seq<string>, cost: real, now: real): Accounts {
    if names == [] then states
    else
      var n := |names| - 1;
      ChargedTo(budgets, ChargedToAll(budgets, states, names[..n], cost, now), names[n], cost, now)
  }

  /** A tag is charged once for every time it is listed, after one due reset; all other accounts stay
      as they are. */
  lemma {:induction false} ChargedPerMention(
    budgets: Budgets, states: Accounts, names: seq<string>, cost: real, now: real, name: string)
    requires cost > 0.0
    ensures var r := ChargedToAll(budgets, states, names, cost, now);
      if name !in budgets || name !in names then
        (name in r <==> name in states) && (name in r ==> r[name] == states[name])
      else
        var c := Current(budgets[name], AccountIn(states, name, now), now);
        name in r && r[name] == c.(spend := c.spend + Owed(cost, multiset(names)[name]))
  {
    if names != [] {
      var n := |names| - 1;
      assert names == names[..n] + [names[n]];
      ChargedPerMention(budgets, states, names[..n], cost, now, name);
    }
  }

  /** The answer of a check: without a budget yes, otherwise exactly while money remains. */
  function CheckOf(budgets: Budgets, states: Accounts, name: string, now: real): Check {
    if name in budgets then Checked(budgets[name], AccountIn(states, name, now), now) else Check(true, 0.0, 0.0, 0.0)
  }

  /** The first look after the end of a period begins the next one, with nothing spent, at the time of
      the look; any other look leaves the account as it is. */
  lemma LookLeaves(budgets: Budgets, states: Accounts, name: string, now: real)
    ensures var r := Looked(budgets, states, name, now);
      && (name !in budgets ==> r == states)
      && (name in budgets ==>
            var running := name in states && (budgets[name].period == Unlimited
                || now < states[name].start + budgets[name].period.Seconds());
            r == states[name := if running then states[name] else Account(0.0, now)])
  {
  }

  /** A look changes the answer of no other look at the same time. */
  lemma LookTwice(budgets: Budgets, states: Accounts, name: string, other: string, now: real)
    ensures CheckOf(budgets, Looked(budgets, states, name, now), other, now) == CheckOf(budgets, states, other, now)
  {
  }

  class ProviderBudgetManager {
    var budgets: Budgets
    var tagBudgets: Budgets
    var states: Accounts
    var tagStates: Accounts

    constructor (budgets: Budgets, tagBudgets: Budgets)
      ensures this.budgets == budgets && this.tagBudgets == tagBudgets && states == map[] && tagStates == map[]
    {
      this.budgets, this.tagBudgets, states, tagStates := budgets, tagBudgets, map[], map[];
    }

    /** The part of `record_spend` that is the same for a provider and a tag. */
    method Charge(cfg: Config, state: Account, cost: real, now: real) returns (state': Account)
      requires cost > 0.0
      ensures state' == Charged(cfg, state, cost, now)
    {
      state' := state;
      if cfg.period != Unlimited && now - state.start >= cfg.period.Seconds() {
        state' := Account(0.0, now);
      }
      state' := state'.(spend := state'.spend + cost);
    }

    method RecordSpend(provider: string, cost: real, tags: seq<string>, now: real)
      modifies this`states, this`tagStates
      ensures states == if cost > 0.0 then ChargedTo(budgets, old(states), provider, cost, now) else old(states)
      ensures tagStates ==
        if cost > 0.0 then ChargedToAll(tagBudgets, old(tagStates), tags, cost, now) else old(tagStates)
    {
      if cost <= 0.0 {
        return;
      }
      if provider in budgets {
        var state := if provider in states then states[provider] else Account(0.0, now);
        state := Charge(budgets[provider], state, cost, now);
        states := states[provider := state];
      }
      for i := 0 to |tags|
        invariant states == ChargedTo(budgets, old(states), provider, cost, now)
        invariant tagStates == ChargedToAll(tagBudgets, old(tagStates), tags[..i], cost, now)
      {
        assert tags[..i + 1][..i] == tags[..i];
        var tag := tags[i];
        if tag in tagBudgets {
          var state := if tag in tagStates then tagStates[tag] else Account(0.0, now);
          state := Charge(tagBudgets[tag], state, cost, now);
          tagStates := tagStates[tag := state];
        }
      }
      assert tags[..|tags|] == tags;
    }

    /** What the check of a budget computes from its settings and its account, after a due reset. */
    method CheckState(cfg: Config, state: Account, now: real) returns (r: Check, state': Account)
      ensures r == Checked(cfg, state, now) && state' == Current(cfg, state, now)
    {
      state' := state;
      if cfg.period != Unlimited && now - state.start >= cfg.period.Seconds() {
        state' := Account(0.0, now);
      }
      var remaining := cfg.maxBudget - state'.spend;
      var exceeded := if -remaining > 0.0 then -remaining else 0.0;
      r := Check(remaining > 0.0, state'.spend, if remaining > 0.0 then remaining else 0.0, exceeded);
    }

    method CheckProviderBudget(provider: string, now: real) returns (r: Check)
      modifies this`states
      ensures r == CheckOf(budgets, old(states), provider, now)
      ensures states == Looked(budgets, old(states), provider, now)
    {
      if provider !in budgets {
        return Check(true, 0.0, 0.0, 0.0);
      }
      var state := if provider in states then states[provider] else Account(0.0, now);
      r, state := CheckState(budgets[provider], state, now);
      states := states[provider := state];
    }

    method CheckTagBudget(tag: string, now: real) returns (r: Check)
      modifies this`tagStates
      ensures r == CheckOf(tagBudgets, old(tagStates), tag, now)
      ensures tagStates == Looked(tagBudgets, old(tagStates), tag, now)
    {
      if tag !in tagBudgets {
        return Check(true, 0.0, 0.0, 0.0);
      }
      var state := if tag in tagStates then tagStates[tag] else Account(0.0, now);
      r, state := CheckState(tagBudgets[tag], state, now);
      tagStates := tagStates[tag := state];
    }

    /** The providers, in order, that a check at this time allows.  The accounts of all of them, and of
        no others, have then been looked at. */
    method GetAvailableProviders(providers: seq<string>, now: real) returns (available: seq<string>)
      modifies this`states
      ensures available == Allowed(budgets, old(states), providers, now)
      ensures forall p :: p in states <==> p in old(states) || (p in providers && p in budgets)
      ensures forall p :: p in states && !(p in providers && p in budgets) ==> states[p] == old(states)[p]
      ensures forall p :: p in providers && p in budgets ==>
        states[p] == Current(budgets[p], AccountIn(old(states), p, now), now)
    {
      available := [];
      ghost var before := states;
      for i := 0 to |providers|
        invariant available == Allowed(budgets, before, providers[..i], now)
        invariant forall p :: CheckOf(budgets, states, p, now) == CheckOf(budgets, before, p, now)
        invariant forall p :: p in states <==> p in before || (p in providers[..i] && p in budgets)
        invariant forall p :: p in states && !(p in providers[..i] && p in budgets) ==> states[p] == before[p]
        invariant forall p :: p in providers[..i] && p in budgets ==>
          states[p] == Current(budgets[p], AccountIn(before, p, now), now)
      {
        assert providers[..i + 1] == providers[..i] + [providers[i]];
        ghost var last := states;
        var r := CheckProviderBudget(providers[i], now);
        forall p ensures CheckOf(budgets, states, p, now) == CheckOf(budgets, before, p, now) {
          LookTwice(budgets, last, providers[i], p, now);
          assert CheckOf(budgets, last, p, now) == CheckOf(budgets, before, p, now);
        }
        if r.allowed {
          available := available + [providers[i]];
        }
      }
      assert providers[..|providers|] == providers;
    }
  }

  function Allowed(budgets: Budgets, states: Accounts, providers: seq<string>, now: real): seq<string> {
    if providers == [] then []
    else
      var p := providers[|providers| - 1];
      Allowed(budgets, states, providers[..|providers| - 1], now)
      + if CheckOf(budgets, states, p, now).allowed then [p] else []
  }

  /** The available providers are those that a check allows, ... */
  lemma {:induction false} AllowedAre(budgets: Budgets, states: Accounts, providers: seq<string>, now: real)
    ensures forall p :: p in Allowed(budgets, states, providers, now) <==>
      p in providers && (p in budgets ==> CheckOf(budgets, states, p, now).remaining > 0.0)
    decreases |providers|
  {
    if providers != [] {
      var n := |providers| - 1;
      assert providers == providers[..n] + [providers[n]];
      AllowedAre(budgets, states, providers[..n], now);
    }
  }

  /** ... in the order given: those of the first `n` come first. */
  lemma {:induction false} AllowedInOrder(
    budgets: Budgets, states: Accounts, providers: seq<string>, now: real, n: nat)
    requires n <= |providers|
    ensures Allowed(budgets, states, providers[..n], now) <= Allowed(budgets, states, providers, now)
    decreases |providers|
  {
    if n < |providers| {
      var init := providers[..|providers| - 1];
      AllowedInOrder(budgets, states, init, now, n);
      assert init[..n] == providers[..n];
    } else {
      assert providers[..n] == providers;
    }
  }

  // ---------------------------------------------------------------------
  // Gated spending
  // ---------------------------------------------------------------------

  /** `Admit` is a request that asks before it runs and is let in; `Record` is the end of an admitted
      request, with its cost; `Query` is any other look at the budget. */
  datatype Step = Admit(now: real) | Record(cost: real, now: real) | Query(now: real)

  /** The account, the requests admitted and not yet recorded, and the positive costs recorded, with
      their times. */
  datatype Ledger = Ledger(account: Account, open: nat, costs: seq<(real, real)>)

  /** At most `k` requests are open at once, and each costs at most `c`. */
  ghost predicate Enabled(cfg: Config, k: nat, c: real, l: Ledger, step: Step) {
    match step
    case Admit(now) => Checked(cfg, l.account, now).allowed && l.open < k
    case Record(cost, now) => l.open > 0 && cost <= c
    case Query(now) => true
  }

  function Next(cfg: Config, l: Ledger, step: Step): Ledger
    requires step.Record? ==> l.open > 0
  {
    match step
    case Admit(now) => Ledger(Current(cfg, l.account, now), l.open + 1, l.costs)
    case Record(cost, now) =>
      Ledger(Charged(cfg, l.account, cost, now), l.open - 1, if cost > 0.0 then l.costs + [(now, cost)] else l.costs)
    case Query(now) => l.(account := Current(cfg, l.account, now))
  }

  ghost predicate Run(cfg: Config, k: nat, c: real, l: Ledger, steps: seq<Step>, t: Ledger)
    decreases |steps|
  {
    if steps == [] then l == t
    else Enabled(cfg, k, c, l, steps[0]) && Run(cfg, k, c, Next(cfg, l, steps[0]), steps[1..], t)
  }

  /** Times do not decrease along the steps, starting from `from`. */
  ghost predicate Timed(steps: seq<Step>, from: real) {
    steps != [] ==> from <= steps[0].now && Timed(steps[1..], steps[0].now)
  }

  /** What `n` requests of cost `c` come to. */
  function Owed(c: real, n: nat): real {
    if n == 0 then 0.0 else Owed(c, n - 1) + c
  }

  lemma {:induction false} OwedIsProduct(c: real, n: nat)
    ensures Owed(c, n) == c * n as real
  {
    if n > 0 { OwedIsProduct(c, n - 1); }
  }

  lemma {:induction false} OwedGrows(c: real, m: nat, n: nat)
    requires c >= 0.0 && m <= n
    ensures 0.0 <= Owed(c, m) <= Owed(c, n)
    decreases n
  {
    if m < n { OwedGrows(c, m, n - 1); } else if m > 0 { OwedGrows(c, m - 1, n - 1); }
  }

  /** What the open requests may still cost keeps the spend below the bound. */
  ghost predicate Bounded(cfg: Config, k: nat, c: real, l: Ledger) {
    l.open <= k && l.account.spend + Owed(c, l.open) < cfg.maxBudget + Owed(c, k)
  }

  lemma StepStaysBounded(cfg: Config, k: nat, c: real, l: Ledger, step: Step)
    requires cfg.maxBudget > 0.0 && c >= 0.0 && Bounded(cfg, k, c, l) && Enabled(cfg, k, c, l, step)
    ensures Bounded(cfg, k, c, Next(cfg, l, step))
  {
    OwedGrows(c, l.open, k);
    if step.Admit? {
      OwedGrows(c, l.open + 1, k);
    }
  }

  /** The overspend bound: with a positive budget, if every request is admitted only when the check
      allows it, at most `k` are open at once and each costs at most `c`, then the spend on
      record stays below `maxBudget + k * c`, in every period and however the requests overlap
      the ends of periods. */
  lemma {:induction false} OverspendBounded(cfg: Config, k: nat, c: real, l: Ledger, steps: seq<Step>, t: Ledger)
    requires cfg.maxBudget > 0.0 && c >= 0.0 && Bounded(cfg, k, c, l) && Run(cfg, k, c, l, steps, t)
    ensures t.account.spend < cfg.maxBudget + c * k as real
    decreases |steps|
  {
    if steps == [] {
      OwedGrows(c, l.open, k);
      OwedIsProduct(c, k);
    } else {
      StepStaysBounded(cfg, k, c, l, steps[0]);
      OverspendBounded(cfg, k, c, Next(cfg, l, steps[0]), steps[1..], t);
    }
  }

  // ---------------------------------------------------------------------
  // What the spend on record means
  // ---------------------------------------------------------------------

  /** The sum of the costs recorded at or after `from`. */
  ghost function SumSince(costs: seq<(real, real)>, from: real): real {
    if costs == [] then 0.0
    else
      var last := costs[|costs| - 1];
      SumSince(costs[..|costs| - 1], from) + if last.0 >= from then last.1 else 0.0
  }

  /** Costs recorded before the period began: all of them, when it begins now. */
  lemma {:induction false} NoneSince(costs: seq<(real, real)>, from: real)
    requires forall i :: 0 <= i < |costs| ==> costs[i].0 < from
    ensures SumSince(costs, from) == 0.0
  {
    if costs != [] {
      NoneSince(costs[..|costs| - 1], from);
    }
  }

  /** Every cost on record was recorded before the present period ends, and the spend is the sum of
      those recorded since it began. */
  ghost predicate Accounted(cfg: Config, l: Ledger) {
    && l.account.spend == SumSince(l.costs, l.account.start)
    && (cfg.period != Unlimited ==>
          forall i :: 0 <= i < |l.costs| ==> l.costs[i].0 < l.account.start + cfg.period.Seconds())
  }

  lemma LookStaysAccounted(cfg: Config, l: Ledger, now: real)
    requires Accounted(cfg, l) && l.account.start <= now
    ensures Accounted(cfg, l.(account := Current(cfg, l.account, now)))
    ensures Current(cfg, l.account, now).start <= now
  {
    if Current(cfg, l.account, now) != l.account {
      NoneSince(l.costs, now);
    }
  }

  /** A look at the account leaves it in a period that is not over: the same one, or one that begins
      now with nothing spent. */
  lemma PeriodIsCurrent(cfg: Config, a: Account, now: real)
    requires a.start <= now
    ensures var c := Current(cfg, a, now);
      && (cfg.period != Unlimited ==> now < c.start + cfg.period.Seconds())
      && (c == a || (c == Account(0.0, now) && cfg.period != Unlimited && a.start + cfg.period.Seconds() <= now))
  {
  }

  lemma CostAdded(cfg: Config, l: Ledger, open: nat, cost: real, now: real)
    requires Accounted(cfg, l) && l.account.start <= now
    requires cfg.period != Unlimited ==> now < l.account.start + cfg.period.Seconds()
    ensures Accounted(cfg, Ledger(l.account.(spend := l.account.spend + cost), open, l.costs + [(now, cost)]))
  {
    var costs := l.costs + [(now, cost)];
    assert costs[..|l.costs|] == l.costs;
  }

  lemma RecordStaysAccounted(cfg: Config, l: Ledger, open: nat, cost: real, now: real)
    requires Accounted(cfg, l) && l.account.start <= now && cost > 0.0
    ensures Accounted(cfg, Ledger(Charged(cfg, l.account, cost, now), open, l.costs + [(now, cost)]))
    ensures Charged(cfg, l.account, cost, now).start <= now
  {
    LookStaysAccounted(cfg, l, now);
    PeriodIsCurrent(cfg, l.account, now);
    CostAdded(cfg, l.(account := Current(cfg, l.account, now)), open, cost, now);
  }

  lemma StepStaysAccounted(cfg: Config, l: Ledger, step: Step)
    requires Accounted(cfg, l) && l.account.start <= step.now && (step.Record? ==> l.open > 0)
    ensures Accounted(cfg, Next(cfg, l, step)) && Next(cfg, l, step).account.start <= step.now
  {
    match step
    case Admit(now) => LookStaysAccounted(cfg, l, now);
    case Query(now) => LookStaysAccounted(cfg, l, now);
    case Record(cost, now) =>
      if cost > 0.0 {
        RecordStaysAccounted(cfg, l, l.open - 1, cost, now);
      }
  }

  /** In every run with a clock that does not go back, whatever `k` and `c` are: the spend on record
      is exactly the sum of the positive costs recorded since the period began, so that
      `AllowedExactly` says what a check answers at any point of any run. */
  lemma {:induction false} SpendIsSum(cfg: Config, k: nat, c: real, l: Ledger, steps: seq<Step>, t: Ledger)
    requires Accounted(cfg, l) && Timed(steps, l.account.start) && Run(cfg, k, c, l, steps, t)
    ensures t.account.spend == SumSince(t.costs, t.account.start)
    ensures Accounted(cfg, t)
    decreases |steps|
  {
    if steps != [] {
      StepStaysAccounted(cfg, l, steps[0]);
      TimedFrom(steps[1..], steps[0].now, Next(cfg, l, steps[0]).account.start);
      SpendIsSum(cfg, k, c, Next(cfg, l, steps[0]), steps[1..], t);
    }
  }

  lemma TimedFrom(steps: seq<Step>, from: real, earlier: real)
    requires Timed(steps, from) && earlier <= from
    ensures Timed(steps, earlier)
  {
  }

  /** So a check allows a request exactly when the positive costs recorded in the current period come
      to less than the budget. */
  lemma AllowedExactly(cfg: Config, l: Ledger, now: real)
    requires Accounted(cfg, l) && l.account.start <= now
    ensures var spent := SumSince(l.costs, Current(cfg, l.account, now).start);
      var r := Checked(cfg, l.account, now);
      && (r.allowed <==> spent < cfg.maxBudget) && r.spend == spent
      && r.remaining == (if spent < cfg.maxBudget then cfg.maxBudget - spent else 0.0)
      && r.exceededBy == (if spent > cfg.maxBudget then spent - cfg.maxBudget else 0.0)
  {
    LookStaysAccounted(cfg, l, now);
  }

  // ---------------------------------------------------------------------
  // Runs of the manager
  // ---------------------------------------------------------------------

  /** A cost is recorded for a provider, or somebody asks about its budget. */
  datatype Deal = Spend(provider: string, cost: real, now: real) | Ask(provider: string, now: real)

  /** A positive cost, with whom and when. */
  datatype Cost = Cost(provider: string, now: real, cost: real)

  datatype Book = Book(states: Accounts, costs: seq<Cost>)

  function Dealt(budgets: Budgets, b: Book, d: Deal): Book {
    match d
    case Spend(p, cost, now) =>
      if cost > 0.0 then Book(ChargedTo(budgets, b.states, p, cost, now), b.costs + [Cost(p, now, cost)]) else b
    case Ask(p, now) => b.(states := Looked(budgets, b.states, p, now))
  }

  function AfterDeals(budgets: Budgets, b: Book, ds: seq<Deal>): Book
    decreases |ds|
  {
    if ds == [] then b else AfterDeals(budgets, Dealt(budgets, b, ds[0]), ds[1..])
  }

  ghost predicate InTime(ds: seq<Deal>, from: real) {
    ds != [] ==> from <= ds[0].now && InTime(ds[1..], ds[0].now)
  }

  /** The costs of one provider, with their times. */
  ghost function CostsOf(costs: seq<Cost>, p: string): seq<(real, real)> {
    if costs == [] then []
    else
      var last := costs[|costs| - 1];
      CostsOf(costs[..|costs| - 1], p) + if last.provider == p then [(last.now, last.cost)] else []
  }

  lemma CostsOfMore(costs: seq<Cost>, c: Cost, p: string)
    ensures CostsOf(costs + [c], p) == CostsOf(costs, p) + if c.provider == p then [(c.now, c.cost)] else []
  {
    assert (costs + [c])[..|costs|] == costs;
  }

  /** The account of every budgeted provider says what was recorded for it. */
  ghost predicate Kept(budgets: Budgets, b: Book, now: real) {
    forall p :: p in budgets ==> KeptFor(budgets[p], b, p, now)
  }

  ghost predicate KeptFor(cfg: Config, b: Book, p: string, now: real) {
    if p in b.states then b.states[p].start <= now && Accounted(cfg, Ledger(b.states[p], 0, CostsOf(b.costs, p)))
    else CostsOf(b.costs, p) == []
  }

  lemma DealKeeps(budgets: Budgets, b: Book, d: Deal, p: string, from: real)
    requires p in budgets && KeptFor(budgets[p], b, p, from) && from <= d.now
    ensures KeptFor(budgets[p], Dealt(budgets, b, d), p, d.now)
  {
    var l := Ledger(AccountIn(b.states, p, d.now), 0, CostsOf(b.costs, p));
    if d.provider == p {
      LookStaysAccounted(budgets[p], l, d.now);
    }
    if d.Spend? && d.cost > 0.0 {
      CostsOfMore(b.costs, Cost(d.provider, d.now, d.cost), p);
      if d.provider == p {
        RecordStaysAccounted(budgets[p], l, 0, d.cost, d.now);
      } else {
        assert l.costs + [] == l.costs;
      }
    }
  }

  /** Gating over any run of the manager in the order of its times, for any number of providers: a check
      allows a provider without a budget always, and one with a budget exactly while the positive
      costs recorded for it since its period began come to less than that. */
  lemma {:induction false} GatesExactly(budgets: Budgets, b: Book, ds: seq<Deal>, from: real, p: string, now: real)
    requires Kept(budgets, b, from) && InTime(ds, from) && (if ds == [] then from else ds[|ds| - 1].now) <= now
    ensures Kept(budgets, Book(map[], []), from)
    ensures var t := AfterDeals(budgets, b, ds);
      && (p !in budgets ==> CheckOf(budgets, t.states, p, now).allowed)
      && (p in budgets ==>
            var start := Current(budgets[p], AccountIn(t.states, p, now), now).start;
            var spent := SumSince(CostsOf(t.costs, p), start);
            var r := CheckOf(budgets, t.states, p, now);
            && (r.allowed <==> spent < budgets[p].maxBudget) && r.spend == spent
            && r.remaining == (if spent < budgets[p].maxBudget then budgets[p].maxBudget - spent else 0.0)
            && r.exceededBy == (if spent > budgets[p].maxBudget then spent - budgets[p].maxBudget else 0.0))
    decreases |ds|
  {
    if ds != [] {
      var b1 := Dealt(budgets, b, ds[0]);
      forall q | q in budgets ensures KeptFor(budgets[q], b1, q, ds[0].now) {
        DealKeeps(budgets, b, ds[0], q, from);
      }
      GatesExactly(budgets, b1, ds[1..], ds[0].now, p, now);
    } else if p in budgets {
      assert KeptFor(budgets[p], b, p, from);
      var l := Ledger(AccountIn(b.states, p, now), 0, CostsOf(b.costs, p));
      AllowedExactly(budgets[p], l, now);
    }
  }
}
