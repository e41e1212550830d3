/** `RequestQueue` of core/resilience/request_queue.py: a bounded FIFO buffer whose items expire. */
module RequestQueue {
  import opened Subsequences
  import opened Wrappers

  datatype Item = Item(id: nat, enqueuedAt: real, ttl: real)

  predicate IsExpired(i: Item, now: real) {
    now - i.enqueuedAt > i.ttl
  }

  datatype Config = Config(maxSize: nat, defaultTtl: real, batchSize: nat, enabled: bool)

  /** `Invalid`: the item model refuses a negative time to live. */
  datatype Answer = Queued(item: Item) | Full | Disabled | Invalid

  /** `cleared` counts what `clear` dropped; no counter of the queue records it. */
  datatype Queue = Queue(items: seq<Item>, enqueued: nat, drained: nat, expired: nat, rejected: nat, cleared: nat)

  const EMPTY := Queue([], 0, 0, 0, 0, 0)

  // ---------------------------------------------------------------------
  // The operations
  // ---------------------------------------------------------------------

  function Offered(cfg: Config, q: Queue, id: nat, ttl: Option<real>, now: real): (Answer, Queue) {
    var effective := if ttl.Some? && ttl.value != 0.0 then ttl.value else cfg.defaultTtl;
    if !cfg.enabled then (Disabled, q)
    else if effective <= 0.0 then (Invalid, q)
    else if |q.items| >= cfg.maxSize then (Full, q.(rejected := q.rejected + 1))
    else
      var item := Item(id, now, effective);
      (Queued(item), q.(items := q.items + [item], enqueued := q.enqueued + 1))
  }

  /** What becomes of an offer: a queue that is switched off takes nothing; no time to live, or one of
      zero, means the default, and a negative one is invalid; a full queue rejects and counts; and
      otherwise the item waits behind all others. */
  lemma OfferedExactly(cfg: Config, q: Queue, id: nat, ttl: Option<real>, now: real)
    requires cfg.defaultTtl > 0.0
    ensures var (answer, q1) := Offered(cfg, q, id, ttl, now);
      && (!cfg.enabled ==> answer == Disabled && q1 == q)
      && (cfg.enabled ==> (answer == Invalid <==> ttl.Some? && ttl.value < 0.0) && (answer == Invalid ==> q1 == q))
      && (answer == Full ==> |q.items| >= cfg.maxSize && q1 == q.(rejected := q.rejected + 1))
      && (answer.Queued? ==>
            && |q.items| < cfg.maxSize && answer.item.id == id && answer.item.enqueuedAt == now
            && (ttl.Some? && ttl.value != 0.0 ==> answer.item.ttl == ttl.value)
            && (ttl.None? || ttl.value == 0.0 ==> answer.item.ttl == cfg.defaultTtl)
            && q1 == q.(items := q.items + [answer.item], enqueued := q.enqueued + 1))
      && (cfg.enabled && answer != Invalid ==> answer == Full || answer.Queued?)
  {
  }

  /** The loop of `drain`: items are popped until `limit` live ones are found; the k-th item popped
      is judged at time `clock(k)`. */
  function Popped(q: Queue, limit: int, clock: nat -> real, k: nat): (seq<Item>, Queue)
    decreases |q.items|
  {
    if limit <= 0 || q.items == [] then ([], q)
    else
      var item := q.items[0];
      if IsExpired(item, clock(k)) then
        Popped(q.(items := q.items[1..], expired := q.expired + 1), limit, clock, k + 1)
      else
        var (rest, q1) := Popped(q.(items := q.items[1..], drained := q.drained + 1), limit - 1, clock, k + 1);
        ([item] + rest, q1)
  }

  /** No limit, or a limit of zero, means the configured batch size. */
  function Limit(cfg: Config, maxItems: Option<int>): int {
    if maxItems.Some? && maxItems.value != 0 then maxItems.value else cfg.batchSize
  }

  /** The items that are live when they are popped, the first at reading `k` of the clock. */
  function Live(items: seq<Item>, clock: nat -> real, k: nat): (r: seq<Item>)
    ensures |r| <= |items|
  {
    if items == [] then []
    else if clock(k) - items[0].enqueuedAt > items[0].ttl then Live(items[1..], clock, k + 1)
    else [items[0]] + Live(items[1..], clock, k + 1)
  }

  /** What `drain` promises: the first `n` items leave the queue; the live ones among them are
      returned, in order, and the expired ones are dropped; never more than the limit, fewer only
      if the queue is exhausted; and it stops as soon as it has enough. */
  ghost predicate IsDrain(q: Queue, limit: int, clock: nat -> real, k: nat, n: nat, r: seq<Item>, q1: Queue) {
    && n <= |q.items| && r == Live(q.items[..n], clock, k)
    && |r| <= (if limit > 0 then limit else 0)
    && (|r| < limit ==> n == |q.items|)
    && (n > 0 && |r| == limit ==> clock(k + n - 1) - q.items[n - 1].enqueuedAt <= q.items[n - 1].ttl)
    && q1 == q.(items := q.items[n..], drained := q.drained + |r|, expired := q.expired + n - |r|)
  }

  lemma ExpiredPopped(q: Queue, limit: int, clock: nat -> real, k: nat, m: nat, r: seq<Item>, q1: Queue)
    requires q.items != [] && limit > 0 && IsExpired(q.items[0], clock(k))
    requires IsDrain(q.(items := q.items[1..], expired := q.expired + 1), limit, clock, k + 1, m, r, q1)
    ensures IsDrain(q, limit, clock, k, m + 1, r, q1)
  {
    assert q.items[..m + 1][1..] == q.items[1..][..m];
  }

  lemma LivePopped(q: Queue, limit: int, clock: nat -> real, k: nat, m: nat, r: seq<Item>, q1: Queue)
    requires q.items != [] && limit > 0 && !IsExpired(q.items[0], clock(k))
    requires IsDrain(q.(items := q.items[1..], drained := q.drained + 1), limit - 1, clock, k + 1, m, r, q1)
    ensures IsDrain(q, limit, clock, k, m + 1, [q.items[0]] + r, q1)
  {
    assert q.items[..m + 1][1..] == q.items[1..][..m];
    if m > 0 { assert q.items[1..][m - 1] == q.items[m]; }
  }

  lemma NothingPopped(q: Queue, limit: int, clock: nat -> real, k: nat)
    requires limit <= 0 || q.items == []
    ensures IsDrain(q, limit, clock, k, 0, [], q)
  {
    assert q.(items := q.items[0..], drained := q.drained + 0, expired := q.expired + 0 - 0) == q;
  }

  lemma {:induction false} DrainsFirstLive(q: Queue, limit: int, clock: nat -> real, k: nat, r: seq<Item>, q1: Queue)
    returns (n: nat)
    requires (r, q1) == Popped(q, limit, clock, k)
    ensures IsDrain(q, limit, clock, k, n, r, q1)
    decreases |q.items|
  {
    if limit <= 0 || q.items == [] {
      NothingPopped(q, limit, clock, k);
      n := 0;
    } else if IsExpired(q.items[0], clock(k)) {
      var m := DrainsFirstLive(q.(items := q.items[1..], expired := q.expired + 1), limit, clock, k + 1, r, q1);
      ExpiredPopped(q, limit, clock, k, m, r, q1);
      n := m + 1;
    } else {
      assert r == [q.items[0]] + r[1..];
      var rest := q.(items := q.items[1..], drained := q.drained + 1);
      var m := DrainsFirstLive(rest, limit - 1, clock, k + 1, r[1..], q1);
      LivePopped(q, limit, clock, k, m, r[1..], q1);
      n := m + 1;
    }
  }

  /** `drain_all` leaves nothing behind and returns every live item. */
  lemma DrainAllEmpties(q: Queue, clock: nat -> real)
    ensures var (r, q1) := Popped(q, |q.items| + 1, clock, 0);
      q1.items == [] && r == Live(q.items, clock, 0)
  {
    var (r, q1) := Popped(q, |q.items| + 1, clock, 0);
    var n := DrainsFirstLive(q, |q.items| + 1, clock, 0, r, q1);
    assert q.items[..|q.items|] == q.items;
  }

  class RequestQueue {
    const cfg: Config
    var items: seq<Item>
    var totalEnqueued: nat
    var totalDrained: nat
    var totalExpired: nat
    var totalRejected: nat
    ghost var cleared: nat

    ghost function State(): Queue
      reads this
    {
      Queue(items, totalEnqueued, totalDrained, totalExpired, totalRejected, cleared)
    }

    constructor (cfg: Config)
      ensures this.cfg == cfg && State() == EMPTY
    {
      this.cfg := cfg;
      items, totalEnqueued, totalDrained, totalExpired, totalRejected, cleared := [], 0, 0, 0, 0, 0;
    }

    method Enqueue(id: nat, ttl: Option<real>, now: real) returns (answer: Answer)
      modifies this
      ensures (answer, State()) == Offered(cfg, old(State()), id, ttl, now)
    {
      if !cfg.enabled {
        return Disabled;
      }
      var effective := if ttl.Some? && ttl.value != 0.0 then ttl.value else cfg.defaultTtl;
      if effective <= 0.0 {
        return Invalid;
      }
      if |items| >= cfg.maxSize {
        totalRejected := totalRejected + 1;
        return Full;
      }
      var item := Item(id, now, effective);
      items := items + [item];
      totalEnqueued := totalEnqueued + 1;
      return Queued(item);
    }

    method Drain(maxItems: Option<int>, clock: nat -> real) returns (results: seq<Item>)
      modifies this
      ensures maxItems.None? || maxItems == Some(0) ==>
        (results, State()) == Popped(old(State()), cfg.batchSize, clock, 0)
      ensures maxItems.Some? && maxItems != Some(0) ==>
        (results, State()) == Popped(old(State()), maxItems.value, clock, 0)
    {
      var limit := Limit(cfg, maxItems);
      results := [];
      var k := 0;
      while |results| < limit && items != []
        invariant results + Popped(State(), limit - |results|, clock, k).0 == Popped(old(State()), limit, clock, 0).0
        invariant Popped(State(), limit - |results|, clock, k).1 == Popped(old(State()), limit, clock, 0).1
        decreases |items|
      {
        var item := items[0];
        items := items[1..];
        if IsExpired(item, clock(k)) {
          totalExpired := totalExpired + 1;
        } else {
          results := results + [item];
          totalDrained := totalDrained + 1;
        }
        k := k + 1;
      }
      assert results + [] == results;
    }

    method DrainAll(clock: nat -> real) returns (results: seq<Item>)
      modifies this
      ensures (results, State()) == Popped(old(State()), |old(items)| + 1, clock, 0)
    {
      results := Drain(Some(|items| + 1), clock);
    }

    method Clear() returns (dropped: nat)
      modifies this
      ensures dropped == |old(items)|
      ensures State() == old(State()).(items := [], cleared := old(cleared) + dropped)
    {
      dropped := 0;
      while items != []
        invariant dropped + |items| == |old(items)|
        invariant State() == old(State()).(items := items)
        decreases |items|
      {
        items := items[1..];
        dropped := dropped + 1;
      }
      cleared := cleared + dropped;
    }
  }

  // ---------------------------------------------------------------------
  // Whole runs
  // ---------------------------------------------------------------------

  datatype Step = Offer(id: nat, ttl: Option<real>, now: real) | Drain(limit: int, clock: nat -> real) | Clear

  /** The queue, with everything it has accepted and everything it has handed out. */
  datatype History = History(q: Queue, accepted: seq<Item>, handedOut: seq<Item>)

  const START := History(EMPTY, [], [])

  function Next(cfg: Config, h: History, s: Step): History {
    match s
    case Offer(id, ttl, now) =>
      var (answer, q) := Offered(cfg, h.q, id, ttl, now);
      History(q, if answer.Queued? then h.accepted + [answer.item] else h.accepted, h.handedOut)
    case Drain(limit, clock) =>
      var (r, q) := Popped(h.q, limit, clock, 0);
      History(q, h.accepted, h.handedOut + r)
    case Clear => h.(q := h.q.(items := [], cleared := h.q.cleared + |h.q.items|))
  }

  function After(cfg: Config, h: History, steps: seq<Step>): History
    decreases |steps|
  {
    if steps == [] then h else After(cfg, Next(cfg, h, steps[0]), steps[1..])
  }

  /** Bounded depth, conservation, and order: what was handed out, followed by what still waits, is
      what was accepted with some items struck out. */
  ghost predicate Inv(cfg: Config, h: History) {
    && |h.q.items| <= cfg.maxSize
    && h.q.enqueued == h.q.drained + h.q.expired + h.q.cleared + |h.q.items|
    && h.q.enqueued == |h.accepted| && h.q.drained == |h.handedOut|
    && IsSubseq(h.handedOut + h.q.items, h.accepted)
  }

  lemma {:induction false} LiveIsSubseq(items: seq<Item>, clock: nat -> real, k: nat)
    ensures IsSubseq(Live(items, clock, k), items)
  {
    if items != [] {
      LiveIsSubseq(items[1..], clock, k + 1);
    }
  }

  lemma DrainKeepsOrder(out: seq<Item>, items: seq<Item>, accepted: seq<Item>, n: nat, clock: nat -> real)
    requires n <= |items| && IsSubseq(out + items, accepted)
    ensures IsSubseq(out + Live(items[..n], clock, 0) + items[n..], accepted)
  {
    LiveIsSubseq(items[..n], clock, 0);
    SubseqOfSelf(out);
    SubseqOfSelf(items[n..]);
    SubseqJoined(out, out, Live(items[..n], clock, 0), items[..n]);
    SubseqJoined(out + Live(items[..n], clock, 0), out + items[..n], items[n..], items[n..]);
    assert out + items[..n] + items[n..] == out + items;
    SubseqTransitive(out + Live(items[..n], clock, 0) + items[n..], out + items, accepted);
  }

  lemma StepKeepsInv(cfg: Config, h: History, s: Step)
    requires Inv(cfg, h)
    ensures Inv(cfg, Next(cfg, h, s))
  {
    match s
    case Offer(id, ttl, now) =>
      var t := Next(cfg, h, s);
      if t.accepted != h.accepted {
        var item := t.accepted[|h.accepted|];
        SubseqSnoc(h.handedOut + h.q.items, h.accepted, item);
        assert h.handedOut + h.q.items + [item] == t.handedOut + t.q.items;
      }
    case Drain(limit, clock) =>
      var (r, q) := Popped(h.q, limit, clock, 0);
      var n := DrainsFirstLive(h.q, limit, clock, 0, r, q);
      DrainKeepsOrder(h.handedOut, h.q.items, h.accepted, n, clock);
    case Clear =>
      SubseqOfSelf(h.handedOut);
      assert IsSubseq([], h.q.items);
      SubseqJoined(h.handedOut, h.handedOut, [], h.q.items);
      SubseqTransitive(h.handedOut + [], h.handedOut + h.q.items, h.accepted);
  }

  /** Over every run: the depth never exceeds the limit; every accepted item is drained, expired,
      cleared or still waiting; and items are handed out in the order they were accepted, none
      twice and none that was not accepted. */
  lemma {:induction false} EveryRun(cfg: Config, h: History, steps: seq<Step>)
    requires Inv(cfg, h)
    ensures Inv(cfg, START) && Inv(cfg, After(cfg, h, steps))
    decreases |steps|
  {
    if steps != [] {
      StepKeepsInv(cfg, h, steps[0]);
      EveryRun(cfg, Next(cfg, h, steps[0]), steps[1..]);
    }
  }
}
