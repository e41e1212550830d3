/** `WebhookDelivery` of observability/webhooks.py: events accumulate in a queue, a flush cuts the
    whole queue off as one batch, and every batch is posted with retries.  Flushes overlap: while
    one waits for a reply, events are queued and further batches are cut and posted. */
module Webhooks {

  type Event = int

  /** What a post returns: a status code, or an error of the HTTP client. */
  datatype Outcome = Status(code: int) | HttpError

  datatype Config = Config(batchSize: nat, maxRetries: nat)

  datatype Verdict = Delivered | Rejected | Inconclusive

  function Judge(o: Outcome): Verdict {
    match o
    case HttpError => Inconclusive
    case Status(code) =>
      if code < 300 then Delivered
      else if 400 <= code < 500 && code != 429 then Rejected
      else Inconclusive
  }

  datatype Counters = Counters(delivered: nat, failed: nat, retried: nat)

  /** One post of a batch of `size` events has returned; `posts` were made before it.  The answer says
      whether the batch is settled. */
  function Posted(max: nat, posts: nat, size: nat, c: Counters, o: Outcome): (bool, Counters) {
    match Judge(o)
    case Delivered => (true, c.(delivered := c.delivered + size))
    case Rejected => (true, c.(failed := c.failed + size))
    case Inconclusive =>
      var tried := c.(retried := c.retried + 1);
      if posts + 1 >= max then (true, tried.(failed := tried.failed + size)) else (false, tried)
  }

  /** The retry loop of one batch from its `posts`-th post on: the number of posts made in all, and
      the counters after them.  `reply(k)` is the outcome of the k-th post. */
  function Deliver(max: nat, posts: nat, size: nat, c: Counters, reply: nat -> Outcome): (nat, Counters)
    requires posts <= max
    decreases max - posts
  {
    if posts == max then (max, c.(failed := c.failed + size))
    else
      match Judge(reply(posts))
      case Delivered => (posts + 1, c.(delivered := c.delivered + size))
      case Rejected => (posts + 1, c.(failed := c.failed + size))
      case Inconclusive => Deliver(max, posts + 1, size, c.(retried := c.retried + 1), reply)
  }

  predicate Succeeds(o: Outcome) {
    o.Status? && o.code < 300
  }

  /** The receiver refuses the batch for good; 429 only asks to come back later. */
  predicate Refuses(o: Outcome) {
    o.Status? && 400 <= o.code < 500 && o.code != 429
  }

  /** The first post to settle the matter, among those the retries allow. */
  ghost predicate IsDecisive(max: nat, reply: nat -> Outcome, k: nat) {
    && k < max && (Succeeds(reply(k)) || Refuses(reply(k)))
    && forall j :: 0 <= j < k ==> !Succeeds(reply(j)) && !Refuses(reply(j))
  }

  /** A batch is delivered exactly when a success comes within the retries and before any client
      error; otherwise it counts as failed, whole.  No post follows a decisive one, and every post
      before it counts as retried. */
  lemma {:induction false} DeliveredExactly(max: nat, posts: nat, size: nat, c: Counters, reply: nat -> Outcome)
    requires posts <= max && forall j :: 0 <= j < posts ==> !Succeeds(reply(j)) && !Refuses(reply(j))
    ensures var (made, r) := Deliver(max, posts, size, c, reply);
      && made <= max
      && (r == c.(delivered := c.delivered + size, retried := r.retried)
          || r == c.(failed := c.failed + size, retried := r.retried))
      && (size > 0 ==> (r.delivered > c.delivered <==>
            exists k: nat :: IsDecisive(max, reply, k) && Succeeds(reply(k))))
      && (forall k: nat :: IsDecisive(max, reply, k) ==> made == k + 1 && r.retried == c.retried + k - posts)
      && ((forall k: nat :: !IsDecisive(max, reply, k)) ==> made == max && r.retried == c.retried + max - posts)
    decreases max - posts
  {
    if posts < max {
      if Judge(reply(posts)) == Inconclusive {
        DeliveredExactly(max, posts + 1, size, c.(retried := c.retried + 1), reply);
      } else {
        assert IsDecisive(max, reply, posts);
        forall k: nat | IsDecisive(max, reply, k) ensures k == posts {
          assert k < posts ==> !Succeeds(reply(k)) && !Refuses(reply(k));
        }
      }
    }
  }

  /** The loop is a sequence of single posts, which is how overlapping flushes interleave it. */
  lemma DeliverIsPosts(max: nat, posts: nat, size: nat, c: Counters, reply: nat -> Outcome)
    requires posts < max
    ensures var (settled, c1) := Posted(max, posts, size, c, reply(posts));
      Deliver(max, posts, size, c, reply) ==
        if settled then (posts + 1, c1) else Deliver(max, posts + 1, size, c1, reply)
  {
  }

  class WebhookDelivery {
    const cfg: Config
    var queue: seq<Event>
    var totalDelivered: nat
    var totalFailed: nat
    var totalRetried: nat

    constructor (cfg: Config)
      ensures this.cfg == cfg && queue == [] && Totals() == Counters(0, 0, 0)
    {
      this.cfg := cfg;
      queue, totalDelivered, totalFailed, totalRetried := [], 0, 0, 0;
    }

    ghost function Totals(): Counters
      reads this
    {
      Counters(totalDelivered, totalFailed, totalRetried)
    }

    /** The locked part of `enqueue`; the answer says whether the caller has to flush. */
    method Append(e: Event) returns (shouldFlush: bool)
      modifies this`queue
      ensures queue == old(queue) + [e]
      ensures shouldFlush <==> |queue| >= cfg.batchSize
    {
      queue := queue + [e];
      shouldFlush := |queue| >= cfg.batchSize;
    }

    /** The locked part of `flush`: the whole queue becomes one batch. */
    method CutBatch() returns (batch: seq<Event>)
      modifies this`queue
      ensures batch == old(queue) && queue == []
    {
      batch := queue;
      queue := [];
    }

    /** `_deliver`; without a client it drops the batch. */
    method DeliverBatch(batch: seq<Event>, client: bool, reply: nat -> Outcome) returns (posts: nat)
      modifies this`totalDelivered, this`totalFailed, this`totalRetried
      ensures client ==> (posts, Totals()) == Deliver(cfg.maxRetries, 0, |batch|, old(Totals()), reply)
      ensures !client ==> posts == 0 && Totals() == old(Totals())
    {
      posts := 0;
      if !client {
        return;
      }
      while posts < cfg.maxRetries
        invariant posts <= cfg.maxRetries
        invariant Deliver(cfg.maxRetries, posts, |batch|, Totals(), reply)
          == Deliver(cfg.maxRetries, 0, |batch|, old(Totals()), reply)
      {
        var verdict := Judge(reply(posts));
        posts := posts + 1;
        if verdict == Delivered {
          totalDelivered := totalDelivered + |batch|;
          return;
        }
        if verdict == Rejected {
          totalFailed := totalFailed + |batch|;
          return;
        }
        totalRetried := totalRetried + 1;
      }
      totalFailed := totalFailed + |batch|;
    }
  }

  // ---------------------------------------------------------------------
  // Overlapping flushes
  // ---------------------------------------------------------------------

  /** `Dropped`: there was no client to post the batch with. */
  datatype Fate = Flying | Arrived | Lost | Dropped

  datatype Batch = Batch(events: seq<Event>, posts: nat, fate: Fate)

  /** The delivery object, with every batch it has ever cut, in order. */
  datatype System = System(queue: seq<Event>, batches: seq<Batch>, totals: Counters)

  const START := System([], [], Counters(0, 0, 0))

  /** `Flush(client)`: a flush, with or without a client present. */
  datatype Step = Enqueue(e: Event) | Flush(client: bool) | Reply(batch: nat, outcome: Outcome)

  ghost predicate Enabled(s: System, step: Step) {
    step.Reply? ==> step.batch < |s.batches| && s.batches[step.batch].fate == Flying
  }

  /** What becomes of a batch when a post of it returns. */
  function FateOf(o: Outcome, settled: bool): Fate {
    if !settled then Flying else if Judge(o) == Delivered then Arrived else Lost
  }

  function Next(cfg: Config, s: System, step: Step): System
    requires Enabled(s, step)
  {
    match step
    case Enqueue(e) => s.(queue := s.queue + [e])
    case Flush(client) =>
      if s.queue == [] then s
      else if !client then s.(queue := [], batches := s.batches + [Batch(s.queue, 0, Dropped)])
      else if cfg.maxRetries == 0 then
        System([], s.batches + [Batch(s.queue, 0, Lost)], s.totals.(failed := s.totals.failed + |s.queue|))
      else s.(queue := [], batches := s.batches + [Batch(s.queue, 0, Flying)])
    case Reply(i, o) =>
      var b := s.batches[i];
      var (settled, totals) := Posted(cfg.maxRetries, b.posts, |b.events|, s.totals, o);
      s.(batches := s.batches[i := Batch(b.events, b.posts + 1, FateOf(o, settled))], totals := totals)
  }

  /** A flush cuts the whole queue off as the last batch, and leaves all batches before it alone; with an
      empty queue it does nothing. */
  lemma FlushCutsAll(cfg: Config, s: System, client: bool)
    ensures var t := Next(cfg, s, Flush(client));
      if s.queue == [] then t == s
      else
        && t.queue == [] && |t.batches| == |s.batches| + 1 && t.batches[..|s.batches|] == s.batches
        && t.batches[|s.batches|].events == s.queue && t.batches[|s.batches|].posts == 0
        && (t.batches[|s.batches|].fate == Flying <==> client && cfg.maxRetries > 0)
  {
  }

  ghost predicate Run(cfg: Config, s: System, steps: seq<Step>, t: System)
    decreases |steps|
  {
    if steps == [] then s == t
    else Enabled(s, steps[0]) && Run(cfg, Next(cfg, s, steps[0]), steps[1..], t)
  }

  function Enqueued(steps: seq<Step>): seq<Event> {
    if steps == [] then []
    else if steps[0].Enqueue? then [steps[0].e] + Enqueued(steps[1..])
    else Enqueued(steps[1..])
  }

  /** The batches written one after the other. */
  function Spelled(batches: seq<Batch>): seq<Event> {
    if batches == [] then [] else Spelled(batches[..|batches| - 1]) + batches[|batches| - 1].events
  }

  /** The events in batches of a given fate. */
  function Count(batches: seq<Batch>, fate: Fate): nat {
    if batches == [] then 0
    else
      var b := batches[|batches| - 1];
      Count(batches[..|batches| - 1], fate) + if b.fate == fate then |b.events| else 0
  }

  lemma {:induction false} CountUpdated(batches: seq<Batch>, i: nat, b: Batch, fate: Fate)
    requires i < |batches|
    ensures Count(batches[i := b], fate) ==
      Count(batches, fate) - (if batches[i].fate == fate then |batches[i].events| else 0)
      + if b.fate == fate then |b.events| else 0
  {
    var n := |batches| - 1;
    if i == n {
      assert batches[i := b][..n] == batches[..n];
    } else {
      assert batches[i := b][..n] == batches[..n][i := b];
      CountUpdated(batches[..n], i, b, fate);
    }
  }

  lemma {:induction false} SpelledUpdated(batches: seq<Batch>, i: nat, b: Batch)
    requires i < |batches| && b.events == batches[i].events
    ensures Spelled(batches[i := b]) == Spelled(batches)
  {
    var n := |batches| - 1;
    if i == n {
      assert batches[i := b][..n] == batches[..n];
    } else {
      assert batches[i := b][..n] == batches[..n][i := b];
      SpelledUpdated(batches[..n], i, b);
    }
  }

  lemma {:induction false} SpelledLength(batches: seq<Batch>)
    ensures |Spelled(batches)| ==
      Count(batches, Flying) + Count(batches, Arrived) + Count(batches, Lost) + Count(batches, Dropped)
  {
    if batches != [] {
      SpelledLength(batches[..|batches| - 1]);
    }
  }

  ghost predicate Inv(cfg: Config, s: System) {
    && s.totals.delivered == Count(s.batches, Arrived)
    && s.totals.failed == Count(s.batches, Lost)
    && BatchesFit(cfg, s.batches)
  }

  ghost predicate BatchesFit(cfg: Config, batches: seq<Batch>) {
    forall i :: 0 <= i < |batches| ==> BatchFits(cfg, batches[i])
  }

  ghost predicate BatchFits(cfg: Config, b: Batch) {
    b.events != [] && b.posts <= cfg.maxRetries && (b.fate == Flying ==> b.posts < cfg.maxRetries)
  }

  lemma ReplyKeepsInv(cfg: Config, s: System, i: nat, o: Outcome)
    requires Inv(cfg, s) && Enabled(s, Reply(i, o))
    ensures Inv(cfg, Next(cfg, s, Reply(i, o)))
    ensures Spelled(Next(cfg, s, Reply(i, o)).batches) == Spelled(s.batches)
    ensures Count(Next(cfg, s, Reply(i, o)).batches, Dropped) == Count(s.batches, Dropped)
  {
    var b := Next(cfg, s, Reply(i, o)).batches[i];
    SpelledUpdated(s.batches, i, b);
    CountUpdated(s.batches, i, b, Arrived);
    CountUpdated(s.batches, i, b, Lost);
    CountUpdated(s.batches, i, b, Dropped);
    assert BatchFits(cfg, s.batches[i]) && BatchFits(cfg, b);
  }

  lemma BatchAdded(batches: seq<Batch>, b: Batch)
    ensures Spelled(batches + [b]) == Spelled(batches) + b.events
    ensures Count(batches + [b], Arrived) == Count(batches, Arrived) + if b.fate == Arrived then |b.events| else 0
    ensures Count(batches + [b], Lost) == Count(batches, Lost) + if b.fate == Lost then |b.events| else 0
    ensures Count(batches + [b], Dropped) == Count(batches, Dropped) + if b.fate == Dropped then |b.events| else 0
  {
    assert (batches + [b])[..|batches|] == batches;
  }

  /** A batch is cut: it flies, or counts as lost at once when no post is allowed. */
  lemma CutKeepsInv(cfg: Config, s: System, b: Batch, totals: Counters)
    requires Inv(cfg, s) && BatchFits(cfg, b) && b.events == s.queue
    requires totals.delivered == s.totals.delivered + if b.fate == Arrived then |b.events| else 0
    requires totals.failed == s.totals.failed + if b.fate == Lost then |b.events| else 0
    ensures Inv(cfg, System([], s.batches + [b], totals))
    ensures Spelled(s.batches + [b]) + [] == Spelled(s.batches) + s.queue
    ensures Count(s.batches + [b], Dropped) == Count(s.batches, Dropped) + if b.fate == Dropped then |b.events| else 0
  {
    BatchAdded(s.batches, b);
    var batches := s.batches + [b];
    forall i | 0 <= i < |batches| ensures BatchFits(cfg, batches[i]) {
      if i < |s.batches| { assert batches[i] == s.batches[i]; }
    }
  }

  lemma StepKeepsInv(cfg: Config, s: System, step: Step)
    requires Inv(cfg, s) && Enabled(s, step)
    ensures Inv(cfg, Next(cfg, s, step))
    ensures var t := Next(cfg, s, step);
      Spelled(t.batches) + t.queue == Spelled(s.batches) + s.queue + if step.Enqueue? then [step.e] else []
    ensures Count(Next(cfg, s, step).batches, Dropped) ==
      Count(s.batches, Dropped) + if step == Flush(false) then |s.queue| else 0
  {
    match step
    case Enqueue(e) =>
      assert Spelled(s.batches) + (s.queue + [e]) == Spelled(s.batches) + s.queue + [e];
    case Flush(client) =>
      if s.queue == [] {
        assert Next(cfg, s, step) == s;
      } else if !client {
        CutKeepsInv(cfg, s, Batch(s.queue, 0, Dropped), s.totals);
      } else if cfg.maxRetries == 0 {
        CutKeepsInv(cfg, s, Batch(s.queue, 0, Lost), s.totals.(failed := s.totals.failed + |s.queue|));
      } else {
        CutKeepsInv(cfg, s, Batch(s.queue, 0, Flying), s.totals);
      }
    case Reply(i, o) =>
      ReplyKeepsInv(cfg, s, i, o);
  }

  lemma Balanced(cfg: Config, s: System)
    requires Inv(cfg, s)
    ensures |Spelled(s.batches) + s.queue| ==
      |s.queue| + Count(s.batches, Flying) + s.totals.delivered + s.totals.failed + Count(s.batches, Dropped)
  {
    SpelledLength(s.batches);
  }

  /** Conservation.  In every run of overlapping enqueues, flushes and replies: the batches cut so far
      followed by the queue spell out the events in the order they were enqueued, each exactly
      once; every event enqueued is pending, in flight, delivered, failed, or was dropped for want
      of a client; and no batch is posted more than `maxRetries` times. */
  lemma {:induction false} NothingLost(cfg: Config, s: System, steps: seq<Step>, t: System)
    requires Inv(cfg, s) && Run(cfg, s, steps, t)
    ensures Inv(cfg, t)
    ensures Spelled(t.batches) + t.queue == Spelled(s.batches) + s.queue + Enqueued(steps)
    ensures s == START ==>
      |Enqueued(steps)| ==
        |t.queue| + Count(t.batches, Flying) + t.totals.delivered + t.totals.failed + Count(t.batches, Dropped)
    decreases |steps|
  {
    if steps != [] {
      var s1 := Next(cfg, s, steps[0]);
      StepKeepsInv(cfg, s, steps[0]);
      NothingLost(cfg, s1, steps[1..], t);
    }
    Balanced(cfg, t);
  }

  /** Some flush of the run meets a queue that is not empty, and has no client. */
  ghost predicate FlushesInVain(cfg: Config, s: System, steps: seq<Step>)
    decreases |steps|
  {
    && steps != [] && Enabled(s, steps[0])
    && ((steps[0] == Flush(false) && s.queue != []) || FlushesInVain(cfg, Next(cfg, s, steps[0]), steps[1..]))
  }

  /** Events are dropped in a run if and only if some flush of it meets a queue that is not empty, and
      has no client. */
  lemma {:induction false} DropsExactly(cfg: Config, s: System, steps: seq<Step>, t: System)
    requires Inv(cfg, s) && Run(cfg, s, steps, t)
    ensures Count(t.batches, Dropped) >= Count(s.batches, Dropped)
    ensures Count(t.batches, Dropped) > Count(s.batches, Dropped) <==> FlushesInVain(cfg, s, steps)
    decreases |steps|
  {
    if steps != [] {
      StepKeepsInv(cfg, s, steps[0]);
      DropsExactly(cfg, Next(cfg, s, steps[0]), steps[1..], t);
    }
  }

  /** Settled batches stay as they are, whatever runs beside and after them. */
  lemma {:induction false} FateIsFinal(cfg: Config, s: System, steps: seq<Step>, t: System, i: nat)
    requires Run(cfg, s, steps, t) && i < |s.batches| && s.batches[i].fate != Flying
    ensures i < |t.batches| && t.batches[i] == s.batches[i]
    decreases |steps|
  {
    if steps != [] {
      FateIsFinal(cfg, Next(cfg, s, steps[0]), steps[1..], t, i);
    }
  }

  // ---------------------------------------------------------------------
  // The delivery loop as part of a run
  // ---------------------------------------------------------------------

  /** The replies to `n` posts of batch `i`, from its `from`-th on. */
  function Replies(i: nat, from: nat, n: nat, reply: nat -> Outcome): seq<Step>
    decreases n
  {
    if n == 0 then [] else [Reply(i, reply(from))] + Replies(i, from + 1, n - 1, reply)
  }

  /** The delivery loop refines the steps: left to itself, a batch in flight goes through exactly the
      posts the loop makes, and ends up settled with the counters the loop leaves. */
  lemma {:induction false} DeliveryIsRun(cfg: Config, s: System, i: nat, reply: nat -> Outcome) returns (t: System)
    requires i < |s.batches| && s.batches[i].fate == Flying && s.batches[i].posts < cfg.maxRetries
    ensures var b := s.batches[i];
      var (made, totals) := Deliver(cfg.maxRetries, b.posts, |b.events|, s.totals, reply);
      && b.posts < made <= cfg.maxRetries
      && Run(cfg, s, Replies(i, b.posts, made - b.posts, reply), t)
      && i < |t.batches| && t == System(s.queue, s.batches[i := t.batches[i]], totals)
      && t.batches[i] == Batch(b.events, made, t.batches[i].fate) && t.batches[i].fate != Flying
    decreases cfg.maxRetries - s.batches[i].posts
  {
    var b := s.batches[i];
    var s1 := Next(cfg, s, Reply(i, reply(b.posts)));
    DeliverIsPosts(cfg.maxRetries, b.posts, |b.events|, s.totals, reply);
    var made := Deliver(cfg.maxRetries, b.posts, |b.events|, s.totals, reply).0;
    if s1.batches[i].fate == Flying {
      t := DeliveryIsRun(cfg, s1, i, reply);
    } else {
      t := s1;
      assert Run(cfg, s1, [], t);
    }
    assert Replies(i, b.posts, made - b.posts, reply)[1..] == Replies(i, b.posts + 1, made - b.posts - 1, reply);
  }
}
