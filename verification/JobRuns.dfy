/** Theorems about every run of the job queue with its workers, under any interleaving of
    submissions, takes, reports by the holding workers, cancellations, expiry and clearing. */
module JobRuns {
  import opened Wrappers
  import opened JobQueue
  import opened WorkerPool

  // ---------------------------------------------------------------------
  // Scheduling order
  // ---------------------------------------------------------------------

  ghost predicate AnyPending(q: Queue) {
    exists id :: id in q.jobs && q.jobs[id].status == Pending
  }

  /** HIGH before MEDIUM before LOW. */
  predicate MoreUrgent(p: Priority, q: Priority) {
    (p == High && q != High) || (p == Medium && q == Low)
  }

  /** The scheduling order of jobs: by priority, then by the time last queued, then by identifier. */
  predicate Precedes(s: System, id: JobId, k: JobId)
    requires id in s.q.jobs && k in s.q.jobs && id in s.queued && k in s.queued
  {
    || MoreUrgent(s.q.jobs[id].priority, s.q.jobs[k].priority)
    || (s.q.jobs[id].priority == s.q.jobs[k].priority
        && (s.queued[id] < s.queued[k] || (s.queued[id] == s.queued[k] && id <= k)))
  }

  /** Of all PENDING jobs, `id` is the one that precedes the others. */
  ghost predicate FirstInLine(s: System, id: JobId) {
    && id in s.q.jobs && id in s.queued && s.q.jobs[id].status == Pending
    && forall k :: k in s.q.jobs && s.q.jobs[k].status == Pending ==> k in s.queued && Precedes(s, id, k)
  }

  /** A PENDING job has its entry, which says what the scheduling order depends on; until the job is
      first taken, it was queued when it was submitted. */
  lemma EntryOfPending(cfg: Config, s: System, id: JobId)
    requires Inv(cfg, s) && id in s.q.jobs && s.q.jobs[id].status == Pending
    ensures id in s.queued && Entry(Rank(s.q.jobs[id].priority), s.queued[id], id) in s.q.pending
    ensures s.q.jobs[id].attempts == 0 ==> s.queued[id] == s.q.jobs[id].createdAt
  {
    assert id in Waiting(s.q);
    var e :| e in s.q.pending && e.id == id;
  }

  lemma LeastIsFirst(cfg: Config, s: System, e: Entry)
    requires Inv(cfg, s) && IsLeast(e, s.q.pending)
    requires s.q.jobs[e.id].status == Pending
    ensures FirstInLine(s, e.id)
  {
    forall k | k in s.q.jobs && s.q.jobs[k].status == Pending ensures k in s.queued && Precedes(s, e.id, k) {
      EntryOfPending(cfg, s, k);
      assert Leq(e, Entry(Rank(s.q.jobs[k].priority), s.queued[k], k));
    }
  }

  /** `take` hands out the first job in line, or nothing; nothing exactly when no entry is left or the
      entry that comes first belongs to a job that is no longer PENDING. */
  lemma TakeIsFair(cfg: Config, s: System)
    requires Inv(cfg, s)
    ensures var taken := Taken(s.q).0;
      && (taken.Some? ==> FirstInLine(s, taken.value))
      && (AnyPending(s.q) ==> s.q.pending != multiset{})
      && (taken.None? && AnyPending(s.q) <==>
            AnyPending(s.q) && s.q.jobs[Least(s.q.pending).id].status != Pending)
  {
    if AnyPending(s.q) {
      var id :| id in s.q.jobs && s.q.jobs[id].status == Pending;
      assert id in Waiting(s.q);
    }
    if Taken(s.q).0.Some? {
      LeastIsFirst(cfg, s, Least(s.q.pending));
    }
  }

  lemma RunOfThree(cfg: Config, s: System, a: Event, b: Event, c: Event)
    requires Enabled(cfg, s, a) && Enabled(cfg, Next(cfg, s, a), b)
    requires Enabled(cfg, Next(cfg, Next(cfg, s, a), b), c)
    ensures Run(cfg, s, [a, b, c], Next(cfg, Next(cfg, Next(cfg, s, a), b), c))
  {
    var s1 := Next(cfg, s, a);
    var s2 := Next(cfg, s1, b);
    var s3 := Next(cfg, s2, c);
    assert [c][1..] == [] && Run(cfg, s3, [], s3);
    assert [b, c][1..] == [c] && Run(cfg, s2, [c], s3);
    assert [a, b, c][1..] == [b, c] && Run(cfg, s1, [b, c], s3);
  }

  /** Two submissions. */
  lemma TwoWait(cfg: Config)
    requires cfg.maxPending >= 2
    ensures var s := Next(cfg, Next(cfg, IDLE, Submit(0, High, 1, 0.0)), Submit(1, High, 1, 1.0));
      && s.q.pending == multiset{Entry(0, 0.0, 0), Entry(0, 1.0, 1)} && s.q.jobs.Keys == {0, 1}
      && s.q.jobs[0].status == s.q.jobs[1].status == Pending
  {
    var s1 := Next(cfg, IDLE, Submit(0, High, 1, 0.0));
    assert PendingJobs(IDLE.q.jobs) == {};
    assert s1.q.jobs.Keys == {0};
    assert PendingJobs(s1.q.jobs) == {0};
  }

  lemma CancelledComesFirst(q: Queue)
    requires q.pending == multiset{Entry(0, 0.0, 0), Entry(0, 1.0, 1)}
    requires 0 in q.jobs && q.jobs[0].status == Cancelled
    ensures Taken(q).0.None?
  {
    var first := Entry(0, 0.0, 0);
    assert IsLeast(first, q.pending);
    LeastIsUnique(first, Least(q.pending), q.pending);
  }

  /** The run in which two jobs are submitted and the first is cancelled before it is taken. */
  const CANCELLED_FIRST := [Submit(0, High, 1, 0.0), Submit(1, High, 1, 1.0), Cancel(0)]

  /** `take` is documented to return nothing only for an empty queue.  After this run it does so
      although a job is PENDING: the entry of the cancelled job comes first. */
  lemma TakeMissesPending(cfg: Config) returns (t: System)
    requires cfg.maxPending >= 2
    ensures Run(cfg, IDLE, CANCELLED_FIRST, t)
    ensures AnyPending(t.q) && Taken(t.q).0.None?
  {
    var s := Next(cfg, Next(cfg, IDLE, CANCELLED_FIRST[0]), CANCELLED_FIRST[1]);
    t := Next(cfg, s, Cancel(0));
    TwoWait(cfg);
    RunOfThree(cfg, IDLE, CANCELLED_FIRST[0], CANCELLED_FIRST[1], Cancel(0));
    assert t.q.jobs[1].status == Pending;
    CancelledComesFirst(t.q);
  }

  /** Polling, as a lone worker does it: take again until a job comes out or the queue is empty. */
  ghost function Poll(q: Queue): (Option<JobId>, Queue)
    decreases |q.pending|
  {
    if q.pending == multiset{} then (None, q)
    else
      var (taken, rest) := Taken(q);
      if taken.Some? then (taken, rest)
      else
        assert |rest.pending| < |q.pending| by { assert Least(q.pending) in q.pending; }
        Poll(rest)
  }

  lemma SameLine(s: System, t: System, id: JobId)
    requires FirstInLine(s, id) && t.q.jobs == s.q.jobs && t.queued == s.queued
    ensures FirstInLine(t, id)
  {
  }

  /** Stale entries delay a job but hide none: polling ends with a job exactly when one is PENDING,
      and then with the first in line. */
  lemma {:induction false} PollFindsFirstInLine(cfg: Config, s: System)
    requires Inv(cfg, s)
    ensures Poll(s.q).0.Some? <==> AnyPending(s.q)
    ensures Poll(s.q).0.Some? ==> FirstInLine(s, Poll(s.q).0.value)
    decreases |s.q.pending|
  {
    TakeIsFair(cfg, s);
    if s.q.pending != multiset{} && Taken(s.q).0.None? {
      var e := Least(s.q.pending);
      var t := s.(q := s.q.(pending := s.q.pending - multiset{e}));
      StaleTakeKeepsInv(cfg, s, e);
      assert Taken(s.q).1 == t.q;
      PollFindsFirstInLine(cfg, t);
      if Poll(t.q).0.Some? {
        SameLine(t, s, Poll(t.q).0.value);
      }
    }
  }

  // ---------------------------------------------------------------------
  // What a step does to a job
  // ---------------------------------------------------------------------

  /** A waiting or running job that is older than its time to live. */
  predicate Overdue(j: Job, now: real) {
    (j.status == Pending || j.status == InProgress) && now > j.createdAt + j.ttl as real
  }

  /** What becomes of a job on record in one step: only the job taken, reported on or cancelled, and
      the overdue ones when stale jobs expire, change at all.  Whether a failed job is retried is
      told from how often it has been executed. */
  function Moved(cfg: Config, s: System, e: Event, id: JobId, taken: bool): Job
    requires Enabled(cfg, s, e) && id in s.q.jobs && id in s.execs && !e.Clear?
  {
    var j := s.q.jobs[id];
    match e
    case Submit(_, _, _, _) => j
    case Take(w) => if taken then j.(status := InProgress, attempts := j.attempts + 1) else j
    case Complete(w, result) => if s.held[w] == id then j.(status := Completed, result := Some(result)) else j
    case Fail(w, error, _) =>
      if s.held[w] != id then j
      else j.(error := error, status := if s.execs[id] < cfg.maxAttempts then Pending else Failed)
    case Cancel(c) =>
      if c == id && j.status != Completed && j.status != Failed then j.(status := Cancelled) else j
    case Expire(now) =>
      if Overdue(j, now) then j.(status := Expired, error := "Job expired (TTL exceeded)") else j
  }

  lemma TakeMovesJob(cfg: Config, s: System, e: Event, id: JobId)
    requires Enabled(cfg, s, e) && id in s.q.jobs && id in s.execs && e.Take?
    ensures var t := Next(cfg, s, e);
      id in t.q.jobs && t.q.jobs[id] == Moved(cfg, s, e, id, e.worker in t.held && t.held[e.worker] == id)
  {
    if s.q.pending != multiset{} {
      var entry := TakeCases(cfg, s, e.worker);
    }
  }

  lemma OtherStepsMoveJob(cfg: Config, s: System, e: Event, id: JobId)
    requires Enabled(cfg, s, e) && id in s.q.jobs && !e.Clear? && !e.Take?
    requires id in s.execs && AttemptedJob(cfg, s.q.jobs[id], s.execs[id])
    ensures var t := Next(cfg, s, e); id in t.q.jobs && t.q.jobs[id] == Moved(cfg, s, e, id, false)
  {
  }

  /** A step other than `clear` keeps every job on record and moves it as told. */
  lemma StepMovesJob(cfg: Config, s: System, e: Event, id: JobId)
    requires Inv(cfg, s) && Enabled(cfg, s, e) && id in s.q.jobs && !e.Clear?
    ensures var t := Next(cfg, s, e);
      && id in t.q.jobs
      && t.q.jobs[id] == Moved(cfg, s, e, id, e.Take? && e.worker in t.held && t.held[e.worker] == id)
  {
    if e.Take? {
      TakeMovesJob(cfg, s, e, id);
    } else {
      OtherStepsMoveJob(cfg, s, e, id);
    }
  }

  /** `submit` accepts a job exactly while fewer than the limit are PENDING; the job is then on record
      as given, waiting, never executed. */
  lemma SubmitAcceptsExactly(cfg: Config, s: System, id: JobId, p: Priority, ttl: int, now: real)
    requires id !in s.execs && Inv(cfg, s)
    ensures var t := Next(cfg, s, Submit(id, p, ttl, now));
      if |PendingJobs(s.q.jobs)| < cfg.maxPending then
        id in t.q.jobs && t.q.jobs[id] == Job(Pending, p, now, ttl, 0, cfg.maxAttempts, None, "")
        && id in Waiting(t.q) && id in t.execs && t.execs[id] == 0
      else t == s
  {
    var t := Next(cfg, s, Submit(id, p, ttl, now));
    if t != s {
      assert Entry(Rank(p), now, id) in t.q.pending;
    }
  }

  /** `cancel` answers true exactly for a job on record that is not COMPLETED, FAILED or CANCELLED. */
  lemma CancelAnswersExactly(q: Queue, id: JobId)
    ensures CancelledJob(q, id).0 <==> id in q.jobs && q.jobs[id].status in {Pending, InProgress, Expired}
  {
  }

  /** A worker's report of a failure puts the job back, as queued at the time of the failure, while it
      has been executed less often than allowed, and polling will hand out a job again. */
  lemma FailureIsRetried(cfg: Config, s: System, w: nat, error: string, now: real)
    requires cfg.maxAttempts >= 1 && Inv(cfg, s) && w in s.held
    requires s.held[w] in s.q.jobs && s.execs[s.held[w]] < cfg.maxAttempts
    ensures var t, id := Next(cfg, s, Fail(w, error, now)), s.held[w];
      && id in t.q.jobs && t.q.jobs[id].status == Pending && t.q.jobs[id].error == error
      && id in t.queued && t.queued[id] == now
      && Entry(Rank(t.q.jobs[id].priority), now, id) in t.q.pending
      && w !in t.held && Poll(t.q).0.Some?
  {
    var t, id := Next(cfg, s, Fail(w, error, now)), s.held[w];
    StepKeepsInv(cfg, s, Fail(w, error, now));
    StepMovesJob(cfg, s, Fail(w, error, now), id);
    EntryOfPending(cfg, t, id);
    PollFindsFirstInLine(cfg, t);
  }

  /** Over every run, a job on record is FAILED only if it has been executed as often as allowed. */
  lemma FailedAreExhausted(cfg: Config, es: seq<Event>, t: System, id: JobId)
    requires cfg.maxAttempts >= 1 && Run(cfg, IDLE, es, t)
    requires id in t.q.jobs && t.q.jobs[id].status == Failed
    ensures id in t.execs && t.execs[id] == cfg.maxAttempts
  {
    InvInitially(cfg);
    RunKeepsInv(cfg, IDLE, es, t);
  }

  /** In the run some worker that held the job has reported this result. */
  ghost predicate WasReported(cfg: Config, s: System, es: seq<Event>, id: JobId, result: int)
    decreases |es|
  {
    && es != [] && Enabled(cfg, s, es[0])
    && ((es[0].Complete? && s.held[es[0].worker] == id && es[0].result == result)
        || WasReported(cfg, Next(cfg, s, es[0]), es[1..], id, result))
  }

  /** A job that is COMPLETED at the end of a run and was not on record before has the result that its
      worker reported. */
  lemma {:induction false} ResultIsReported(cfg: Config, s: System, es: seq<Event>, t: System, id: JobId)
    requires cfg.maxAttempts >= 1 && Inv(cfg, s) && Run(cfg, s, es, t)
    requires id in t.q.jobs && t.q.jobs[id].status == Completed
    requires id in s.q.jobs ==> s.q.jobs[id].status != Completed
    ensures t.q.jobs[id].result.Some? && WasReported(cfg, s, es, id, t.q.jobs[id].result.value)
    decreases |es|
  {
    var s1 := Next(cfg, s, es[0]);
    StepKeepsInv(cfg, s, es[0]);
    if id in s1.q.jobs && s1.q.jobs[id].status == Completed {
      CompletedByReport(cfg, s, es[0], id);
      DoneIsPermanent(cfg, s1, es[1..], t, id);
    } else {
      ResultIsReported(cfg, s1, es[1..], t, id);
    }
  }

  lemma CompletedByReport(cfg: Config, s: System, e: Event, id: JobId)
    requires Inv(cfg, s) && Enabled(cfg, s, e)
    requires id in s.q.jobs ==> s.q.jobs[id].status != Completed
    requires id in Next(cfg, s, e).q.jobs && Next(cfg, s, e).q.jobs[id].status == Completed
    ensures e.Complete? && s.held[e.worker] == id && Next(cfg, s, e).q.jobs[id].result == Some(e.result)
  {
    if id in s.q.jobs {
      StepMovesJob(cfg, s, e, id);
    } else {
      NotOnRecord(cfg, s, e, id);
    }
  }

  /** A job comes on record by its submission only, and then waits. */
  lemma NotOnRecord(cfg: Config, s: System, e: Event, id: JobId)
    requires Enabled(cfg, s, e) && id !in s.q.jobs && id in Next(cfg, s, e).q.jobs
    ensures e.Submit? && e.id == id && Next(cfg, s, e).q.jobs[id].status == Pending
  {
  }

  // ---------------------------------------------------------------------
  // Executions are bounded by submissions
  // ---------------------------------------------------------------------

  ghost function Sum(m: map<JobId, nat>): nat
    decreases |m|
  {
    if m == map[] then 0
    else
      var k :| k in m;
      m[k] + Sum(m - {k})
  }

  lemma {:induction false} SumWithout(m: map<JobId, nat>, k: JobId)
    requires k in m
    ensures Sum(m) == m[k] + Sum(m - {k})
    decreases |m|
  {
    var j :| j in m && Sum(m) == m[j] + Sum(m - {j});
    if j != k {
      SumWithout(m - {j}, k);
      SumWithout(m - {k}, j);
      assert m - {j} - {k} == m - {k} - {j};
    }
  }

  lemma SumUpdate(m: map<JobId, nat>, k: JobId, n: nat)
    ensures Sum(m[k := n]) == Sum(m) - (if k in m then m[k] else 0) + n
  {
    SumWithout(m[k := n], k);
    assert m[k := n] - {k} == m - {k};
    if k in m {
      SumWithout(m, k);
    } else {
      assert m - {k} == m;
    }
  }

  lemma {:induction false} SumBounded(m: map<JobId, nat>, bound: nat)
    requires forall k :: k in m ==> m[k] <= bound
    ensures Sum(m) <= bound * |m|
    decreases |m|
  {
    if m != map[] {
      var k :| k in m;
      SumWithout(m, k);
      SizeWithout(m, k);
      SumBounded(m - {k}, bound);
      OneMore(bound, |m|);
    }
  }

  lemma SizeWithout(m: map<JobId, nat>, k: JobId)
    requires k in m
    ensures |m - {k}| == |m| - 1 && forall j :: j in m - {k} ==> j in m && (m - {k})[j] == m[j]
  {
    assert (m - {k}).Keys == m.Keys - {k};
  }

  lemma OneMore(a: nat, n: nat)
    requires n > 0
    ensures a * n == a + a * (n - 1)
  {
  }

  ghost predicate Executes(s: System, e: Event) {
    e.Take? && Taken(s.q).0.Some?
  }

  ghost predicate Accepts(cfg: Config, s: System, e: Event) {
    e.Submit? && Submitted(cfg, s.q, e.id, e.priority, e.ttl, e.now).0
  }

  /** How often a worker started a job during the run. */
  ghost function Executions(cfg: Config, s: System, es: seq<Event>): nat
    decreases |es|
  {
    if es == [] || !Enabled(cfg, s, es[0]) then 0
    else (if Executes(s, es[0]) then 1 else 0) + Executions(cfg, Next(cfg, s, es[0]), es[1..])
  }

  ghost function Submissions(cfg: Config, s: System, es: seq<Event>): nat
    decreases |es|
  {
    if es == [] || !Enabled(cfg, s, es[0]) then 0
    else (if Accepts(cfg, s, es[0]) then 1 else 0) + Submissions(cfg, Next(cfg, s, es[0]), es[1..])
  }

  lemma SubmitCounted(cfg: Config, s: System, e: Event)
    requires Enabled(cfg, s, e) && e.Submit?
    ensures var t := Next(cfg, s, e);
      && Sum(t.execs) == Sum(s.execs) && |t.execs| == |s.execs| + if Accepts(cfg, s, e) then 1 else 0
  {
    if Accepts(cfg, s, e) {
      SumUpdate(s.execs, e.id, 0);
      assert Next(cfg, s, e).execs.Keys == s.execs.Keys + {e.id};
    }
  }

  lemma TakeCounted(cfg: Config, s: System, e: Event)
    requires Enabled(cfg, s, e) && e.Take?
    ensures var t := Next(cfg, s, e);
      && Sum(t.execs) == Sum(s.execs) + (if Executes(s, e) then 1 else 0) && |t.execs| >= |s.execs|
      && (Attempted(cfg, s.q.jobs, s.execs) ==> |t.execs| == |s.execs|)
  {
    if Executes(s, e) {
      var id := Taken(s.q).0.value;
      SumUpdate(s.execs, id, (if id in s.execs then s.execs[id] else 0) + 1);
      assert Next(cfg, s, e).execs.Keys == s.execs.Keys + {id};
      if Attempted(cfg, s.q.jobs, s.execs) {
        TakenIsKnown(cfg, s.q, s.execs);
      }
    }
  }

  lemma TakenIsKnown(cfg: Config, q: Queue, execs: map<JobId, nat>)
    requires Attempted(cfg, q.jobs, execs) && Taken(q).0.Some?
    ensures Taken(q).0.value in execs
  {
    assert Taken(q).0.value in q.jobs;
  }

  lemma StepCounted(cfg: Config, s: System, e: Event)
    requires Enabled(cfg, s, e)
    ensures var t := Next(cfg, s, e);
      && Sum(t.execs) == Sum(s.execs) + (if Executes(s, e) then 1 else 0)
      && |t.execs| >= |s.execs|
      && (Inv(cfg, s) ==> |t.execs| == |s.execs| + (if Accepts(cfg, s, e) then 1 else 0))
  {
    if e.Submit? {
      SubmitCounted(cfg, s, e);
    } else if e.Take? {
      TakeCounted(cfg, s, e);
    }
  }

  lemma {:induction false} ExecutionsCounted(cfg: Config, s: System, es: seq<Event>, t: System)
    requires Run(cfg, s, es, t)
    ensures Sum(t.execs) == Sum(s.execs) + Executions(cfg, s, es)
    ensures |t.execs| >= |s.execs|
    ensures cfg.maxAttempts >= 1 && Inv(cfg, s) ==> |t.execs| == |s.execs| + Submissions(cfg, s, es)
    decreases |es|
  {
    if es != [] {
      StepCounted(cfg, s, es[0]);
      if cfg.maxAttempts >= 1 && Inv(cfg, s) {
        StepKeepsInv(cfg, s, es[0]);
      }
      ExecutionsCounted(cfg, Next(cfg, s, es[0]), es[1..], t);
    }
  }

  /** However the steps interleave, and whatever is retried, cancelled, resurrected or cleared:
      a job is executed at most `maxAttempts` times, so a run starts at most `maxAttempts`
      executions per accepted submission. */
  lemma ExecutionsBounded(cfg: Config, es: seq<Event>, t: System)
    requires cfg.maxAttempts >= 1 && Run(cfg, IDLE, es, t)
    ensures Executions(cfg, IDLE, es) <= cfg.maxAttempts * Submissions(cfg, IDLE, es)
    ensures forall id :: id in t.execs ==> t.execs[id] <= cfg.maxAttempts
  {
    InvInitially(cfg);
    RunKeepsInv(cfg, IDLE, es, t);
    ExecutionsCounted(cfg, IDLE, es, t);
    SumBounded(t.execs, cfg.maxAttempts);
  }

  // ---------------------------------------------------------------------
  // Which statuses are final
  // ---------------------------------------------------------------------

  lemma GoneStep(cfg: Config, s: System, e: Event, id: JobId)
    requires Enabled(cfg, s, e) && id in s.execs && id !in s.q.jobs
    ensures id in Next(cfg, s, e).execs && id !in Next(cfg, s, e).q.jobs
  {
  }

  lemma {:induction false} GoneStaysGone(cfg: Config, s: System, es: seq<Event>, t: System, id: JobId)
    requires Run(cfg, s, es, t) && id in s.execs && id !in s.q.jobs
    ensures id !in t.q.jobs
    decreases |es|
  {
    if es != [] {
      GoneStep(cfg, s, es[0], id);
      GoneStaysGone(cfg, Next(cfg, s, es[0]), es[1..], t, id);
    }
  }

  lemma FinishedStep(cfg: Config, s: System, e: Event, id: JobId)
    requires Enabled(cfg, s, e) && id in s.execs && id in s.q.jobs
    requires Finished(s.q.jobs[id].status) && id !in Busy(s.held)
    ensures var t := Next(cfg, s, e);
      id in t.execs && id !in Busy(t.held) && (id in t.q.jobs ==> t.q.jobs[id] == s.q.jobs[id])
  {
    if e.Complete? || e.Fail? {
      assert s.held[e.worker] in Busy(s.held);
    }
  }

  /** A job that is COMPLETED, FAILED or CANCELLED and held by no worker is final: over any run,
      unless `clear` removes it, no field of its record changes. */
  lemma {:induction false} FinishedIsFinal(cfg: Config, s: System, es: seq<Event>, t: System, id: JobId)
    requires Run(cfg, s, es, t) && id in s.execs && id in s.q.jobs
    requires Finished(s.q.jobs[id].status) && id !in Busy(s.held)
    ensures id in t.q.jobs ==> t.q.jobs[id] == s.q.jobs[id]
    decreases |es|
  {
    if es != [] {
      var s1 := Next(cfg, s, es[0]);
      FinishedStep(cfg, s, es[0], id);
      if id in s1.q.jobs {
        FinishedIsFinal(cfg, s1, es[1..], t, id);
      } else {
        GoneStaysGone(cfg, s1, es[1..], t, id);
      }
    }
  }

  /** COMPLETED and FAILED are permanent, as no worker ever holds such a job. */
  lemma DoneIsPermanent(cfg: Config, s: System, es: seq<Event>, t: System, id: JobId)
    requires Inv(cfg, s) && Run(cfg, s, es, t)
    requires id in s.q.jobs && (s.q.jobs[id].status == Completed || s.q.jobs[id].status == Failed)
    ensures id in t.q.jobs ==> t.q.jobs[id] == s.q.jobs[id]
  {
    FinishedIsFinal(cfg, s, es, t, id);
  }

  ghost predicate StaysCancelled(cfg: Config, s: System, id: JobId) {
    forall es, t :: Run(cfg, s, es, t) && id in t.q.jobs ==> t.q.jobs[id].status == Cancelled
  }

  /** A job that `cancel` reports as cancelled stays cancelled in every later run if and only if no
      worker holds it.  A held job, running or expired meanwhile, is overwritten by its worker's
      report, and a failure may put it back to work. */
  lemma CancelIsFinalExactlyWhenNotHeld(cfg: Config, s: System, id: JobId)
    requires cfg.maxAttempts >= 1 && Inv(cfg, s) && CancelledJob(s.q, id).0
    ensures StaysCancelled(cfg, Next(cfg, s, Cancel(id)), id) <==> id !in Busy(s.held)
  {
    var s1 := Next(cfg, s, Cancel(id));
    StepKeepsInv(cfg, s, Cancel(id));
    assert s1.held == s.held;
    if id !in Busy(s.held) {
      forall es, t | Run(cfg, s1, es, t) && id in t.q.jobs ensures t.q.jobs[id].status == Cancelled {
        FinishedIsFinal(cfg, s1, es, t, id);
      }
    } else {
      var w :| w in s.held && s.held[w] == id;
      var t := Next(cfg, s1, Complete(w, 0));
      var es := [Complete(w, 0)];
      assert es[0] == Complete(w, 0) && es[1..] == [] && Run(cfg, t, [], t);
      assert Run(cfg, s1, es, t) && id in t.q.jobs && t.q.jobs[id].status == Completed;
    }
  }

  /** In terms of the status: cancelling is final for every PENDING job and for no running one. */
  lemma CancelByStatus(cfg: Config, s: System, id: JobId)
    requires cfg.maxAttempts >= 1 && Inv(cfg, s)
    requires id in s.q.jobs && (s.q.jobs[id].status == Pending || s.q.jobs[id].status == InProgress)
    ensures StaysCancelled(cfg, Next(cfg, s, Cancel(id)), id) <==> s.q.jobs[id].status == Pending
  {
    CancelIsFinalExactlyWhenNotHeld(cfg, s, id);
  }

  // ---------------------------------------------------------------------
  // The backlog
  // ---------------------------------------------------------------------

  ghost function Backlog(s: System): nat {
    |PendingJobs(s.q.jobs)| + |s.held|
  }

  ghost function Below(n: nat): (r: set<nat>)
    ensures |r| == n && forall w: nat :: w in r <==> w < n
  {
    if n == 0 then {} else Below(n - 1) + {n - 1}
  }

  lemma SubsetSize<T>(a: set<T>, b: set<T>)
    requires a <= b
    ensures |a| <= |b|
  {
    assert b == a + (b - a);
  }

  lemma PendingAfter(jobs: Jobs, id: JobId, job: Job)
    ensures PendingJobs(jobs[id := job]) ==
      if job.status == Pending then PendingJobs(jobs) + {id} else PendingJobs(jobs) - {id}
  {
  }

  lemma HeldSize(held: map<nat, JobId>, w: nat, id: JobId)
    ensures w !in held ==> |held[w := id]| == |held| + 1
    ensures w in held ==> |held - {w}| == |held| - 1
  {
    if w in held {
      assert (held - {w}).Keys == held.Keys - {w};
    } else {
      assert held[w := id].Keys == held.Keys + {w};
    }
  }

  /** Only an accepted submission adds to the backlog, and it is accepted only below the limit. */
  lemma SubmitKeepsBacklog(cfg: Config, s: System, e: Event)
    requires Inv(cfg, s) && Enabled(cfg, s, e) && e.Submit?
    ensures Backlog(Next(cfg, s, e)) <= cfg.maxPending + cfg.workers || Next(cfg, s, e) == s
  {
    SubsetSize(s.held.Keys, Below(cfg.workers));
    var t := Next(cfg, s, e);
    if t != s {
      PendingAfter(s.q.jobs, e.id, t.q.jobs[e.id]);
    }
  }

  lemma TakeKeepsBacklog(cfg: Config, s: System, e: Event)
    requires Inv(cfg, s) && Enabled(cfg, s, e) && e.Take?
    ensures Backlog(Next(cfg, s, e)) <= Backlog(s)
  {
    if s.q.pending != multiset{} {
      var entry := TakeCases(cfg, s, e.worker);
      var id := entry.id;
      if id in s.q.jobs && s.q.jobs[id].status == Pending {
        HeldSize(s.held, e.worker, id);
        PendingAfter(s.q.jobs, id, Grab(s, e.worker, entry).q.jobs[id]);
        assert id in PendingJobs(s.q.jobs);
      }
    }
  }

  lemma OutsideKeepsBacklog(cfg: Config, s: System, e: Event)
    requires e.Cancel? || e.Expire? || e.Clear?
    ensures Backlog(Next(cfg, s, e)) <= Backlog(s)
  {
    SubsetSize(PendingJobs(Next(cfg, s, e).q.jobs), PendingJobs(s.q.jobs));
  }

  lemma ReportKeepsBacklog(cfg: Config, s: System, e: Event)
    requires Inv(cfg, s) && Enabled(cfg, s, e) && (e.Complete? || e.Fail?)
    ensures Backlog(Next(cfg, s, e)) <= Backlog(s)
  {
    var t := Next(cfg, s, e);
    var id := s.held[e.worker];
    HeldSize(s.held, e.worker, id);
    if id in s.q.jobs {
      PendingAfter(s.q.jobs, id, t.q.jobs[id]);
      SubsetSize(PendingJobs(s.q.jobs) - {id}, PendingJobs(s.q.jobs));
    }
  }

  /** The backlog bound: although `fail` re-queues without looking at the limit, and may even bring
      a cancelled or expired job back, PENDING and held jobs together never exceed
      `maxPending + workers`. */
  lemma {:induction false} BacklogBounded(cfg: Config, s: System, es: seq<Event>, t: System)
    requires cfg.maxAttempts >= 1 && Inv(cfg, s) && Run(cfg, s, es, t)
    requires Backlog(s) <= cfg.maxPending + cfg.workers
    ensures Backlog(t) <= cfg.maxPending + cfg.workers
    decreases |es|
  {
    if es != [] {
      StepKeepsInv(cfg, s, es[0]);
      match es[0] {
        case Submit(_, _, _, _) => SubmitKeepsBacklog(cfg, s, es[0]);
        case Take(_) => TakeKeepsBacklog(cfg, s, es[0]);
        case Complete(_, _) => ReportKeepsBacklog(cfg, s, es[0]);
        case Fail(_, _, _) => ReportKeepsBacklog(cfg, s, es[0]);
        case _ => OutsideKeepsBacklog(cfg, s, es[0]);
      }
      BacklogBounded(cfg, Next(cfg, s, es[0]), es[1..], t);
    }
  }
}
