/** The worker protocol of core/batch/worker_pool.py over the job queue: who may complete or fail a
    job, and the system of queue and workers under every interleaving of its steps. */
module WorkerPool {
  import opened Wrappers
  import opened JobQueue

  /** A step of the system.  Workers are numbered; `Take`, `Complete` and `Fail` are the two
      stretches of a worker's loop, everything else comes from outside. */
  datatype Event =
    | Submit(id: JobId, priority: Priority, ttl: int, now: real)
    | Take(worker: nat)
    | Complete(worker: nat, result: int)
    | Fail(worker: nat, error: string, now: real)
    | Cancel(id: JobId)
    | Expire(now: real)
    | Clear

  /** `held` maps each busy worker to its job; `execs` counts the executions of every job ever
      accepted, also of those that `clear` has removed; `queued` is when each job was last put in
      the queue, by its submission or by the failure that put it back. */
  datatype System = System(q: Queue, held: map<nat, JobId>, execs: map<JobId, nat>, queued: map<JobId, real>)

  const IDLE := System(Queue(map[], multiset{}), map[], map[], map[])

  /** Identifiers are fresh, only free workers take, and only the worker that holds a job reports on it. */
  ghost predicate Enabled(cfg: Config, s: System, e: Event) {
    match e
    case Submit(id, _, _, _) => id !in s.execs
    case Take(w) => w < cfg.workers && w !in s.held
    case Complete(w, _) => w in s.held
    case Fail(w, _, _) => w in s.held
    case _ => true
  }

  /** A failure of the job puts it back in the queue. */
  predicate Requeues(jobs: Jobs, id: JobId) {
    id in jobs && jobs[id].attempts < jobs[id].maxAttempts
  }

  ghost function Next(cfg: Config, s: System, e: Event): System
    requires Enabled(cfg, s, e)
  {
    match e
    case Submit(id, p, ttl, now) =>
      var (accepted, q) := Submitted(cfg, s.q, id, p, ttl, now);
      if accepted then System(q, s.held, s.execs[id := 0], s.queued[id := now]) else s.(q := q)
    case Take(w) =>
      var (taken, q) := Taken(s.q);
      if taken.None? then s.(q := q)
      else System(q, s.held[w := taken.value],
        s.execs[taken.value := (if taken.value in s.execs then s.execs[taken.value] else 0) + 1], s.queued)
    case Complete(w, result) => s.(q := CompletedJob(s.q, s.held[w], result), held := s.held - {w})
    case Fail(w, error, now) =>
      var id := s.held[w];
      System(FailedJob(s.q, id, error, now), s.held - {w}, s.execs,
        if Requeues(s.q.jobs, id) then s.queued[id := now] else s.queued)
    case Cancel(id) => s.(q := CancelledJob(s.q, id).1)
    case Expire(now) => s.(q := ExpiredJobs(s.q, now))
    case Clear => s.(q := Queue(map[], multiset{}))
  }

  /** `es` is a run from `s` to `t`. */
  ghost predicate Run(cfg: Config, s: System, es: seq<Event>, t: System)
    decreases |es|
  {
    if es == [] then s == t
    else Enabled(cfg, s, es[0]) && Run(cfg, Next(cfg, s, es[0]), es[1..], t)
  }

  // ---------------------------------------------------------------------
  // The invariant
  // ---------------------------------------------------------------------

  /** The jobs the queue has an entry for. */
  ghost function Waiting(q: Queue): set<JobId> {
    set e | e in q.pending :: e.id
  }

  /** The jobs a worker holds. */
  ghost function Busy(held: map<nat, JobId>): set<JobId> {
    set w | w in held :: held[w]
  }

  /** The entry of a job has its priority and the time it was last queued at, which is that of its
      submission until it is first taken. */
  ghost predicate EntryOf(e: Entry, jobs: Jobs, queued: map<JobId, real>) {
    && e.id in jobs && e.id in queued
    && e == Entry(Rank(jobs[e.id].priority), queued[e.id], e.id)
    && (jobs[e.id].attempts == 0 ==> queued[e.id] == jobs[e.id].createdAt)
  }

  /** At most one entry per job. */
  ghost predicate EntriesUnique(q: Queue, queued: map<JobId, real>) {
    forall e :: e in q.pending ==> q.pending[e] == 1 && EntryOf(e, q.jobs, queued)
  }

  ghost predicate HoldersUnique(cfg: Config, held: map<nat, JobId>, execs: map<JobId, nat>) {
    && (forall w :: w in held ==> w < cfg.workers && held[w] in execs)
    && (forall v, w :: v in held && w in held && held[v] == held[w] ==> v == w)
  }

  /** Where a job is, by status: a job waits in the queue or is held, never both; exactly the
      PENDING jobs wait, apart from cancelled or expired ones whose entry is still to be
      discarded; IN_PROGRESS jobs are held; COMPLETED and FAILED ones are neither. */
  ghost predicate Placed(jobs: Jobs, waiting: set<JobId>, busy: set<JobId>) {
    && waiting !! busy
    && (forall id :: id in jobs && id in busy ==> jobs[id].attempts > 0)
    && (forall id :: id in jobs ==>
          match jobs[id].status
          case Pending => id in waiting
          case InProgress => id in busy
          case Completed => id !in waiting && id !in busy
          case Failed => id !in waiting && id !in busy
          case Cancelled => true
          case Expired => true)
  }

  ghost predicate Attempted(cfg: Config, jobs: Jobs, execs: map<JobId, nat>) {
    && (forall id :: id in jobs ==> id in execs && AttemptedJob(cfg, jobs[id], execs[id]))
    && (forall id :: id in execs ==> execs[id] <= cfg.maxAttempts)
  }

  ghost predicate AttemptedJob(cfg: Config, job: Job, executions: nat) {
    && executions == job.attempts && job.maxAttempts == cfg.maxAttempts
    && (job.status == Pending ==> job.attempts < cfg.maxAttempts)
    && (job.status == Failed ==> job.attempts == cfg.maxAttempts)
  }

  ghost predicate Inv(cfg: Config, s: System) {
    && EntriesUnique(s.q, s.queued)
    && HoldersUnique(cfg, s.held, s.execs)
    && Placed(s.q.jobs, Waiting(s.q), Busy(s.held))
    && Attempted(cfg, s.q.jobs, s.execs)
  }

  lemma InvInitially(cfg: Config)
    ensures Inv(cfg, IDLE)
  {
  }

  /** What the place of a job in the queue depends on is the same. */
  predicate SameOrder(j: Job, k: Job) {
    j.priority == k.priority && j.attempts == k.attempts && j.createdAt == k.createdAt
  }

  lemma EntryPut(q: Queue, queued: map<JobId, real>, e: Entry, r: Queue)
    requires EntriesUnique(q, queued) && e.id !in Waiting(q)
    requires r.pending == q.pending + multiset{e} && EntryOf(e, r.jobs, queued[e.id := e.time])
    requires forall id :: id in q.jobs && id != e.id ==> id in r.jobs && SameOrder(q.jobs[id], r.jobs[id])
    ensures EntriesUnique(r, queued[e.id := e.time]) && Waiting(r) == Waiting(q) + {e.id}
  {
    assert e !in q.pending;
    assert forall f :: f in r.pending <==> f in q.pending || f == e;
  }

  lemma EntryPopped(q: Queue, queued: map<JobId, real>, e: Entry, r: Queue)
    requires EntriesUnique(q, queued) && e in q.pending
    requires r.pending == q.pending - multiset{e}
    requires forall id :: id in q.jobs && id != e.id ==> id in r.jobs && SameOrder(q.jobs[id], r.jobs[id])
    ensures EntriesUnique(r, queued) && Waiting(r) == Waiting(q) - {e.id}
  {
    assert forall f :: f in r.pending <==> f in q.pending && f != e;
  }

  lemma EntriesKept(q: Queue, queued: map<JobId, real>, r: Queue)
    requires EntriesUnique(q, queued) && r.pending == q.pending
    requires forall id :: id in q.jobs ==> id in r.jobs && SameOrder(q.jobs[id], r.jobs[id])
    ensures EntriesUnique(r, queued) && Waiting(r) == Waiting(q)
  {
  }

  lemma Grabbed(cfg: Config, s: System, w: nat, id: JobId, t: System)
    requires HoldersUnique(cfg, s.held, s.execs) && w < cfg.workers && w !in s.held && id !in Busy(s.held)
    requires t.held == s.held[w := id] && s.execs.Keys + {id} <= t.execs.Keys
    ensures HoldersUnique(cfg, t.held, t.execs) && Busy(t.held) == Busy(s.held) + {id}
  {
    assert t.held[w] == id;
    forall v | v in s.held ensures v in t.held && t.held[v] == s.held[v] && s.held[v] != id {
      assert s.held[v] in Busy(s.held);
    }
  }

  lemma Released(cfg: Config, s: System, w: nat, t: System)
    requires HoldersUnique(cfg, s.held, s.execs) && w in s.held
    requires t.held == s.held - {w} && t.execs == s.execs
    ensures HoldersUnique(cfg, t.held, t.execs) && Busy(t.held) == Busy(s.held) - {s.held[w]}
  {
    forall id | id in Busy(s.held) && id != s.held[w] ensures id in Busy(t.held) {
      var v :| v in s.held && s.held[v] == id;
      assert v in t.held;
    }
  }

  lemma SubmitKeepsInv(cfg: Config, s: System, e: Event)
    requires cfg.maxAttempts >= 1 && Inv(cfg, s) && e.Submit? && Enabled(cfg, s, e)
    ensures Inv(cfg, Next(cfg, s, e))
  {
    var t := Next(cfg, s, e);
    if t != s {
      EntryPut(s.q, s.queued, Entry(Rank(e.priority), e.now, e.id), t.q);
    }
  }

  /** A job moves from the queue to a worker. */
  lemma Started(cfg: Config, jobs: Jobs, waiting: set<JobId>, busy: set<JobId>, execs: map<JobId, nat>, id: JobId)
    requires Placed(jobs, waiting, busy) && Attempted(cfg, jobs, execs)
    requires id in jobs && id in waiting && jobs[id].status == Pending
    ensures id in execs
    ensures var started := jobs[id := jobs[id].(status := InProgress, attempts := jobs[id].attempts + 1)];
      Placed(started, waiting - {id}, busy + {id}) && Attempted(cfg, started, execs[id := execs[id] + 1])
  {
  }

  lemma StaleDiscarded(jobs: Jobs, waiting: set<JobId>, busy: set<JobId>, id: JobId)
    requires Placed(jobs, waiting, busy)
    requires id in jobs ==> jobs[id].status != Pending
    ensures Placed(jobs, waiting - {id}, busy)
  {
  }

  /** A held job is reported on: it ends, or goes back to the queue while it has attempts left. */
  lemma Reported(
    cfg: Config, jobs: Jobs, waiting: set<JobId>, busy: set<JobId>, execs: map<JobId, nat>, id: JobId, job: Job)
    requires Placed(jobs, waiting, busy) && Attempted(cfg, jobs, execs)
    requires id in jobs && id in busy
    requires job.attempts == jobs[id].attempts && job.maxAttempts == jobs[id].maxAttempts
    requires job.status == Completed || (job.status == Failed && job.attempts >= job.maxAttempts)
      || (job.status == Pending && job.attempts < job.maxAttempts)
    ensures Placed(jobs[id := job], if job.status == Pending then waiting + {id} else waiting, busy - {id})
    ensures Attempted(cfg, jobs[id := job], execs)
  {
  }

  lemma StaleTakeKeepsInv(cfg: Config, s: System, entry: Entry)
    requires Inv(cfg, s) && entry in s.q.pending && s.q.jobs[entry.id].status != Pending
    ensures Inv(cfg, s.(q := s.q.(pending := s.q.pending - multiset{entry})))
  {
    EntryPopped(s.q, s.queued, entry, s.q.(pending := s.q.pending - multiset{entry}));
    StaleDiscarded(s.q.jobs, Waiting(s.q), Busy(s.held), entry.id);
  }

  /** The system after worker `w` has popped the entry of a PENDING job. */
  ghost function Grab(s: System, w: nat, entry: Entry): System
    requires entry.id in s.q.jobs
  {
    var job := s.q.jobs[entry.id];
    System(
      Queue(
        s.q.jobs[entry.id := job.(status := InProgress, attempts := job.attempts + 1)],
        s.q.pending - multiset{entry}),
      s.held[w := entry.id],
      s.execs[entry.id := (if entry.id in s.execs then s.execs[entry.id] else 0) + 1],
      s.queued)
  }

  lemma GrabMoves(cfg: Config, s: System, w: nat, entry: Entry)
    requires EntriesUnique(s.q, s.queued) && HoldersUnique(cfg, s.held, s.execs)
    requires entry in s.q.pending && w < cfg.workers && w !in s.held && entry.id !in Busy(s.held)
    ensures var t := Grab(s, w, entry);
      && EntriesUnique(t.q, t.queued) && Waiting(t.q) == Waiting(s.q) - {entry.id}
      && HoldersUnique(cfg, t.held, t.execs) && Busy(t.held) == Busy(s.held) + {entry.id}
  {
    EntryPopped(s.q, s.queued, entry, Grab(s, w, entry).q);
    Grabbed(cfg, s, w, entry.id, Grab(s, w, entry));
  }

  lemma GrabKeepsInv(cfg: Config, s: System, w: nat, entry: Entry)
    requires Inv(cfg, s) && entry in s.q.pending && w < cfg.workers && w !in s.held
    requires s.q.jobs[entry.id].status == Pending
    ensures Inv(cfg, Grab(s, w, entry))
  {
    assert entry.id in Waiting(s.q);
    Started(cfg, s.q.jobs, Waiting(s.q), Busy(s.held), s.execs, entry.id);
    GrabMoves(cfg, s, w, entry);
  }

  lemma TakeCases(cfg: Config, s: System, w: nat) returns (entry: Entry)
    requires w < cfg.workers && w !in s.held && s.q.pending != multiset{}
    ensures entry == Least(s.q.pending)
    ensures Next(cfg, s, Take(w)) ==
      if entry.id !in s.q.jobs || s.q.jobs[entry.id].status != Pending
      then s.(q := s.q.(pending := s.q.pending - multiset{entry}))
      else Grab(s, w, entry)
  {
    entry := Least(s.q.pending);
  }

  lemma TakeKeepsInv(cfg: Config, s: System, e: Event)
    requires Inv(cfg, s) && e.Take? && Enabled(cfg, s, e)
    ensures Inv(cfg, Next(cfg, s, e))
  {
    if s.q.pending != multiset{} {
      var entry := TakeCases(cfg, s, e.worker);
      if s.q.jobs[entry.id].status != Pending {
        StaleTakeKeepsInv(cfg, s, entry);
      } else {
        GrabKeepsInv(cfg, s, e.worker, entry);
      }
    }
  }

  lemma ReportKeepsInv(cfg: Config, s: System, e: Event)
    requires Inv(cfg, s) && (e.Complete? || e.Fail?) && Enabled(cfg, s, e)
    ensures Inv(cfg, Next(cfg, s, e))
  {
    var t := Next(cfg, s, e);
    var id := s.held[e.worker];
    assert id in Busy(s.held);
    Released(cfg, s, e.worker, t);
    if id !in s.q.jobs {
      assert t.q == s.q;
    } else {
      Reported(cfg, s.q.jobs, Waiting(s.q), Busy(s.held), s.execs, id, t.q.jobs[id]);
      if t.q.jobs[id].status == Pending {
        EntryPut(s.q, s.queued, Entry(Rank(s.q.jobs[id].priority), e.now, id), t.q);
      } else {
        EntriesKept(s.q, s.queued, t.q);
      }
    }
  }

  lemma CancelKeepsInv(cfg: Config, s: System, e: Event)
    requires Inv(cfg, s) && e.Cancel?
    ensures Inv(cfg, Next(cfg, s, e))
  {
    EntriesKept(s.q, s.queued, Next(cfg, s, e).q);
  }

  lemma ExpireKeepsInv(cfg: Config, s: System, e: Event)
    requires Inv(cfg, s) && e.Expire?
    ensures Inv(cfg, Next(cfg, s, e))
  {
    EntriesKept(s.q, s.queued, Next(cfg, s, e).q);
  }

  lemma ClearKeepsInv(cfg: Config, s: System)
    requires Inv(cfg, s)
    ensures Inv(cfg, Next(cfg, s, Clear))
  {
  }

  lemma StepKeepsInv(cfg: Config, s: System, e: Event)
    requires cfg.maxAttempts >= 1 && Inv(cfg, s) && Enabled(cfg, s, e)
    ensures Inv(cfg, Next(cfg, s, e))
  {
    match e
    case Submit(_, _, _, _) => SubmitKeepsInv(cfg, s, e);
    case Take(_) => TakeKeepsInv(cfg, s, e);
    case Complete(_, _) => ReportKeepsInv(cfg, s, e);
    case Fail(_, _, _) => ReportKeepsInv(cfg, s, e);
    case Cancel(_) => CancelKeepsInv(cfg, s, e);
    case Expire(_) => ExpireKeepsInv(cfg, s, e);
    case Clear => ClearKeepsInv(cfg, s);
  }

  lemma {:induction false} RunKeepsInv(cfg: Config, s: System, es: seq<Event>, t: System)
    requires cfg.maxAttempts >= 1 && Inv(cfg, s) && Run(cfg, s, es, t)
    ensures Inv(cfg, t)
    decreases |es|
  {
    if es != [] {
      StepKeepsInv(cfg, s, es[0]);
      RunKeepsInv(cfg, Next(cfg, s, es[0]), es[1..], t);
    }
  }

  /** How a handler ended: with a result, or by raising an exception. */
  datatype Outcome = Returned(result: int) | Raised(error: string)

  /** The pool: each iteration of a worker's loop is a `Poll` and, when that yields a job, a `Report`
      once the handler has ended.  Anything may happen to the queue in between. */
  class WorkerPool {
    const queue: JobQueue
    var held: map<nat, JobId>
    ghost var execs: map<JobId, nat>
    ghost var queued: map<JobId, real>

    constructor (queue: JobQueue)
      ensures this.queue == queue && held == map[] && execs == map[] && queued == map[]
    {
      this.queue := queue;
      held, execs, queued := map[], map[], map[];
    }

    ghost function State(): System
      reads this, queue
    {
      System(queue.State(), held, execs, queued)
    }

    method Poll(worker: nat) returns (busy: bool)
      requires Enabled(queue.cfg, State(), Take(worker))
      modifies this, queue
      ensures State() == Next(queue.cfg, old(State()), Take(worker))
      ensures busy <==> worker in held
    {
      var job := queue.Take();
      if job.None? {
        return false;
      }
      held := held[worker := job.value];
      execs := execs[job.value := (if job.value in execs then execs[job.value] else 0) + 1];
      return true;
    }

    method Report(worker: nat, outcome: Outcome, now: real)
      requires worker in held
      modifies this, queue
      ensures State() == Next(queue.cfg, old(State()),
        if outcome.Returned? then Complete(worker, outcome.result) else Fail(worker, outcome.error, now))
    {
      match outcome
      case Returned(result) =>
        queue.Complete(held[worker], result);
        held := held - {worker};
      case Raised(error) =>
        if Requeues(queue.jobs, held[worker]) {
          queued := queued[held[worker] := now];
        }
        queue.Fail(held[worker], error, now);
        held := held - {worker};
    }
  }
}
