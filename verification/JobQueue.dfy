/** `JobQueue` of core/batch/job_queue.py: the table of jobs and the priority queue of entries that
    point into it.  An entry is not removed when its job is cancelled or expires; `take` discards
    it when it surfaces.

    Job identifiers are numbers in the order of their hexadecimal names. */
module JobQueue {
  import opened Wrappers

  type JobId = nat

  datatype Priority = High | Medium | Low

  datatype Status = Pending | InProgress | Completed | Failed | Cancelled | Expired

  datatype Job = Job(
    status: Status, priority: Priority, createdAt: real, ttl: int,
    attempts: nat, maxAttempts: nat, result: Option<int>, error: string)

  datatype Config = Config(maxPending: nat, maxAttempts: nat, workers: nat)

  /** What the priority queue is ordered by: priority, then time of queueing, then identifier. */
  datatype Entry = Entry(rank: nat, time: real, id: JobId)

  function Rank(p: Priority): nat {
    match p case High => 0 case Medium => 1 case Low => 2
  }

  predicate Leq(e: Entry, f: Entry) {
    e.rank < f.rank || (e.rank == f.rank && (e.time < f.time || (e.time == f.time && e.id <= f.id)))
  }

  type Jobs = map<JobId, Job>

  datatype Queue = Queue(jobs: Jobs, pending: multiset<Entry>)

  ghost predicate IsLeast(e: Entry, pending: multiset<Entry>) {
    e in pending && forall f :: f in pending ==> Leq(e, f)
  }

  lemma LeastExists(pending: multiset<Entry>)
    requires pending != multiset{}
    ensures exists e :: IsLeast(e, pending)
    decreases |pending|
  {
    var e :| e in pending;
    var rest := pending - multiset{e};
    if rest == multiset{} {
      assert pending == multiset{e};
      assert IsLeast(e, pending);
    } else {
      LeastExists(rest);
      var f :| IsLeast(f, rest);
      assert forall g :: g in pending ==> g == e || g in rest;
      assert IsLeast(if Leq(e, f) then e else f, pending);
    }
  }

  lemma LeastIsUnique(e: Entry, f: Entry, pending: multiset<Entry>)
    requires IsLeast(e, pending) && IsLeast(f, pending)
    ensures e == f
  {
    assert Leq(e, f) && Leq(f, e);
  }

  /** The entry the priority queue pops: the only least one. */
  ghost function Least(pending: multiset<Entry>): (e: Entry)
    requires pending != multiset{}
    ensures IsLeast(e, pending)
  {
    LeastExists(pending);
    var e :| IsLeast(e, pending);
    e
  }

  // ---------------------------------------------------------------------
  // The operations
  // ---------------------------------------------------------------------

  function PendingJobs(jobs: Jobs): set<JobId> {
    set id | id in jobs && jobs[id].status == Pending
  }

  /** `submit`, with a fresh identifier; the answer says whether there was room. */
  function Submitted(cfg: Config, q: Queue, id: JobId, p: Priority, ttl: int, now: real): (bool, Queue) {
    if |PendingJobs(q.jobs)| >= cfg.maxPending then (false, q)
    else
      (true, Queue(
        q.jobs[id := Job(Pending, p, now, ttl, 0, cfg.maxAttempts, None, "")],
        q.pending + multiset{Entry(Rank(p), now, id)}))
  }

  ghost function Taken(q: Queue): (Option<JobId>, Queue) {
    if q.pending == multiset{} then (None, q)
    else
      var e := Least(q.pending);
      var rest := q.pending - multiset{e};
      if e.id !in q.jobs || q.jobs[e.id].status != Pending then (None, q.(pending := rest))
      else
        var job := q.jobs[e.id];
        (Some(e.id), Queue(q.jobs[e.id := job.(status := InProgress, attempts := job.attempts + 1)], rest))
  }

  function CompletedJob(q: Queue, id: JobId, result: int): Queue {
    if id !in q.jobs then q
    else q.(jobs := q.jobs[id := q.jobs[id].(status := Completed, result := Some(result))])
  }

  function FailedJob(q: Queue, id: JobId, error: string, now: real): Queue {
    if id !in q.jobs then q
    else
      var job := q.jobs[id];
      if job.attempts < job.maxAttempts then
        Queue(q.jobs[id := job.(status := Pending, error := error)],
          q.pending + multiset{Entry(Rank(job.priority), now, id)})
      else q.(jobs := q.jobs[id := job.(status := Failed, error := error)])
  }

  predicate Finished(s: Status) {
    s == Completed || s == Failed || s == Cancelled
  }

  function CancelledJob(q: Queue, id: JobId): (bool, Queue) {
    if id !in q.jobs || Finished(q.jobs[id].status) then (false, q)
    else (true, q.(jobs := q.jobs[id := q.jobs[id].(status := Cancelled)]))
  }

  /** A waiting or running job that has outlived its time to live. */
  predicate Stale(job: Job, now: real) {
    (job.status == Pending || job.status == InProgress) && now - job.createdAt > job.ttl as real
  }

  function Expire(job: Job, now: real): Job {
    if Stale(job, now) then job.(status := Expired, error := "Job expired (TTL exceeded)") else job
  }

  function ExpiredJobs(q: Queue, now: real): Queue {
    q.(jobs := map id | id in q.jobs :: Expire(q.jobs[id], now))
  }

  class JobQueue {
    const cfg: Config
    var jobs: Jobs
    var pending: multiset<Entry>

    ghost function State(): Queue
      reads this
    {
      Queue(jobs, pending)
    }

    constructor (cfg: Config)
      ensures this.cfg == cfg && State() == Queue(map[], multiset{})
    {
      this.cfg := cfg;
      jobs, pending := map[], multiset{};
    }

    /** The generated identifier is a parameter. */
    method Submit(id: JobId, p: Priority, ttl: int, now: real) returns (accepted: bool)
      requires id !in jobs
      modifies this
      ensures (accepted, State()) == Submitted(cfg, old(State()), id, p, ttl, now)
    {
      var pendingCount := |PendingJobs(jobs)|;
      if pendingCount >= cfg.maxPending {
        return false;
      }
      jobs := jobs[id := Job(Pending, p, now, ttl, 0, cfg.maxAttempts, None, "")];
      pending := pending + multiset{Entry(Rank(p), now, id)};
      return true;
    }

    method Take() returns (taken: Option<JobId>)
      modifies this
      ensures (taken, State()) == Taken(old(State()))
    {
      if pending == multiset{} {
        return None;
      }
      LeastExists(pending);
      var e :| e in pending && forall f | f in pending :: Leq(e, f);
      LeastIsUnique(e, Least(pending), pending);
      pending := pending - multiset{e};
      if e.id !in jobs || jobs[e.id].status != Pending {
        return None;
      }
      jobs := jobs[e.id := jobs[e.id].(status := InProgress, attempts := jobs[e.id].attempts + 1)];
      return Some(e.id);
    }

    method Complete(id: JobId, result: int)
      modifies this
      ensures State() == CompletedJob(old(State()), id, result)
    {
      if id !in jobs {
        return;
      }
      jobs := jobs[id := jobs[id].(status := Completed, result := Some(result))];
    }

    method Fail(id: JobId, error: string, now: real)
      modifies this
      ensures State() == FailedJob(old(State()), id, error, now)
    {
      if id !in jobs {
        return;
      }
      var job := jobs[id];
      if job.attempts < job.maxAttempts {
        jobs := jobs[id := job.(status := Pending, error := error)];
        pending := pending + multiset{Entry(Rank(job.priority), now, id)};
      } else {
        jobs := jobs[id := job.(status := Failed, error := error)];
      }
    }

    method Cancel(id: JobId) returns (cancelled: bool)
      modifies this
      ensures (cancelled, State()) == CancelledJob(old(State()), id)
    {
      if id !in jobs {
        return false;
      }
      if Finished(jobs[id].status) {
        return false;
      }
      jobs := jobs[id := jobs[id].(status := Cancelled)];
      return true;
    }

    /** The loop over the table; the answer counts the jobs it expired. */
    method ExpireStaleJobs(now: real) returns (expired: nat)
      modifies this
      ensures State() == ExpiredJobs(old(State()), now)
      ensures expired == |set id | id in old(jobs) && Stale(old(jobs)[id], now)|
    {
      expired := 0;
      var todo := jobs.Keys;
      ghost var before := jobs;
      ghost var hit: set<JobId> := {};
      while todo != {}
        invariant todo <= before.Keys && jobs.Keys == before.Keys
        invariant forall id :: id in before ==> jobs[id] == if id in todo then before[id] else Expire(before[id], now)
        invariant hit == set id | id in before && id !in todo && Stale(before[id], now)
        invariant expired == |hit|
        invariant pending == old(pending)
        decreases todo
      {
        var id :| id in todo;
        todo := todo - {id};
        if Stale(jobs[id], now) {
          jobs := jobs[id := jobs[id].(status := Expired, error := "Job expired (TTL exceeded)")];
          expired := expired + 1;
          hit := hit + {id};
        }
      }
      assert hit == set id | id in before && Stale(before[id], now);
      assert jobs == ExpiredJobs(old(State()), now).jobs;
    }

    method Clear() returns (removed: nat)
      modifies this
      ensures removed == |old(jobs)| && State() == Queue(map[], multiset{})
    {
      removed := |jobs|;
      jobs := map[];
      pending := multiset{};
    }
  }
}
