/** The thread pool of `src/system/nx/thread_pool` as a system of steps.

    Each step is what one thread does between taking `pool_mtx` and giving it up again, by unlocking or by
    blocking on a condition variable.  Condition variables follow POSIX.1-2017: a signal wakes at least one
    blocked thread if there is one, a thread may wake for no reason, and a thread whose timed wait has
    expired consumes no signal.  The fields above `threads` are those of `struct _thread_pool`.
  */
module PoolModel {

  type Tid = nat
  type Client = nat
  type Job = nat  // jobs are numbered in the order in which they are accepted

  /** Where a registered worker without a job stands. */
  datatype Idle =
    | Waiting(timed: bool)  // blocked on pool_workcv, not signalled
    | Woken                 // about to take the mutex again
    | TimedOut              // the same, after ETIMEDOUT
    | Cancelled             // the same, to act on pthread_cancel
    | Holding               // in the middle of a critical section

  datatype Threads = Threads(
    spawned: set<Tid>,        // created, not yet registered
    idle: map<Tid, Idle>,     // the workers in idleq
    running: map<Tid, Job>,   // the workers in activeq
    waiters: set<Client>,     // blocked in tp_wait, not signalled
    exiters: set<Client>)     // blocked on pool_exitcv, not signalled

  datatype History = History(
    accepted: nat,
    started: seq<Job>,
    discarded: seq<Job>,
    ended: set<Job>,
    spawnFailed: bool,        // some pthread_create has failed
    waiterStranded: bool)     // some tp_cancel found a blocked waiter and no active worker

  datatype Pool = Pool(
    tMin: nat,
    tMax: nat,
    timeout: nat,
    busy: bool,               // POOL_BUSY
    wait: bool,               // POOL_WAIT
    cancel: bool,             // POOL_CANCEL
    tTotal: int,
    idleq: seq<Tid>,
    activeq: seq<Tid>,
    jobq: seq<Job>,
    threads: Threads,
    history: History)

  /** `tp_create` with its defaults. */
  function Create(tMin: nat, tMax: nat, timeout: int): Pool {
    Pool(if tMin == 0 then 5 else tMin, if tMax == 0 then 100 else tMax, if timeout < 0 then 2 else timeout,
         false, false, false, 0, [], [], [],
         Threads({}, map[], map[], {}, {}), History(0, [], [], {}, false, false))
  }

  // ---------- parts of critical sections ----------

  function Without(s: seq<Tid>, t: Tid): seq<Tid> {
    if s == [] then [] else if s[0] == t then Without(s[1..], t) else [s[0]] + Without(s[1..], t)
  }

  predicate Quiet(p: Pool) {
    p.activeq == [] && p.jobq == []
  }

  /** `tp_notify_waiter`, called only while POOL_WAIT is set. */
  function Notified(p: Pool): Pool {
    if p.wait && Quiet(p) then p.(wait := false, threads := p.threads.(waiters := {})) else p
  }

  /** `tp_thread_spawn`. */
  function Spawned(p: Pool, t: Tid, ok: bool): Pool {
    if ok then p.(threads := p.threads.(spawned := p.threads.spawned + {t}))
    else p.(history := p.history.(spawnFailed := true))
  }

  /** `pthread_cond_signal` on `pool_workcv`, which wakes the workers of `woken`. */
  function Signalled(p: Pool, woken: set<Tid>): Pool {
    p.(threads := p.threads.(idle := map t | t in p.threads.idle :: if t in woken then Woken else p.threads.idle[t]))
  }

  /** `tp_job_equeue`. */
  function Enqueued(p: Pool, woken: set<Tid>): Pool {
    var q := p.(jobq := p.jobq + [p.history.accepted], busy := true, history := p.history.(accepted := p.history.accepted + 1));
    if p.idleq != [] then Signalled(q, woken) else q
  }

  /** `worker_cleanup` for a worker in idleq. */
  function CleanedUp(p: Pool, t: Tid, newT: Tid, ok: bool): Pool {
    var q := p.(tTotal := p.tTotal - 1, idleq := Without(p.idleq, t), threads := p.threads.(idle := p.threads.idle - {t}));
    if q.cancel then if q.tTotal == 0 then q.(threads := q.threads.(exiters := {})) else q
    else if q.jobq != [] && q.tTotal < q.tMax then Spawned(q, newT, ok)
    else q
  }

  /** The worker `t` takes the first job and moves to activeq. */
  function TookJob(p: Pool, t: Tid): Pool
    requires p.jobq != []
  {
    p.(jobq := p.jobq[1..], idleq := Without(p.idleq, t), activeq := p.activeq + [t], busy := true,
       threads := p.threads.(idle := p.threads.idle - {t}, running := p.threads.running[t := p.jobq[0]]),
       history := p.history.(started := p.history.started + [p.jobq[0]]))
  }

  /** The loop of `thread_idle` and what follows, for a worker in idleq that holds the mutex. */
  function Looped(p: Pool, t: Tid): Pool {
    if p.cancel then CleanedUp(p, t, 0, true)
    else if p.jobq == [] then
      var q := if p.activeq == [] then p.(busy := false) else p;
      if q.tTotal <= q.tMin then q.(threads := q.threads.(idle := q.threads.idle[t := Waiting(false)]))
      else if q.timeout == 0 then CleanedUp(q, t, 0, true)
      else q.(threads := q.threads.(idle := q.threads.idle[t := Waiting(true)]))
    else TookJob(p, t)
  }

  /** The beginning of `create_worker`. */
  function Registered(p: Pool, t: Tid): Pool {
    p.(idleq := p.idleq + [t], tTotal := p.tTotal + 1,
       threads := p.threads.(spawned := p.threads.spawned - {t}, idle := p.threads.idle[t := Holding]))
  }

  /** `job_finish`. */
  function JobFinished(p: Pool, t: Tid): Pool
    requires t in p.threads.running
  {
    Notified(p.(activeq := Without(p.activeq, t), idleq := p.idleq + [t],
                threads := p.threads.(running := p.threads.running - {t}, idle := p.threads.idle[t := Holding]),
                history := p.history.(ended := p.history.ended + {p.threads.running[t]})))
  }

  // ---------- steps ----------

  datatype Step =
    | Queue(woken: set<Tid>, newT: Tid, ok: bool)  // tp_queue
    | WaitCheck(c: Client)                         // a round of the loop of tp_wait
    | Cancel                                       // tp_cancel, up to its tp_wait
    | ExitCheck(c: Client)                         // a round of the last loop of tp_cancel
    | Start(t: Tid)                                // a spawned worker registers
    | Resume(t: Tid)                               // a woken worker goes on in thread_idle
    | Exit(t: Tid, newT: Tid, ok: bool)            // a timed-out or cancelled worker cleans up
    | Finish(t: Tid)                               // a job returns
    | Abort(t: Tid, newT: Tid, ok: bool)           // a worker is cancelled, or exits, inside its job
    | Expire(t: Tid)                               // a timed wait expires
    | Spurious(t: Tid)                             // a worker wakes for no reason
    | SpuriousClient(c: Client)                    // the same in tp_wait or tp_cancel

  predicate Unused(p: Pool, t: Tid) {
    t !in p.threads.spawned && t !in p.threads.idle && t !in p.threads.running
  }

  predicate WaitingWorker(p: Pool, t: Tid) {
    t in p.threads.idle && p.threads.idle[t].Waiting?
  }

  ghost predicate Enabled(p: Pool, step: Step) {
    match step
    case Queue(woken, newT, _) =>
      && Unused(p, newT)
      && (forall t <- woken :: WaitingWorker(p, t))
      && ((exists t :: WaitingWorker(p, t)) ==> woken != {})
    case WaitCheck(c) => c !in p.threads.waiters
    case Cancel => true
    case ExitCheck(c) => p.cancel && c !in p.threads.exiters
    case Start(t) => t in p.threads.spawned
    case Resume(t) => t in p.threads.idle && p.threads.idle[t].Woken?
    case Exit(t, newT, _) => Unused(p, newT) && t in p.threads.idle && (p.threads.idle[t].TimedOut? || p.threads.idle[t].Cancelled?)
    case Finish(t) => t in p.threads.running
    case Abort(t, newT, _) => Unused(p, newT) && t in p.threads.running
    case Expire(t) => t in p.threads.idle && p.threads.idle[t] == Waiting(true)
    case Spurious(t) => WaitingWorker(p, t)
    case SpuriousClient(c) => true
  }

  ghost function Apply(p: Pool, step: Step): Pool
    requires Enabled(p, step)
  {
    match step
    case Queue(woken, newT, ok) =>
      var q := Enqueued(p, woken);
      if q.idleq == [] && q.tTotal < q.tMax && q.jobq != [] then Spawned(q, newT, ok) else q
    case WaitCheck(c) =>
      if Quiet(p) then p else p.(wait := true, threads := p.threads.(waiters := p.threads.waiters + {c}))
    case Cancel =>
      p.(cancel := true, jobq := [],
         threads := p.threads.(idle := map t | t in p.threads.idle ::
                                         if p.threads.idle[t].Waiting? then Cancelled else p.threads.idle[t]),
         history := p.history.(discarded := p.history.discarded + p.jobq,
                               waiterStranded := p.history.waiterStranded || (p.threads.waiters != {} && p.activeq == [])))
    case ExitCheck(c) =>
      if p.tTotal == 0 then p else p.(threads := p.threads.(exiters := p.threads.exiters + {c}))
    case Start(t) =>
      Looped(Notified(Registered(p, t)), t)
    case Resume(t) => Looped(p, t)
    case Exit(t, newT, ok) => CleanedUp(p, t, newT, ok)
    case Finish(t) => Looped(Notified(JobFinished(p, t)), t)
    case Abort(t, newT, ok) => CleanedUp(JobFinished(p, t), t, newT, ok)
    case Expire(t) => p.(threads := p.threads.(idle := p.threads.idle[t := TimedOut]))
    case Spurious(t) => p.(threads := p.threads.(idle := p.threads.idle[t := Woken]))
    case SpuriousClient(c) => p.(threads := p.threads.(waiters := p.threads.waiters - {c}, exiters := p.threads.exiters - {c}))
  }
}
