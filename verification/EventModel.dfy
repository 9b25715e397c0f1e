/** The event loop of `src/fevent_loop` as a system of steps: one loop thread, the handlers that the thread
    pool runs, and outside threads that use the monitor.

    A step is one access to something that threads share.  epoll is a set of armed descriptors, of which it
    may report any at any time; being one-shot, it disarms what it reports.  The notification pipe counts
    its unread bytes.  The watch tree is a finite map, and the pool is its queue of jobs and
    its active handlers; both are justified by the other modules.
  */
module EventModel {

  type Fd = int
  type Id = nat       // a ready item
  type Actor = nat    // a handler or an outside thread

  const PRIORITIES := 6

  /** What a ready item carries; `loose` items were added with EV_ASYNC and have no watched descriptor. */
  datatype Item = Item(fd: Fd, loose: bool, priority: nat)

  /** Where a live ready item is. */
  datatype Place = Ready | Queued | Handled(h: Actor)

  /** How far `event_handler` has come. */
  datatype Phase =
    | Callback      // in ev_ready_item_dispatch
    | Deleting      // EV_FIN: about to delete the descriptor from the watch tree
    | Unwatched     // about to take it out of epoll and to close it
    | Searching     // about to look the watch item up, to arm it again
    | Arming        // about to arm it
    | Armed         // about to note the new events
    | Requeueing    // EV_ASYNC: about to push the item again
    | Requeued      // about to notify
    | Freeing       // clean_up
    | Done          // returned, but still an active job of the pool

  datatype Handler = Handler(item: Id, phase: Phase)

  /** A call of the monitor under way, after its first step. */
  datatype Call =
    | Adding(fd: Fd)    // in the watch tree, about to be armed
    | Undoing(fd: Fd)   // arming failed, about to be taken out again
    | Posted            // item pushed, about to notify
    | Stopped           // running switched off, about to notify

  /** Where the loop thread is in `ev_loop_run`. */
  datatype Loop =
    | ReadFirst | ReadSecond | ReadWatch | ReadRunning  // the test of the loop
    | Choose                                            // to block or not to block
    | Blocked                                           // in epoll_wait with a timeout
    | Polling                                           // in epoll_wait without
    | Clearing                                          // woken through the pipe
    | Activating                                        // make_active
    | Counting                                          // ev_ready_queue_nready
    | Highest                                           // ev_ready_queue_dispatch
    | Dispatching(priority: nat)
    | ClearingAfter
    | LeftQuiet                                         // the first part of the test was false
    | LeftOff                                           // running was off
    | Failed                                            // onerr

  datatype Config = Config(
    noExit: bool,      // EV_EMPTY_NOEXIT
    noBlock: bool,     // EV_NOBLOCK
    poolFirst: bool)   // the order in which the test reads the pool and the ready queue; true in the source

  /** What handlers and the loop share with the kernel. */
  datatype Net = Net(
    running: bool,
    pipe: nat,
    watch: map<Fd, nat>,         // with the priority of each
    armed: set<Fd>,
    delivered: seq<Fd>)          // reported by epoll_wait, not yet in the ready queue

  /** The ready items, and counts of what has happened to items so far. */
  datatype Store = Store(
    ready: seq<seq<Id>>,         // rqueue, by priority
    jobs: seq<Id>,               // the job queue of the pool
    items: map<Id, Item>,        // the live ready items
    place: map<Id, Place>,
    created: nat, requeued: nat, freed: nat, runs: nat)

  datatype State = State(
    config: Config,
    loop: Loop,
    net: Net,
    store: Store,
    handlers: map<Actor, Handler>,
    calls: map<Actor, Call>,
    disturbed: bool)             // an outside call was under way since the test began

  // ---------- parts of steps ----------

  predicate AllEmpty(ready: seq<seq<Id>>) {
    forall p :: 0 <= p < |ready| ==> ready[p] == []
  }

  /** `ev_ready_queue_highest_priority`: the first non-empty list, or their number. */
  function FirstNonEmpty(ready: seq<seq<Id>>): (p: nat)
    ensures p <= |ready| && (forall q :: 0 <= q < p ==> ready[q] == []) && (p < |ready| ==> ready[p] != [])
  {
    if ready == [] || ready[0] != [] then 0 else 1 + FirstNonEmpty(ready[1..])
  }

  function PoolBusy(s: State): bool {
    s.store.jobs != [] || s.handlers != map[]
  }

  /** Pushes the live item `i`. */
  function Pushed(s: Store, i: Id): Store
    requires i in s.items && s.items[i].priority < |s.ready|
  {
    var p := s.items[i].priority;
    s.(ready := s.ready[p := s.ready[p] + [i]], place := s.place[i := Ready])
  }

  /** Creates an item and pushes it. */
  function Created(s: Store, item: Item): Store
    requires item.priority < |s.ready|
  {
    Pushed(s.(items := s.items[s.created := item], created := s.created + 1), s.created)
  }

  /** Moves the first item of a ready list to the pool. */
  function Dispatched(s: Store, p: nat): Store
    requires p < |s.ready| && s.ready[p] != []
  {
    var i := s.ready[p][0];
    s.(ready := s.ready[p := s.ready[p][1..]], jobs := s.jobs + [i], place := s.place[i := Queued])
  }

  /** A worker takes the first job. */
  function Taken(s: Store, h: Actor): Store
    requires s.jobs != []
  {
    s.(jobs := s.jobs[1..], place := s.place[s.jobs[0] := Handled(h)], runs := s.runs + 1)
  }

  function Freed(s: Store, i: Id): Store {
    s.(items := s.items - {i}, place := s.place - {i}, freed := s.freed + 1)
  }

  function InPhase(handlers: map<Actor, Handler>, h: Actor, phase: Phase): map<Actor, Handler>
    requires h in handlers
  {
    handlers[h := handlers[h].(phase := phase)]
  }

  function HandledFd(s: State, h: Actor): Fd
    requires h in s.handlers && s.handlers[h].item in s.store.items
  {
    s.store.items[s.handlers[h].item].fd
  }

  // ---------- steps ----------

  /** What `ev_ready_item_dispatch` returned. */
  datatype Outcome = Fin | FinAsync | Again | Async | Nothing

  datatype Step =
    // the loop thread
    | Advance                                        // a read or an action that leaves no choice
    | Report(fds: seq<Fd>, sawPipe: bool)            // epoll_wait returns
    | Interrupted                                    // it returns -1 with EINTR
    | Error                                          // it returns -1 otherwise
    // handlers
    | Begin(h: Actor)                                // a worker takes a job
    | Return(h: Actor, outcome: Outcome)             // the callbacks are done
    | Proceed(h: Actor, ok: bool)                    // the next action of event_handler
    | Finish(h: Actor)                               // the job is done
    // calls of the monitor, from callbacks and from outside
    | Add(a: Actor, fd: Fd, priority: nat)
    | Post(a: Actor, item: Item)
    | Stop(a: Actor)
    | Continue(a: Actor, ok: bool)

  /** How far the handler of `i` has come; `Callback` also for items that wait for one. */
  function Stage(s: Store, handlers: map<Actor, Handler>, i: Id): Phase {
    if i in s.place && s.place[i].Handled? && s.place[i].h in handlers then handlers[s.place[i].h].phase else Callback
  }

  /** Nothing in the system refers to `fd`. */
  ghost predicate Fresh(s: State, fd: Fd) {
    && fd !in s.net.watch && Unclaimed(s, fd)
    && forall i <- s.store.items :: s.store.items[i].fd == fd ==> Stage(s.store, s.handlers, i).Freeing?
  }

  ghost predicate Unclaimed(s: State, fd: Fd) {
    forall a <- s.calls :: s.calls[a] != Adding(fd) && s.calls[a] != Undoing(fd)
  }

  /** A thread that may call the monitor now: a callback, or an outside thread. */
  predicate MayCall(s: State, a: Actor) {
    a !in s.calls && (a in s.handlers ==> s.handlers[a].phase.Callback?)
  }

  predicate LoopMoves(loop: Loop) {
    !loop.Blocked? && !loop.Polling? && !loop.LeftQuiet? && !loop.LeftOff? && !loop.Failed?
  }

  /** What epoll_wait may report. */
  ghost predicate Reportable(net: Net, fds: seq<Fd>, sawPipe: bool) {
    && (forall i, j :: 0 <= i < j < |fds| ==> fds[i] != fds[j]) && (forall fd <- fds :: fd in net.armed)
    && (sawPipe ==> net.pipe > 0)
  }

  ghost predicate Enabled(s: State, step: Step) {
    match step
    case Advance => LoopMoves(s.loop)
    case Report(fds, sawPipe) => (s.loop.Blocked? || s.loop.Polling?) && Reportable(s.net, fds, sawPipe)
    case Interrupted => s.loop.Blocked? || s.loop.Polling?
    case Error => s.loop.Blocked? || s.loop.Polling?
    case Begin(h) => s.store.jobs != [] && h !in s.handlers && h !in s.calls
    case Return(h, _) => h in s.handlers && s.handlers[h].phase.Callback? && h !in s.calls
    case Proceed(h, _) => h in s.handlers && !s.handlers[h].phase.Callback? && !s.handlers[h].phase.Done?
    case Finish(h) => h in s.handlers && s.handlers[h].phase.Done?
    case Add(a, fd, priority) => MayCall(s, a) && Fresh(s, fd) && priority < PRIORITIES
    case Post(a, item) =>
      MayCall(s, a) && item.loose && item.priority < PRIORITIES && item.fd !in s.net.watch && Unclaimed(s, item.fd)
    case Stop(a) => MayCall(s, a)
    case Continue(a, _) => a in s.calls
  }

  /** Steps that an outside thread begins a call with. */
  predicate FromOutside(s: State, step: Step) {
    (step.Add? || step.Post? || step.Stop?) && step.a !in s.handlers
  }

  /** The handler still has its item. */
  predicate Owns(handlers: map<Actor, Handler>, h: Actor) {
    h in handlers && !handlers[h].phase.Requeued? && !handlers[h].phase.Done?
  }

  /** Priorities are in range. */
  ghost predicate InRange(s: State) {
    && |s.store.ready| == PRIORITIES
    && (s.loop.Dispatching? ==> s.loop.priority < PRIORITIES)
    && (forall fd <- s.net.watch :: s.net.watch[fd] < PRIORITIES)
    && (forall i <- s.store.items :: s.store.items[i].priority < PRIORITIES)
  }

  /** Enough for every step to be defined. */
  ghost predicate Shape(s: State) {
    && InRange(s)
    && (forall h <- s.handlers :: Owns(s.handlers, h) ==> s.handlers[h].item in s.store.items)
  }

  // ---------- the loop thread ----------

  function FirstRead(s: State): State {
    s.(disturbed := s.calls.Keys - s.handlers.Keys != {},
       loop := if (if s.config.poolFirst then PoolBusy(s) else !AllEmpty(s.store.ready)) then ReadRunning else ReadSecond)
  }

  function SecondRead(s: State): State {
    s.(loop := if (if s.config.poolFirst then !AllEmpty(s.store.ready) else PoolBusy(s)) then ReadRunning else ReadWatch)
  }

  /** `make_active`, for one descriptor. */
  function Activated(s: State): State
    requires |s.store.ready| == PRIORITIES && s.net.delivered != []
    requires forall fd <- s.net.watch :: s.net.watch[fd] < PRIORITIES
  {
    var fd := s.net.delivered[0];
    s.(net := s.net.(delivered := s.net.delivered[1..]),
       store := if fd in s.net.watch then Created(s.store, Item(fd, false, s.net.watch[fd])) else s.store)
  }

  function DispatchStep(s: State): State
    requires s.loop.Dispatching? && s.loop.priority < |s.store.ready|
  {
    if s.store.ready[s.loop.priority] == [] then s.(loop := ClearingAfter)
    else s.(store := Dispatched(s.store, s.loop.priority))
  }

  function LoopStep(s: State): State
    requires LoopMoves(s.loop) && |s.store.ready| == PRIORITIES
    requires forall fd <- s.net.watch :: s.net.watch[fd] < PRIORITIES
    requires s.loop.Dispatching? ==> s.loop.priority < PRIORITIES
  {
    match s.loop
    case ReadFirst => FirstRead(s)
    case ReadSecond => SecondRead(s)
    case ReadWatch => s.(loop := if s.net.watch != map[] || s.config.noExit then ReadRunning else LeftQuiet)
    case ReadRunning => s.(loop := if s.net.running then Choose else LeftOff)
    case Choose => s.(loop := if s.config.noBlock || !AllEmpty(s.store.ready) then Polling else Blocked)
    case Clearing => s.(net := s.net.(pipe := 0), loop := Activating)
    case Activating => if s.net.delivered == [] then s.(loop := Counting) else Activated(s)
    case Counting => s.(loop := if AllEmpty(s.store.ready) then ReadFirst else Highest)
    case Highest =>
      var p := FirstNonEmpty(s.store.ready);
      s.(loop := if p == PRIORITIES then ReadFirst else Dispatching(p))
    case Dispatching(_) => DispatchStep(s)
    case ClearingAfter => s.(net := s.net.(pipe := 0), loop := ReadFirst)
  }

  function Reported(s: State, fds: seq<Fd>, sawPipe: bool): State {
    s.(net := s.net.(delivered := fds, armed := s.net.armed - (set fd | fd in fds)), loop := if sawPipe then Clearing else Activating)
  }

  // ---------- handlers ----------

  function Begun(s: State, h: Actor): State
    requires s.store.jobs != []
  {
    s.(store := Taken(s.store, h), handlers := s.handlers[h := Handler(s.store.jobs[0], Callback)])
  }

  function Returned(s: State, h: Actor, outcome: Outcome): State
    requires h in s.handlers
  {
    var phase := match outcome
                 case Fin => Deleting
                 case Again => Searching
                 case Async => Requeueing
                 case FinAsync => Freeing
                 case Nothing => Freeing;
    s.(handlers := InPhase(s.handlers, h, phase))
  }

  /** The actions of `event_handler` on the watch pool. */
  function WatchStep(s: State, h: Actor, ok: bool): State
    requires h in s.handlers && s.handlers[h].item in s.store.items
  {
    var fd := HandledFd(s, h);
    match s.handlers[h].phase
    case Deleting =>
      if fd in s.net.watch then s.(net := s.net.(watch := s.net.watch - {fd}), handlers := InPhase(s.handlers, h, Unwatched))
      else s.(handlers := InPhase(s.handlers, h, Freeing))
    case Unwatched => s.(net := s.net.(armed := s.net.armed - {fd}), handlers := InPhase(s.handlers, h, Freeing))
    case Searching => s.(handlers := InPhase(s.handlers, h, if fd in s.net.watch then Arming else Freeing))
    case Arming =>
      if ok then s.(net := s.net.(armed := s.net.armed + {fd}), handlers := InPhase(s.handlers, h, Armed))
      else s.(handlers := InPhase(s.handlers, h, Freeing))
    case _ => s.(handlers := InPhase(s.handlers, h, Freeing))
  }

  /** Its actions on the item itself. */
  function ItemStep(s: State, h: Actor): State
    requires h in s.handlers
    requires Owns(s.handlers, h) ==>
               s.handlers[h].item in s.store.items && s.store.items[s.handlers[h].item].priority < |s.store.ready|
  {
    var i := s.handlers[h].item;
    match s.handlers[h].phase
    case Requeueing =>
      s.(store := Pushed(s.store, i).(requeued := s.store.requeued + 1), handlers := InPhase(s.handlers, h, Requeued))
    case Requeued => s.(net := s.net.(pipe := s.net.pipe + 1), handlers := InPhase(s.handlers, h, Done))
    case _ => s.(store := Freed(s.store, i), handlers := InPhase(s.handlers, h, Done))
  }

  predicate OnItem(phase: Phase) {
    phase.Requeueing? || phase.Requeued? || phase.Freeing?
  }

  function ProceedStep(s: State, h: Actor, ok: bool): State
    requires h in s.handlers && !s.handlers[h].phase.Callback? && !s.handlers[h].phase.Done?
    requires Owns(s.handlers, h) ==>
               s.handlers[h].item in s.store.items && s.store.items[s.handlers[h].item].priority < |s.store.ready|
  {
    if OnItem(s.handlers[h].phase) then ItemStep(s, h) else WatchStep(s, h, ok)
  }

  // ---------- calls ----------

  function ContinueStep(s: State, a: Actor, ok: bool): State
    requires a in s.calls
  {
    match s.calls[a]
    case Adding(fd) =>
      if ok then s.(net := s.net.(armed := s.net.armed + {fd}), calls := s.calls - {a})
      else s.(calls := s.calls[a := Undoing(fd)])
    case Undoing(fd) => s.(net := s.net.(watch := s.net.watch - {fd}), calls := s.calls - {a})
    case Posted => s.(net := s.net.(pipe := s.net.pipe + 1), calls := s.calls - {a})
    case Stopped => s.(net := s.net.(pipe := s.net.pipe + 1), calls := s.calls - {a})
  }

  ghost function Apply(s: State, step: Step): State
    requires Shape(s) && Enabled(s, step)
  {
    var d := s.disturbed || FromOutside(s, step);
    match step
    case Advance => LoopStep(s)
    case Report(fds, sawPipe) => Reported(s, fds, sawPipe)
    case Interrupted => s.(loop := ReadFirst)
    case Error => s.(loop := Failed, net := s.net.(running := false, pipe := s.net.pipe + 1))
    case Begin(h) => Begun(s, h)
    case Return(h, outcome) => Returned(s, h, outcome)
    case Proceed(h, ok) => ProceedStep(s, h, ok)
    case Finish(h) => s.(handlers := s.handlers - {h})
    case Add(a, fd, priority) =>
      s.(net := s.net.(watch := s.net.watch[fd := priority]), calls := s.calls[a := Adding(fd)], disturbed := d)
    case Post(a, item) => s.(store := Created(s.store, item), calls := s.calls[a := Posted], disturbed := d)
    case Stop(a) => s.(net := s.net.(running := false), calls := s.calls[a := Stopped], disturbed := d)
    case Continue(a, ok) => ContinueStep(s, a, ok)
  }

  /** A new monitor, with its loop about to start. */
  function Initial(config: Config): State {
    State(config, ReadFirst, Net(true, 0, map[], {}, []),
          Store([[], [], [], [], [], []], [], map[], map[], 0, 0, 0, 0), map[], map[], false)
  }
}
