/**
 The dispatcher as a transition system: the thread that calls `run`, any number of pool
 threads that call `serve`, the two-priority core lock, the wakeup flag with its pipe, the
 thread pool and the client lists, interleaved in every possible way.

 One event is one atomic step of one thread.  Steps that hold the internal mutex and touch
 only what it protects are merged with the acquisition of the mutex; every access to the
 counter, the pipe, the condition variables and the stop flag is a step of its own.
 */
module DispatcherSystem {
  import opened Wrappers
  import opened ClientLists

  /** The client a thread has just finished handling, and how that went. */
  datatype Job = Job(client: ClientId, outcome: Outcome)

  /** What a thread does after it has released the core lock. */
  datatype Next = LoopIdle | LoopServe(client: ClientId) | LoopStop

  /** The program counter of a pool thread. */
  datatype PC =
    | Entry(job: Option<Job>)            // about to acquire the core lock; urgent iff there is a job
    | URaise(todo: Job)                  // urgent_lock, mutex held: counted as a waiter, about to raise the flag
    | UWrite(todo: Job)                  // ... the counter went from zero to one, about to write the pipe
    | USleep(todo: Job)                  // ... flag raised, about to wait
    | UWaiting(todo: Job)                // on the condition variable for urgent waiters
    | UWoken(todo: Job)                  // woken up, about to re-acquire the mutex
    | ULower(todo: Job)                  // mutex held: core lock found free, about to lower the flag
    | URead(todo: Job)                   // ... the counter went from one to zero, about to read the pipe
    | UTake(todo: Job)                   // ... flag lowered, about to take the core lock
    | NWaiting                           // normal_lock: on the condition variable for normal waiters
    | NWoken
    | Holding(job: Option<Job>)          // core lock held, before resume_monitoring or the stop check
    | Selecting                          // core lock held, inside select_client
    | Unlocking(next: Next)              // core lock held, about to release it
    | Notifying(urgent: bool, next: Next) // core lock released, about to notify one waiter
    | Serving(client: ClientId)          // handling a request, no lock held
    | Exited

  /** The program counter of the thread that calls `run`. */
  datatype Runner =
    | Idle | Running
    | Raising | WritingByte               // stop flag set; raising the wakeup flag
    | Freezing | Joining(k: nat) | AwaitingExit(k: nat)
    | Lowering | ReadingByte | Finishing

  /** core_mutex_t: who holds `internal_mutex_` across steps, `n_urgent_waiters_` and `locked_`. */
  datatype CoreMutex = CoreMutex(internalOwner: Option<nat>, urgentWaiters: nat, locked: bool)

  /** wakeup_flag_t: the raise count and the number of bytes in the pipe. */
  datatype Flag = Flag(counter: nat, pipe: nat)

  /** thread_pool_t, with its threads in order of creation. */
  datatype Pool = Pool(maxThreads: nat, frozen: bool, threads: seq<PC>, interrupted: set<nat>)

  datatype State = State(
    core: Core,
    mutex: CoreMutex,
    flag: Flag,
    idle: int,               // n_idle_threads_
    stopping: bool,          // dispatcher_stopping_
    pool: Pool,
    runner: Runner,
    assertsHold: bool)       // becomes false when an assert of the program fails

  /** What a pool thread can do in one step, apart from notifying another thread. */
  datatype Act =
    | Acquire | Raise | Write | Sleep | Recheck | Lower | Read | Take | Spurious
    | Resume | CheckStop | CoreReacts(what: CoreEvent) | Unlock | Handled(outcome: Outcome)

  /** What the thread that calls `run` can do in one step. */
  datatype RunnerAct =
    | Start | CatchSignal | RaiseStop | WriteStop | Freeze | Join | LowerStop | ReadStop | Return

  datatype Event =
    | Acts(i: nat, act: Act)
    | Notifies(i: nat, target: Option<nat>)
    | Runs(step: RunnerAct)

  predicate Urgent(pc: PC) {
    pc.URaise? || pc.UWrite? || pc.USleep? || pc.UWaiting? || pc.UWoken? || pc.ULower? || pc.URead? || pc.UTake?
  }

  /** Is the internal mutex held by a thread at this point? */
  predicate HoldsInternal(pc: PC) {
    pc.URaise? || pc.UWrite? || pc.USleep? || pc.ULower? || pc.URead? || pc.UTake?
  }

  predicate HoldsCore(pc: PC) {
    pc.Holding? || pc.Selecting? || pc.Unlocking?
  }

  predicate PoolFull(pool: Pool) {
    pool.frozen || (pool.maxThreads != 0 && |pool.threads| == pool.maxThreads)
  }

  /** A thread that a `notify_one` may wake up. */
  predicate WaitsFor(pc: PC, urgent: bool) {
    if urgent then pc.UWaiting? else pc.NWaiting?
  }

  function Awakened(pc: PC): PC
    requires pc.UWaiting? || pc.NWaiting?
  {
    if pc.UWaiting? then UWoken(pc.todo) else NWoken
  }

  function AfterUnlock(next: Next): PC {
    match next
    case LoopIdle => Entry(None)
    case LoopServe(c) => Serving(c)
    case LoopStop => Exited
  }

  function Init(maxThreads: nat, maxConnections: nat): State {
    State(Core(maxConnections, [], [], multiset{}, []), CoreMutex(None, 0, false), Flag(0, 0),
          0, false, Pool(maxThreads, false, [], {}), Idle, true)
  }

  predicate CanAct(s: State, i: nat, pc: PC, act: Act) {
    match act
    case Acquire => pc.Entry? && s.mutex.internalOwner == None
    case Raise => pc.URaise?
    case Write => pc.UWrite?
    case Sleep => pc.USleep?
    case Recheck => (pc.UWoken? || pc.NWoken?) && s.mutex.internalOwner == None
    case Lower => pc.ULower?
    case Read => pc.URead? && s.flag.pipe > 0
    case Take => pc.UTake?
    case Spurious => pc.UWaiting? || pc.NWaiting?
    case Resume => pc.Holding? && pc.job.Some?
    case CheckStop => pc.Holding? && pc.job == None
    case CoreReacts(what) =>
      pc.Selecting? && Possible(s.core, what) && (what.WakeupReady? ==> what.up == (s.flag.counter != 0))
    case Unlock => pc.Unlocking? && s.mutex.internalOwner == None
    case Handled(outcome) => pc.Serving? && (outcome == Interrupted ==> i in s.pool.interrupted)
  }

  predicate CanRun(s: State, step: RunnerAct) {
    match step
    case Start => s.runner == Idle
    case CatchSignal => s.runner == Running
    case RaiseStop => s.runner == Raising
    case WriteStop => s.runner == WritingByte
    case Freeze => s.runner == Freezing
    case Join =>
      || s.runner.Joining?
      || (s.runner.AwaitingExit? && s.runner.k < |s.pool.threads| && s.pool.threads[s.runner.k] == Exited)
    case LowerStop => s.runner == Lowering
    case ReadStop => s.runner == ReadingByte && s.flag.pipe > 0
    case Return => s.runner == Finishing
  }

  /** `notify_one` wakes up some waiting thread, and does nothing only if none is waiting. */
  ghost predicate CanNotify(threads: seq<PC>, i: nat, target: Option<nat>) {
    && i < |threads|
    && threads[i].Notifying?
    && if target.Some?
       then target.value < |threads| && WaitsFor(threads[target.value], threads[i].urgent)
       else forall j :: 0 <= j < |threads| ==> !WaitsFor(threads[j], threads[i].urgent)
  }

  ghost predicate Enabled(s: State, e: Event) {
    match e
    case Acts(i, act) => i < |s.pool.threads| && CanAct(s, i, s.pool.threads[i], act)
    case Notifies(i, target) => CanNotify(s.pool.threads, i, target)
    case Runs(step) => CanRun(s, step)
  }

  /** Must a thread that finds the core lock in this state wait for it? */
  predicate MustWait(mutex: CoreMutex, urgent: bool) {
    mutex.locked || (!urgent && mutex.urgentWaiters != 0)
  }

  function NextPC(s: State, i: nat, pc: PC, act: Act): PC
    requires CanAct(s, i, pc, act)
  {
    match act
    case Acquire =>
      if !MustWait(s.mutex, pc.job.Some?) then Holding(pc.job)
      else if pc.job.Some? then URaise(pc.job.value)
      else NWaiting
    case Raise => if s.flag.counter == 0 then UWrite(pc.todo) else USleep(pc.todo)
    case Write => USleep(pc.todo)
    case Sleep => UWaiting(pc.todo)
    case Recheck =>
      if pc.UWoken? then (if s.mutex.locked then UWaiting(pc.todo) else ULower(pc.todo))
      else if MustWait(s.mutex, false) then NWaiting else Holding(None)
    case Lower => if s.flag.counter == 1 then URead(pc.todo) else UTake(pc.todo)
    case Read => UTake(pc.todo)
    case Take => Holding(Some(pc.todo))
    case Spurious => Awakened(pc)
    case Resume => Holding(None)
    case CheckStop => if s.stopping then Unlocking(LoopStop) else Selecting
    case CoreReacts(what) =>
      if !Decisive(what) then Selecting
      else if what.WakeupReady? then Unlocking(LoopIdle)
      else Unlocking(LoopServe(what.client))
    case Unlock => Notifying(s.mutex.urgentWaiters != 0, pc.next)
    case Handled(outcome) => Entry(Some(Job(pc.client, outcome)))
  }

  function NextMutex(mutex: CoreMutex, i: nat, pc: PC, pc': PC, act: Act): CoreMutex {
    match act
    case Acquire =>
      if pc'.Holding? then mutex.(locked := true)
      else if pc'.URaise? then CoreMutex(Some(i), mutex.urgentWaiters + 1, mutex.locked)
      else mutex
    case Sleep => mutex.(internalOwner := None)
    case Recheck =>
      if pc'.ULower? then mutex.(internalOwner := Some(i))
      else if pc'.Holding? then mutex.(locked := true)
      else mutex
    case Take => CoreMutex(None, if mutex.urgentWaiters == 0 then 0 else mutex.urgentWaiters - 1, true)
    case Unlock => mutex.(locked := false)
    case _ => mutex
  }

  function RaiseCounter(flag: Flag): Flag {
    flag.(counter := flag.counter + 1)
  }

  function LowerCounter(flag: Flag): Flag {
    flag.(counter := if flag.counter == 0 then 0 else flag.counter - 1)
  }

  function WriteByte(flag: Flag): Flag {
    flag.(pipe := flag.pipe + 1)
  }

  function ReadByte(flag: Flag): Flag
    requires flag.pipe > 0
  {
    flag.(pipe := flag.pipe - 1)
  }

  function NextFlag(flag: Flag, act: Act): Flag
    requires act == Read ==> flag.pipe > 0
  {
    match act
    case Raise => RaiseCounter(flag)
    case Write => WriteByte(flag)
    case Lower => LowerCounter(flag)
    case Read => ReadByte(flag)
    case _ => flag
  }

  function NextCore(core: Core, pc: PC, act: Act): Core
    requires act == Resume ==> pc.Holding? && pc.job.Some?
    requires act.CoreReacts? ==> Possible(core, act.what)
  {
    match act
    case Resume => ResumeMonitoring(core, pc.job.value.client, pc.job.value.outcome)
    case CoreReacts(what) => React(core, what)
    case _ => core
  }

  /** Does the holder leave with a client? */
  predicate Selects(act: Act) {
    act.CoreReacts? && act.what.ClientReady? && Decisive(act.what)
  }

  /** When the holder leaves with a client and no idle thread remains, it tries to add one. */
  predicate AddsThread(s: State, act: Act) {
    Selects(act) && s.idle - 1 == 0 && !PoolFull(s.pool)
  }

  function NextIdle(s: State, act: Act): int {
    if act == Resume then s.idle + 1
    else if act == CheckStop && s.stopping then s.idle - 1
    else if AddsThread(s, act) then s.idle - 1 + 1
    else if Selects(act) then s.idle - 1
    else s.idle
  }

  /** The assert, if any, that the program evaluates in this step. */
  predicate AssertHolds(s: State, act: Act) {
    match act
    case Lower => s.flag.counter != 0
    case Unlock => s.mutex.locked
    case _ => true
  }

  function ActOf(s: State, i: nat, act: Act): State
    requires i < |s.pool.threads| && CanAct(s, i, s.pool.threads[i], act)
  {
    var pc := s.pool.threads[i];
    var pc' := NextPC(s, i, pc, act);
    var added := if AddsThread(s, act) then [Entry(None)] else [];
    State(NextCore(s.core, pc, act), NextMutex(s.mutex, i, pc, pc', act), NextFlag(s.flag, act),
          NextIdle(s, act), s.stopping, s.pool.(threads := s.pool.threads[i := pc'] + added),
          s.runner, s.assertsHold && AssertHolds(s, act))
  }

  ghost function Notified(threads: seq<PC>, i: nat, target: Option<nat>): seq<PC>
    requires CanNotify(threads, i, target)
  {
    var awakened := if target.Some? then threads[target.value := Awakened(threads[target.value])] else threads;
    awakened[i := AfterUnlock(threads[i].next)]
  }

  function RunnerStep(s: State, step: RunnerAct): State
    requires CanRun(s, step)
  {
    match step
    case Start =>
      s.(idle := 1, pool := s.pool.(threads := [Entry(None)]), runner := Running,
         assertsHold := s.assertsHold && s.idle == 0)
    case CatchSignal => s.(stopping := true, runner := Raising)
    case RaiseStop => s.(flag := RaiseCounter(s.flag), runner := if s.flag.counter == 0 then WritingByte else Freezing)
    case WriteStop => s.(flag := WriteByte(s.flag), runner := Freezing)
    case Freeze => s.(pool := s.pool.(frozen := true), runner := Joining(0))
    case Join =>
      var k := s.runner.k;
      if s.runner.AwaitingExit? then s.(runner := Joining(k + 1))
      else if k >= |s.pool.threads| then s.(runner := Lowering, assertsHold := s.assertsHold && s.idle == 0)
      else if s.pool.threads[k] == Exited then s.(runner := Joining(k + 1))
      else s.(pool := s.pool.(interrupted := s.pool.interrupted + {k}), runner := AwaitingExit(k))
    case LowerStop =>
      s.(flag := LowerCounter(s.flag), runner := if s.flag.counter == 1 then ReadingByte else Finishing,
         assertsHold := s.assertsHold && s.flag.counter != 0)
    case ReadStop => s.(flag := ReadByte(s.flag), runner := Finishing)
    case Return =>
      s.(stopping := false, pool := s.pool.(frozen := false, threads := [], interrupted := {}), runner := Idle)
  }

  ghost function Apply(s: State, e: Event): State
    requires Enabled(s, e)
  {
    match e
    case Acts(i, act) => ActOf(s, i, act)
    case Notifies(i, target) => s.(pool := s.pool.(threads := Notified(s.pool.threads, i, target)))
    case Runs(step) => RunnerStep(s, step)
  }

  /** A run of the whole system. */
  ghost predicate IsRun(s: State, events: seq<Event>)
    decreases |events|
  {
    events == [] || (Enabled(s, events[0]) && IsRun(Apply(s, events[0]), events[1..]))
  }

  ghost function Final(s: State, events: seq<Event>): State
    requires IsRun(s, events)
    decreases |events|
  {
    if events == [] then s else Final(Apply(s, events[0]), events[1..])
  }

  ghost predicate Reachable(s: State) {
    exists maxThreads: nat, maxConnections: nat, events: seq<Event> ::
      IsRun(Init(maxThreads, maxConnections), events) && s == Final(Init(maxThreads, maxConnections), events)
  }
}
