/** What the invariant means for the users of the dispatcher: safety in every reachable state. */
module DispatcherSafety {
  import opened Wrappers
  import opened ClientLists
  import opened DispatcherSystem
  import opened DispatcherCounts
  import opened DispatcherInvariant

  /** At most one thread holds the core lock, and `locked_` says whether one does. */
  lemma MutualExclusion(s: State)
    requires Reachable(s)
    ensures forall i, j | 0 <= i < |s.pool.threads| && 0 <= j < |s.pool.threads| ::
              HoldsCore(s.pool.threads[i]) && HoldsCore(s.pool.threads[j]) ==> i == j
    ensures s.mutex.locked <==> exists i :: 0 <= i < |s.pool.threads| && HoldsCore(s.pool.threads[i])
  {
    ReachableInv(s);
    forall i, j | 0 <= i < |s.pool.threads| && 0 <= j < |s.pool.threads|
      && HoldsCore(s.pool.threads[i]) && HoldsCore(s.pool.threads[j]) ensures i == j
    {
      if i < j { CountPair(Critical, s.pool.threads, i, j); }
      if j < i { CountPair(Critical, s.pool.threads, j, i); }
    }
    forall i | 0 <= i < |s.pool.threads| && HoldsCore(s.pool.threads[i]) ensures s.mutex.locked {
      CountMove(Critical, s.pool.threads, i, Exited);
    }
    if s.mutex.locked {
      var i := CountWitness(Critical, s.pool.threads);
    }
  }

  /** Can this thread take the core lock, or is it about to wake up one that can? */
  predicate Rescuer(pc: PC, urgent: bool) {
    || (pc.Notifying? && pc.urgent == urgent)
    || (urgent && (pc.UWoken? || pc.ULower? || pc.URead? || pc.UTake?))
    || (!urgent && pc.NWoken?)
  }

  /**
   No wakeup is lost: while the core lock is free, a sleeping urgent waiter implies that an
   urgent waiter is awake or that a notification of urgent waiters is on its way; if there are
   no urgent waiters at all, the same holds for normal waiters.
   */
  lemma NoLostWakeup(s: State, i: nat)
    requires Reachable(s) && !s.mutex.locked
    requires i < |s.pool.threads| && (s.pool.threads[i].UWaiting? || s.pool.threads[i].NWaiting?)
    ensures exists j :: 0 <= j < |s.pool.threads| && Rescuer(s.pool.threads[j], s.mutex.urgentWaiters > 0)
    ensures s.pool.threads[i].UWaiting? ==> s.mutex.urgentWaiters > 0
  {
    ReachableInv(s);
    CountMove(UrgentWaiter, s.pool.threads, i, Exited);
    CountMove(NAsleep, s.pool.threads, i, Exited);
    var j := SomeRescuer(s.mutex, s.pool.threads);
  }

  lemma SomeRescuer(mutex: CoreMutex, threads: seq<PC>) returns (j: nat)
    requires WakeupInv(mutex, threads) && !mutex.locked && (mutex.urgentWaiters > 0 || Count(NAsleep, threads) > 0)
    ensures j < |threads| && Rescuer(threads[j], mutex.urgentWaiters > 0)
  {
    var kind := if mutex.urgentWaiters > 0
                then (if Count(UAwake, threads) > 0 then UAwake else UNotifying)
                else (if Count(NAwake, threads) > 0 then NAwake else NNotifying);
    j := CountWitness(kind, threads);
  }

  /** The counter counts the raises that have not been lowered, and the pipe mirrors whether it is zero. */
  lemma PipeMirrorsCounter(s: State)
    requires Reachable(s)
    ensures s.flag.counter == Count(Raised, s.pool.threads) + AsNat(FlagRaisedByRunner(s.runner))
    ensures s.flag.pipe + Count(Writing, s.pool.threads) + AsNat(s.runner.WritingByte?)
              - Count(Reading, s.pool.threads) - AsNat(s.runner.ReadingByte?)
            == if s.flag.counter > 0 then 1 else 0
    ensures s.mutex.internalOwner == None ==>
            s.flag.counter == s.mutex.urgentWaiters + AsNat(FlagRaisedByRunner(s.runner))
  {
    ReachableInv(s);
    if s.mutex.internalOwner == None {
      RaisedAreWaiters(s.pool.threads);
    }
  }

  lemma {:induction false} RaisedAreWaiters(threads: seq<PC>)
    requires forall i :: 0 <= i < |threads| ==> !HoldsInternal(threads[i])
    ensures Count(Raised, threads) == Count(UrgentWaiter, threads)
  {
    if threads != [] {
      RaisedAreWaiters(threads[1..]);
    }
  }

  /**
   A thread that blocks on reading the pipe finds a byte there, or the byte is about to be written; when the caller of
   `run` reads it, it is there.
   */
  lemma PipeReadsAreSatisfiable(s: State)
    requires Reachable(s)
    ensures forall i :: 0 <= i < |s.pool.threads| && s.pool.threads[i].URead? ==>
            s.flag.pipe > 0 || s.runner.WritingByte?
    ensures s.runner.ReadingByte? ==> s.flag.pipe > 0
  {
    ReachableInv(s);
    forall i | 0 <= i < |s.pool.threads| && s.pool.threads[i].URead? ensures s.flag.pipe > 0 || s.runner.WritingByte? {
      NobodyWrites(s, i);
    }
    if s.runner.ReadingByte? { CountZero(Writing, s.pool.threads); }
  }

  /** While one thread is reading the pipe, or selecting, no pool thread is in the middle of a pipe write. */
  lemma NobodyWrites(s: State, i: nat)
    requires LockInv(s.mutex, s.pool.threads) && FlagInv(s.flag, s.pool.threads, s.runner)
    requires i < |s.pool.threads| && s.pool.threads[i].URead?
    ensures Count(Writing, s.pool.threads) == 0 && Count(Reading, s.pool.threads) > 0
  {
    CountZero(Writing, s.pool.threads);
    CountMove(Reading, s.pool.threads, i, Exited);
  }

  /** A holder inside `select_client` sees the flag as long as an urgent waiter sleeps or the dispatcher stops. */
  lemma SelectorSeesTheFlag(s: State, i: nat)
    requires Reachable(s) && i < |s.pool.threads| && s.pool.threads[i].Selecting?
    requires FlagRaisedByRunner(s.runner) || exists j :: 0 <= j < |s.pool.threads| && s.pool.threads[j].UWaiting?
    ensures s.flag.counter > 0
    ensures s.flag.pipe > 0 || s.runner.WritingByte? || exists j ::
            0 <= j < |s.pool.threads| && s.pool.threads[j].UWrite?
  {
    ReachableInv(s);
    if j :| 0 <= j < |s.pool.threads| && s.pool.threads[j].UWaiting? {
      CountMove(Raised, s.pool.threads, j, Exited);
    }
    if s.flag.pipe == 0 && !s.runner.WritingByte? {
      var j := CountWitness(Writing, s.pool.threads);
      assert s.pool.threads[j].UWrite?;
    }
  }

  /** Whatever happens next, the program's asserts about the wakeup counter, the lock and the idle count hold then. */
  lemma NoAssertFails(s: State, e: Event)
    requires Reachable(s) && Enabled(s, e)
    ensures match e
            case Acts(_, Lower) => s.flag.counter != 0
            case Acts(_, Unlock) => s.mutex.locked
            case Runs(Start) => s.idle == 0
            case Runs(LowerStop) => s.flag.counter != 0
            case Runs(Join) => s.runner.Joining? && s.runner.k >= |s.pool.threads| ==> s.idle == 0
            case _ => true
  {
    ReachableInv(s);
    match e
    case Acts(i, act) =>
      CountMove(Raised, s.pool.threads, i, Exited);
      CountMove(Critical, s.pool.threads, i, Exited);
    case Runs(Start) => CountZero(IdleThread, s.pool.threads);
    case Runs(Join) =>
      if s.runner.Joining? && s.runner.k >= |s.pool.threads| { CountZero(IdleThread, s.pool.threads); }
    case _ =>
  }

  /** Every assert of the program that these steps evaluate holds. */
  lemma AssertsHold(s: State)
    requires Reachable(s)
    ensures s.assertsHold
  {
    ReachableInv(s);
  }

  /** The idle count is exact, and someone waits for requests as long as the pool may still grow. */
  lemma IdleCountIsExact(s: State)
    requires Reachable(s)
    ensures s.idle == Count(IdleThread, s.pool.threads)
    ensures s.pool.maxThreads != 0 ==> |s.pool.threads| <= s.pool.maxThreads
    ensures s.runner != Idle && !s.pool.frozen && !s.stopping
            && (s.pool.maxThreads == 0 || |s.pool.threads| < s.pool.maxThreads) ==>
              exists i :: 0 <= i < |s.pool.threads| && IsIdle(s.pool.threads[i])
  {
    ReachableInv(s);
    if s.idle > 0 {
      var i := CountWitness(IdleThread, s.pool.threads);
      assert IsIdle(s.pool.threads[i]);
    }
  }

  /** A client is handled by one thread at most; that client is on the served list and has no core callback. */
  lemma OneThreadPerClient(s: State, i: nat, c: ClientId)
    requires Reachable(s) && i < |s.pool.threads| && Charge(s.pool.threads[i]) == Some(c)
    ensures c in s.core.served && c !in s.core.monitored && c !in s.core.callbacks
    ensures forall j :: 0 <= j < |s.pool.threads| && Charge(s.pool.threads[j]) == Some(c) ==> j == i
  {
    ReachableInv(s);
    ChargedIsServed(s, i);
    ExactlyOnePlace(s.core, c);
    forall j | 0 <= j < |s.pool.threads| && Charge(s.pool.threads[j]) == Some(c) ensures j == i {
      assert Count(InCharge(c), s.pool.threads) == multiset(s.core.served)[c] <= 1;
      if i < j { CountPair(InCharge(c), s.pool.threads, i, j); }
      if j < i { CountPair(InCharge(c), s.pool.threads, j, i); }
    }
  }

  /** Conversely, every served client is some thread's charge: no client is forgotten. */
  lemma NoClientForgotten(s: State, c: ClientId)
    requires Reachable(s) && Live(s.core, c)
    ensures c in s.core.monitored ==> s.core.callbacks[c] == 1
    ensures c in s.core.served ==> exists i :: 0 <= i < |s.pool.threads| && Charge(s.pool.threads[i]) == Some(c)
    ensures (c in s.core.monitored) != (c in s.core.served)
  {
    ReachableInv(s);
    ExactlyOnePlace(s.core, c);
    if c in s.core.served {
      assert c in multiset(s.core.served);
      var i := CountWitness(InCharge(c), s.pool.threads);
      assert Charge(s.pool.threads[i]) == Some(c);
    }
  }

  lemma ConnectionLimit(s: State)
    requires Reachable(s)
    ensures s.core.maxConnections != 0 ==> |s.core.monitored| <= s.core.maxConnections
    ensures MostRecentFirst(s.core.monitored, s.core.returned)
  {
    ReachableInv(s);
  }

  /**
   After `run` has returned nothing is left behind: no thread, no raised flag, no byte in the pipe, no served client.
   */
  lemma CleanAfterRun(s: State)
    requires Reachable(s) && s.runner == Idle
    ensures s.pool.threads == [] && s.idle == 0 && s.flag == Flag(0, 0)
    ensures s.mutex == CoreMutex(None, 0, false) && s.core.served == []
  {
    ReachableInv(s);
    AllExited(s);
    forall c ensures multiset(s.core.served)[c] == 0 {
      assert Count(InCharge(c), s.pool.threads) == multiset(s.core.served)[c];
    }
    assert multiset(s.core.served) == multiset{};
    assert |multiset(s.core.served)| == |s.core.served|;
  }
}

/** The order in which threads get the core lock, and what is left to the environment. */
module DispatcherPriority {
  import opened Wrappers
  import opened ClientLists
  import opened DispatcherSystem
  import opened DispatcherInvariant

  /** A thread that is at a point where it may take the core lock, and whether it is urgent. */
  predicate MayTake(pc: PC, act: Act) {
    (act == Acquire && pc.Entry?) || (act == Recheck && pc.NWoken?)
  }

  predicate WithJob(pc: PC) {
    pc.Entry? && pc.job.Some?
  }

  /** The lock is taken only if it is free, and by a thread without a job only if no urgent thread waits. */
  lemma UrgentThreadsGoFirst(s: State, i: nat, act: Act)
    requires i < |s.pool.threads| && CanAct(s, i, s.pool.threads[i], act) && MayTake(s.pool.threads[i], act)
    ensures var s' := ActOf(s, i, act);
            && (s'.pool.threads[i].Holding? <==>
                  !s.mutex.locked && (WithJob(s.pool.threads[i]) || s.mutex.urgentWaiters == 0))
            && (s'.pool.threads[i].Holding? <==> s'.mutex.locked && !s.mutex.locked)
  {
    ActFrame(s, i, act);
  }

  /** An urgent thread that is woken up goes on exactly if the lock is free. */
  lemma WokenThreadGoesOn(s: State, i: nat)
    requires i < |s.pool.threads| && s.pool.threads[i].UWoken? && s.mutex.internalOwner == None
    ensures ActOf(s, i, Recheck).pool.threads[i]
            == if s.mutex.locked then UWaiting(s.pool.threads[i].todo) else ULower(s.pool.threads[i].todo)
  {
    ActFrame(s, i, Recheck);
  }

  /**
   What is left to the environment: a waiting thread may wake up at any time, a request may end in any way at any
   time, but it is interrupted only in a thread that was told to stop, and any client with a callback may turn out to
   be readable.
   */
  lemma EnvironmentIsFree(s: State, i: nat, outcome: Outcome, c: ClientId, status: ReadStatus)
    requires i < |s.pool.threads|
    ensures var pc := s.pool.threads[i];
            && (Enabled(s, Acts(i, Spurious)) <==> pc.UWaiting? || pc.NWaiting?)
            && (Enabled(s, Acts(i, Handled(outcome))) <==>
                  pc.Serving? && (outcome != Interrupted || i in s.pool.interrupted))
            && (Enabled(s, Acts(i, CoreReacts(ClientReady(c, status)))) <==> pc.Selecting? && c in s.core.callbacks)
            && (Enabled(s, Acts(i, CoreReacts(ListenerReady(Some(c))))) <==> pc.Selecting? && !Live(s.core, c))
  {
  }
}

/** Liveness: nobody gets stuck, the core lock is handed over, and shutdown terminates. */
module DispatcherProgress {
  import opened Wrappers
  import opened ClientLists
  import opened DispatcherSystem
  import opened DispatcherCounts
  import opened DispatcherInvariant

  /** Events that the program or its operating system is bound to perform once they are enabled. */
  predicate Prompt(s: State, e: Event) {
    match e
    case Acts(i, act) =>
      && !act.Spurious?
      && (act.CoreReacts? ==> act.what == WakeupReady(true) && s.flag.pipe > 0)
      && (act.Handled? ==> act.outcome == Interrupted)
    case Notifies(_, _) => true
    case Runs(step) => step != Start && step != CatchSignal
  }

  /** A holder waits for requests, and nobody has asked it to step aside. */
  predicate SelectingQuietly(s: State) {
    s.flag.counter == 0 && exists i :: 0 <= i < |s.pool.threads| && s.pool.threads[i].Selecting?
  }

  /** Nobody is waiting for the core lock: every thread is handling a request or has exited. */
  predicate AllBusy(s: State) {
    forall i :: 0 <= i < |s.pool.threads| ==> s.pool.threads[i].Serving? || s.pool.threads[i].Exited?
  }

  /** At these points a thread can take a step, whatever the others do, if the internal mutex is free. */
  predicate Ready(pc: PC) {
    pc.Entry? || pc.UWoken? || pc.NWoken? || pc.Holding? || pc.Unlocking?
  }

  lemma OwnerCanStep(s: State) returns (e: Event)
    requires Inv(s) && s.mutex.internalOwner.Some?
    ensures Enabled(s, e) && Prompt(s, e)
  {
    var i := s.mutex.internalOwner.value;
    var pc := s.pool.threads[i];
    if pc.URead? {
      CountZero(Writing, s.pool.threads);
      CountMove(Reading, s.pool.threads, i, Exited);
      e := if s.runner.WritingByte? then Runs(WriteStop) else Acts(i, Read);
    } else {
      e := Acts(i, if pc.URaise? then Raise else if pc.UWrite? then Write else if pc.USleep? then Sleep
                   else if pc.ULower? then Lower else Take);
    }
  }

  lemma ReadyCanStep(s: State, i: nat) returns (e: Event)
    requires s.mutex.internalOwner == None && i < |s.pool.threads| && Ready(s.pool.threads[i])
    ensures Enabled(s, e) && Prompt(s, e)
  {
    var pc := s.pool.threads[i];
    e := Acts(i, if pc.Entry? then Acquire else if pc.UWoken? || pc.NWoken? then Recheck
                 else if pc.Unlocking? then Unlock else if pc.job.Some? then Resume else CheckStop);
  }

  lemma NotifierCanStep(s: State, i: nat) returns (e: Event)
    requires i < |s.pool.threads| && s.pool.threads[i].Notifying?
    ensures Enabled(s, e) && Prompt(s, e)
  {
    if j :| 0 <= j < |s.pool.threads| && WaitsFor(s.pool.threads[j], s.pool.threads[i].urgent) {
      e := Notifies(i, Some(j));
    } else {
      e := Notifies(i, None);
    }
  }

  lemma SelectorCanStep(s: State, i: nat) returns (e: Event)
    requires Inv(s) && s.mutex.internalOwner == None
    requires i < |s.pool.threads| && s.pool.threads[i].Selecting? && s.flag.counter > 0
    ensures Enabled(s, e) && Prompt(s, e)
  {
    CountZero(Writing, s.pool.threads);
    e := if s.flag.pipe > 0 then Acts(i, CoreReacts(WakeupReady(true))) else Runs(WriteStop);
  }

  /** If only waiting threads are left besides busy ones, then nobody waits at all. */
  lemma NobodySleepsForever(s: State)
    requires Inv(s) && s.mutex.internalOwner == None
    requires forall i :: 0 <= i < |s.pool.threads| ==>
               !Ready(s.pool.threads[i]) && !s.pool.threads[i].Notifying? && !s.pool.threads[i].Selecting?
    ensures AllBusy(s)
  {
    CountZero(Critical, s.pool.threads);
    CountZero(UAwake, s.pool.threads);
    CountZero(UNotifying, s.pool.threads);
    CountZero(NAwake, s.pool.threads);
    CountZero(NNotifying, s.pool.threads);
    forall i | 0 <= i < |s.pool.threads| ensures s.pool.threads[i].Serving? || s.pool.threads[i].Exited? {
      CountMove(UrgentWaiter, s.pool.threads, i, Exited);
      CountMove(NAsleep, s.pool.threads, i, Exited);
    }
  }

  /** The dispatcher never deadlocks: unless all is quiet, some thread can take a step of its own. */
  lemma NeverStuck(s: State) returns (e: Event)
    requires Reachable(s) && !SelectingQuietly(s) && !AllBusy(s)
    ensures Enabled(s, e) && Prompt(s, e)
  {
    ReachableInv(s);
    e := SomebodyCanStep(s);
  }

  lemma SomebodyCanStep(s: State) returns (e: Event)
    requires Inv(s) && !SelectingQuietly(s) && !AllBusy(s)
    ensures Enabled(s, e) && Prompt(s, e)
  {
    if s.mutex.internalOwner.Some? {
      e := OwnerCanStep(s);
    } else if i :| 0 <= i < |s.pool.threads| && Ready(s.pool.threads[i]) {
      e := ReadyCanStep(s, i);
    } else if i :| 0 <= i < |s.pool.threads| && s.pool.threads[i].Notifying? {
      e := NotifierCanStep(s, i);
    } else if i :| 0 <= i < |s.pool.threads| && s.pool.threads[i].Selecting? {
      e := SelectorCanStep(s, i);
    } else {
      NobodySleepsForever(s);
    }
  }

  /** While `run` is shutting the dispatcher down, some thread can always take a step of its own. */
  lemma ShutdownNeverStuck(s: State) returns (e: Event)
    requires Reachable(s) && s.stopping
    ensures Enabled(s, e) && Prompt(s, e)
  {
    ReachableInv(s);
    e := ShutdownCanStep(s);
  }

  lemma ShutdownCanStep(s: State) returns (e: Event)
    requires Inv(s) && s.stopping
    ensures Enabled(s, e) && Prompt(s, e)
  {
    match s.runner
    case Raising => e := Runs(RaiseStop);
    case WritingByte => e := Runs(WriteStop);
    case Freezing => e := Runs(Freeze);
    case Joining(_) => e := Runs(Join);
    case AwaitingExit(k) =>
      if AllBusy(s) {
        e := if s.pool.threads[k] == Exited then Runs(Join) else Acts(k, Handled(Interrupted));
      } else {
        e := SomebodyCanStep(s);
      }
    case Lowering => e := Runs(LowerStop);
    case ReadingByte =>
      CountZero(Writing, s.pool.threads);
      e := Runs(ReadStop);
    case Finishing => e := Runs(Return);
  }

  // ---- a measure of the work that is left ----

  function PCRank(pc: PC): nat {
    match pc
    case Exited => 0
    case Notifying(_, next) => if next.LoopStop? then 2 else if next.LoopIdle? then 9 else 15
    case Unlocking(next) => if next.LoopStop? then 3 else if next.LoopIdle? then 10 else 16
    case Holding(job) => if job == None then 4 else 5
    case NWaiting => 5
    case NWoken => 6
    case Entry(job) => if job == None then 7 else 12
    case UTake(_) => 6
    case URead(_) => 7
    case ULower(_) => 8
    case UWaiting(_) => 8
    case UWoken(_) => 9
    case USleep(_) => 9
    case UWrite(_) => 10
    case URaise(_) => 11
    case Serving(_) => 13
    case Selecting => 26
  }

  function PoolRank(threads: seq<PC>): nat {
    if threads == [] then 0 else PCRank(threads[0]) + PoolRank(threads[1..])
  }

  function RunnerRank(r: Runner, n: nat): nat {
    match r
    case Idle => 0
    case Running => 2 * n + 9
    case Raising => 2 * n + 8
    case WritingByte => 2 * n + 7
    case Freezing => 2 * n + 6
    case Joining(k) => 2 * (if k <= n then n - k else 0) + 5
    case AwaitingExit(k) => 2 * (if k <= n then n - k else 0) + 4
    case Lowering => 3
    case ReadingByte => 2
    case Finishing => 1
  }

  /** A bound on the number of steps that the threads can still take before they need new input. */
  function Rank(s: State): nat {
    PoolRank(s.pool.threads) + RunnerRank(s.runner, |s.pool.threads|)
  }

  lemma {:induction false} RankMove(threads: seq<PC>, i: nat, pc: PC)
    requires i < |threads|
    ensures PoolRank(threads[i := pc]) == PoolRank(threads) - PCRank(threads[i]) + PCRank(pc)
  {
    if i > 0 {
      RankMove(threads[1..], i - 1, pc);
      assert threads[i := pc][1..] == threads[1..][i - 1 := pc];
    } else {
      assert threads[i := pc][1..] == threads[1..];
    }
  }

  lemma {:induction false} RankAppend(threads: seq<PC>, pc: PC)
    ensures PoolRank(threads + [pc]) == PoolRank(threads) + PCRank(pc)
  {
    if threads != [] {
      RankAppend(threads[1..], pc);
      assert (threads + [pc])[1..] == threads[1..] + [pc];
    }
  }

  lemma {:induction false} RankZero(threads: seq<PC>)
    requires forall i :: 0 <= i < |threads| ==> threads[i] == Exited
    ensures PoolRank(threads) == 0
  {
    if threads != [] {
      RankZero(threads[1..]);
    }
  }

  /**
   Steps that bring the system closer to rest; the rest are spurious wakeups, new input and the start of a new round.
   */
  predicate Working(s: State, e: Event) {
    match e
    case Acts(_, act) =>
      && !act.Spurious?
      && (act == CheckStop ==> s.stopping)
      && (act.CoreReacts? ==> Decisive(act.what))
    case Notifies(_, _) => true
    case Runs(step) => step != Start
  }

  lemma LocalRank(s: State, i: nat, pc: PC, act: Act)
    requires CanAct(s, i, pc, act) && Working(s, Acts(i, act))
    ensures PCRank(NextPC(s, i, pc, act)) + (if AddsThread(s, act) then PCRank(Entry(None)) + 2 else 0) < PCRank(pc)
  {
  }

  lemma MovedRank(threads: seq<PC>, i: nat, pc: PC, adds: bool)
    requires i < |threads|
    ensures PoolRank(Moved(threads, i, pc, adds))
            == PoolRank(threads) - PCRank(threads[i]) + PCRank(pc) + (if adds then PCRank(Entry(None)) else 0)
  {
    RankMove(threads, i, pc);
    RankAppend(threads[i := pc], Entry(None));
    assert threads[i := pc] + [] == threads[i := pc];
  }

  lemma ActLowersRank(s: State, i: nat, act: Act)
    requires RunnerInv(s.pool, s.stopping, s.runner)
    requires i < |s.pool.threads| && CanAct(s, i, s.pool.threads[i], act) && Working(s, Acts(i, act))
    ensures Rank(ActOf(s, i, act)) < Rank(s)
  {
    var threads := s.pool.threads;
    var pc' := NextPC(s, i, threads[i], act);
    LocalRank(s, i, threads[i], act);
    MovedRank(threads, i, pc', AddsThread(s, act));
    assert ActOf(s, i, act).pool.threads == Moved(threads, i, pc', AddsThread(s, act));
    ActFrame(s, i, act);
  }

  lemma NotifyLowersRank(s: State, i: nat, target: Option<nat>)
    requires CanNotify(s.pool.threads, i, target)
    ensures Rank(Apply(s, Notifies(i, target))) < Rank(s)
  {
    NotifiedRank(s.pool.threads, i, target);
  }

  lemma NotifiedRank(threads: seq<PC>, i: nat, target: Option<nat>)
    requires CanNotify(threads, i, target)
    ensures |Notified(threads, i, target)| == |threads| && PoolRank(Notified(threads, i, target)) < PoolRank(threads)
  {
    RankMove(threads, i, AfterUnlock(threads[i].next));
    if target.Some? {
      var j := target.value;
      RankMove(threads, j, Awakened(threads[j]));
      RankMove(threads[j := Awakened(threads[j])], i, AfterUnlock(threads[i].next));
    }
  }

  lemma RunnerLowersRank(s: State, step: RunnerAct)
    requires RunnerInv(s.pool, s.stopping, s.runner) && CanRun(s, step) && step != Start
    ensures Rank(RunnerStep(s, step)) < Rank(s)
  {
  }

  /** Every step of work lowers the rank. */
  lemma WorkLowersRank(s: State, e: Event)
    requires Inv(s) && Enabled(s, e) && Working(s, e)
    ensures Rank(Apply(s, e)) < Rank(s)
  {
    match e
    case Acts(i, act) => ActLowersRank(s, i, act);
    case Notifies(i, target) => NotifyLowersRank(s, i, target);
    case Runs(step) => RunnerLowersRank(s, step);
  }

  /** Steps that are not work raise the rank by one if they are a spurious wakeup, and otherwise keep it. */
  lemma OtherStepsKeepRank(s: State, e: Event)
    requires Inv(s) && Enabled(s, e) && !Working(s, e) && e != Runs(Start) && (s.stopping || e != Acts(e.i, CheckStop))
    ensures Rank(Apply(s, e)) <= Rank(s) + AsNat(e.Acts? && e.act.Spurious?)
  {
    var i, act := e.i, e.act;
    var pc' := NextPC(s, i, s.pool.threads[i], act);
    MovedRank(s.pool.threads, i, pc', AddsThread(s, act));
    assert ActOf(s, i, act).pool.threads == Moved(s.pool.threads, i, pc', AddsThread(s, act));
  }

  ghost function WorkDone(s: State, events: seq<Event>): nat
    requires IsRun(s, events)
    decreases |events|
  {
    if events == [] then 0 else AsNat(Working(s, events[0])) + WorkDone(Apply(s, events[0]), events[1..])
  }

  function SpuriousWakeups(events: seq<Event>): nat {
    if events == [] then 0 else AsNat(events[0].Acts? && events[0].act.Spurious?) + SpuriousWakeups(events[1..])
  }

  lemma ShutdownStep(s: State, e: Event)
    requires Inv(s) && (s.stopping || s.runner == Idle) && Enabled(s, e) && e != Runs(Start)
    ensures Apply(s, e).stopping || Apply(s, e).runner == Idle
    ensures AsNat(Working(s, e)) + Rank(Apply(s, e)) <= Rank(s) + AsNat(e.Acts? && e.act.Spurious?)
  {
    if Working(s, e) {
      WorkLowersRank(s, e);
    } else {
      OtherStepsKeepRank(s, e);
    }
  }

  /**
   Shutdown terminates: from the moment the stop flag is set, and until `run` is called again,
   the threads together take no more than `Rank(s)` steps of work, plus one for every spurious
   wakeup, whatever the schedule and whatever requests still come in.
   */
  lemma {:induction false} ShutdownIsBounded(s: State, events: seq<Event>)
    requires Inv(s) && (s.stopping || s.runner == Idle) && IsRun(s, events)
    requires Runs(Start) !in events
    ensures WorkDone(s, events) <= Rank(s) + SpuriousWakeups(events)
    decreases |events|
  {
    if events != [] {
      StepKeepsInv(s, events[0]);
      ShutdownStep(s, events[0]);
      ShutdownIsBounded(Apply(s, events[0]), events[1..]);
    }
  }

  // ---- the core lock is handed over ----

  /** The thread is on its way to the core lock. */
  predicate Wants(pc: PC) {
    pc.Entry? || Urgent(pc) || pc.NWaiting? || pc.NWoken?
  }

  /** The core lock is free, and thread `i` wants it. */
  ghost predicate Wanted(s: State, i: nat) {
    forall key {:trigger Opened(key)} :: Opened(key) ==>
      Inv(s) && !s.mutex.locked && i < |s.pool.threads| && Wants(s.pool.threads[i])
  }

  ghost predicate StepsTo(s: State, e: Event, s': State) {
    forall key {:trigger Opened(key)} :: Opened(key) ==> Enabled(s, e) && Apply(s, e) == s'
  }

  ghost predicate LeadsTo(s: State, events: seq<Event>, final: State) {
    forall key {:trigger Opened(key)} :: Opened(key) ==> IsRun(s, events) && Final(s, events) == final
  }

  predicate IsSpurious(e: Event) {
    e.Acts? && e.act.Spurious?
  }

  /** Nobody is bound to act. */
  ghost predicate AtRest(s: State) {
    forall key {:trigger Opened(key)} :: Opened(key) ==> forall e :: Enabled(s, e) ==> !Prompt(s, e)
  }

  lemma WantedIsNotStart(s: State, i: nat, e: Event)
    requires RunnerInv(s.pool, s.stopping, s.runner) && Enabled(s, e)
    requires i < |s.pool.threads| && Wants(s.pool.threads[i])
    ensures e != Runs(Start) && e != Runs(Return)
  {
  }

  lemma ActStillWanted(s: State, i: nat, act: Act)
    requires i < |s.pool.threads| && CanAct(s, i, s.pool.threads[i], act) && !s.mutex.locked && Wants(s.pool.threads[i])
    requires !NextMutex(s.mutex, i, s.pool.threads[i], NextPC(s, i, s.pool.threads[i], act), act).locked
    ensures Wants(NextPC(s, i, s.pool.threads[i], act))
  {
  }

  /** While the core lock is free, a thread that wants it goes on wanting it. */
  lemma StillWanted(s: State, i: nat, e: Event)
    requires RunnerInv(s.pool, s.stopping, s.runner) && LockInv(s.mutex, s.pool.threads) && Enabled(s, e)
    requires !s.mutex.locked && i < |s.pool.threads| && Wants(s.pool.threads[i]) && !Apply(s, e).mutex.locked
    ensures i < |Apply(s, e).pool.threads| && Wants(Apply(s, e).pool.threads[i])
  {
    WantedIsNotStart(s, i, e);
    match e
    case Acts(j, act) =>
      ActFrame(s, j, act);
      if i == j { ActStillWanted(s, i, act); }
    case Notifies(_, _) =>
    case Runs(_) =>
  }

  /** While the core lock is free, every step is one of work, or a spurious wakeup. */
  lemma FreeStepIsWork(s: State, i: nat, e: Event)
    requires Inv(s) && !s.mutex.locked && i < |s.pool.threads| && Wants(s.pool.threads[i]) && Enabled(s, e)
    ensures Working(s, e) || IsSpurious(e)
  {
    WantedIsNotStart(s, i, e);
    if e.Acts? { CountMove(Critical, s.pool.threads, e.i, Exited); }
  }

  /** So every step takes the lock, or leaves it free and wanted and lowers the rank, or is spurious. */
  lemma WantedStep(s: State, i: nat, events: seq<Event>, final: State) returns (s': State)
    requires Wanted(s, i) && LeadsTo(s, events, final) && events != []
    ensures StepsTo(s, events[0], s') && (s'.mutex.locked || Wanted(s', i))
    ensures LeadsTo(s', events[1..], final)
    ensures SpuriousWakeups(events) == AsNat(IsSpurious(events[0])) + SpuriousWakeups(events[1..])
    ensures if IsSpurious(events[0]) then !s'.mutex.locked && Rank(s') <= Rank(s) + 1 else Rank(s') < Rank(s)
  {
    assert Opened(true);
    var e := events[0];
    s' := Apply(s, e);
    StepKeepsInv(s, e);
    FreeStepIsWork(s, i, e);
    if !s'.mutex.locked { StillWanted(s, i, e); }
    if Working(s, e) { WorkLowersRank(s, e); } else { OtherStepsKeepRank(s, e); }
  }

  lemma WantedIsNotAtRest(s: State, i: nat, final: State)
    requires Wanted(s, i) && LeadsTo(s, [], final)
    ensures !AtRest(final)
  {
    assert Opened(true);
    CountZeroIfFree(s);
    var e := SomebodyCanStep(s);
  }

  lemma CountZeroIfFree(s: State)
    requires Inv(s) && !s.mutex.locked
    ensures forall j :: 0 <= j < |s.pool.threads| ==> !HoldsCore(s.pool.threads[j])
  {
    forall j | 0 <= j < |s.pool.threads| ensures !HoldsCore(s.pool.threads[j]) {
      CountMove(Critical, s.pool.threads, j, Exited);
    }
  }

  lemma FirstStep(s: State, events: seq<Event>, s': State, k: nat, taken: State)
    requires k < |events| && StepsTo(s, events[0], s') && LeadsTo(s', events[1..][..k], taken)
    ensures LeadsTo(s, events[..k + 1], taken)
    ensures SpuriousWakeups(events[..k + 1]) == AsNat(IsSpurious(events[0])) + SpuriousWakeups(events[1..][..k])
  {
    assert Opened(true);
    assert events[..k + 1][1..] == events[1..][..k];
  }

  lemma NoStep(s: State, events: seq<Event>)
    requires events == []
    ensures LeadsTo(s, events, s) && SpuriousWakeups(events) == 0
  {
  }

  lemma {:induction false} Handover(s: State, i: nat, events: seq<Event>, final: State) returns (k: nat, taken: State)
    requires Wanted(s, i) && LeadsTo(s, events, final)
    requires AtRest(final) || |events| > Rank(s) + 2 * SpuriousWakeups(events)
    ensures 0 < k <= |events| && LeadsTo(s, events[..k], taken) && taken.mutex.locked
    ensures k <= Rank(s) + 2 * SpuriousWakeups(events[..k]) + 1
    decreases |events|
  {
    if events == [] { WantedIsNotAtRest(s, i, final); }
    var s' := WantedStep(s, i, events, final);
    if s'.mutex.locked {
      k, taken := 0, s';
      NoStep(s', events[1..][..0]);
    } else {
      k, taken := Handover(s', i, events[1..], final);
    }
    FirstStep(s, events, s', k, taken);
    k := k + 1;
  }

  /**
   Handover: when the core lock is free and some thread wants it, then in every run some thread takes it, whatever the
   schedule and whatever else happens. It does so within `Rank(s) + 1` steps, plus two for every spurious wakeup, if
   the run goes on for so long, or else before nobody is bound to act.
   */
  lemma LockIsHandedOver(s: State, i: nat, events: seq<Event>) returns (k: nat)
    requires Inv(s) && !s.mutex.locked && i < |s.pool.threads| && Wants(s.pool.threads[i]) && IsRun(s, events)
    requires AtRest(Final(s, events)) || |events| > Rank(s) + 2 * SpuriousWakeups(events)
    ensures 0 < k <= |events| && IsRun(s, events[..k]) && Final(s, events[..k]).mutex.locked
    ensures k <= Rank(s) + 2 * SpuriousWakeups(events[..k]) + 1
  {
    var taken;
    k, taken := Handover(s, i, events, Final(s, events));
    assert Opened(true);
  }

  /** A dispatcher that has just been started is in such a state. */
  lemma StartedWantsTheLock(maxThreads: nat, maxConnections: nat) returns (s: State)
    ensures IsRun(Init(maxThreads, maxConnections), [Runs(Start)])
    ensures s == Final(Init(maxThreads, maxConnections), [Runs(Start)])
    ensures Inv(s) && !s.mutex.locked && |s.pool.threads| == 1 && Wants(s.pool.threads[0])
  {
    var initial := Init(maxThreads, maxConnections);
    InitEstablishesInv(maxThreads, maxConnections);
    StepKeepsInv(initial, Runs(Start));
    s := Apply(initial, Runs(Start));
    assert [Runs(Start)][1..] == [];
  }

  lemma SomethingIsEnabled(s: State) returns (e: Event)
    requires Inv(s)
    ensures Enabled(s, e) && !IsSpurious(e)
  {
    if s.runner == Idle {
      e := Runs(Start);
    } else if s.runner == Running {
      e := Runs(CatchSignal);
    } else {
      e := ShutdownCanStep(s);
    }
  }

  /** Every run goes on: from every state there are runs of every length, and without spurious wakeups. */
  lemma {:induction false} RunsGoOn(s: State, n: nat) returns (events: seq<Event>)
    requires Inv(s)
    ensures IsRun(s, events) && |events| == n && SpuriousWakeups(events) == 0
    decreases n
  {
    events := [];
    if n > 0 {
      var e := SomethingIsEnabled(s);
      StepKeepsInv(s, e);
      var others := RunsGoOn(Apply(s, e), n - 1);
      events := [e] + others;
      assert events[1..] == others;
    }
  }
}
