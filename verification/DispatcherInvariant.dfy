/**
 The inductive invariant of the dispatcher, and the proof that every event keeps it.

 Every conjunct relates a shared variable to the number of threads at certain program points.
 The lemmas named `Local...` say how one thread's step changes the shared variable; `CountMove`
 says how the same step changes the number of threads.
 */
module DispatcherInvariant {
  import opened Wrappers
  import opened ClientLists
  import opened DispatcherSystem
  import opened DispatcherCounts

  predicate FlagRaisedByRunner(r: Runner) {
    r.WritingByte? || r.Freezing? || r.Joining? || r.AwaitingExit? || r.Lowering?
  }

  predicate BeforeSleep(pc: PC) {
    pc.URaise? || pc.UWrite? || pc.USleep?
  }

  predicate Joined(r: Runner) {
    r.Lowering? || r.ReadingByte? || r.Finishing?
  }

  /** The core lock has one holder at most, and the internal mutex is held by exactly its owner. */
  ghost predicate LockInv(mutex: CoreMutex, threads: seq<PC>) {
    && Count(Critical, threads) == AsNat(mutex.locked)
    && Count(UrgentWaiter, threads) == mutex.urgentWaiters
    && (forall i :: 0 <= i < |threads| && HoldsInternal(threads[i]) ==> mutex.internalOwner == Some(i))
    && (mutex.internalOwner.Some? ==>
          && mutex.internalOwner.value < |threads|
          && HoldsInternal(threads[mutex.internalOwner.value])
          && mutex.locked == BeforeSleep(threads[mutex.internalOwner.value]))
  }

  /** While the core lock is free, somebody who may take it is awake or about to be woken up. */
  ghost predicate WakeupInv(mutex: CoreMutex, threads: seq<PC>) {
    && (!mutex.locked && mutex.urgentWaiters > 0 ==> Count(UAwake, threads) + Count(UNotifying, threads) > 0)
    && (!mutex.locked && mutex.urgentWaiters == 0 && Count(NAsleep, threads) > 0 ==>
          Count(NAwake, threads) + Count(NNotifying, threads) > 0)
  }

  /** The wakeup flag's counter and its pipe. */
  ghost predicate FlagInv(flag: Flag, threads: seq<PC>, r: Runner) {
    && flag.counter == Count(Raised, threads) + AsNat(FlagRaisedByRunner(r))
    && flag.pipe + Count(Writing, threads) + AsNat(r.WritingByte?)
       == AsNat(flag.counter > 0) + Count(Reading, threads) + AsNat(r.ReadingByte?)
  }

  ghost predicate RunnerInv(pool: Pool, stopping: bool, r: Runner) {
    && (r == Idle <==> pool.threads == [])
    && (stopping <==> !r.Idle? && !r.Running?)
    && (pool.frozen <==> r.Joining? || r.AwaitingExit? || Joined(r))
    && (r.Joining? || r.AwaitingExit? ==>
          r.k <= |pool.threads| && forall j :: 0 <= j < r.k ==> pool.threads[j] == Exited)
    && (r.AwaitingExit? ==> r.k < |pool.threads| && r.k in pool.interrupted)
    && (Joined(r) ==> forall j :: 0 <= j < |pool.threads| ==> pool.threads[j] == Exited)
  }

  /** The thread pool and its idle count. */
  ghost predicate PoolInv(idle: int, pool: Pool, stopping: bool, r: Runner) {
    && idle == Count(IdleThread, pool.threads)
    && (r != Idle && idle == 0 ==> PoolFull(pool) || stopping)
    && (pool.maxThreads != 0 ==> |pool.threads| <= pool.maxThreads)
  }

  /** Served clients are exactly those that some thread is in charge of. */
  ghost predicate ClientInv(core: Core, threads: seq<PC>) {
    && Valid(core)
    && forall c :: Count(InCharge(c), threads) == multiset(core.served)[c]
  }

  ghost predicate Inv(s: State) {
    && LockInv(s.mutex, s.pool.threads)
    && WakeupInv(s.mutex, s.pool.threads)
    && FlagInv(s.flag, s.pool.threads, s.runner)
    && RunnerInv(s.pool, s.stopping, s.runner)
    && PoolInv(s.idle, s.pool, s.stopping, s.runner)
    && ClientInv(s.core, s.pool.threads)
    && s.assertsHold
  }

  // ---- what one step of a thread does to the shared variables ----

  lemma LocalLock(s: State, i: nat, pc: PC, act: Act)
    requires CanAct(s, i, pc, act)
    requires Weight(Critical, pc) <= AsNat(s.mutex.locked) && Weight(UrgentWaiter, pc) <= s.mutex.urgentWaiters
    requires HoldsInternal(pc) ==> s.mutex.internalOwner == Some(i) && s.mutex.locked == BeforeSleep(pc)
    ensures var pc' := NextPC(s, i, pc, act);
            var mutex' := NextMutex(s.mutex, i, pc, pc', act);
            && AsNat(mutex'.locked) == AsNat(s.mutex.locked) - Weight(Critical, pc) + Weight(Critical, pc')
            && mutex'.urgentWaiters == s.mutex.urgentWaiters - Weight(UrgentWaiter, pc) + Weight(UrgentWaiter, pc')
            && OwnerMoves(s.mutex, mutex', i, pc, pc')
  {
  }

  lemma LocalFlag(s: State, i: nat, pc: PC, act: Act)
    requires CanAct(s, i, pc, act)
    requires Weight(Raised, pc) <= s.flag.counter
    ensures var pc', flag' := NextPC(s, i, pc, act), NextFlag(s.flag, act);
            && flag'.counter == s.flag.counter - Weight(Raised, pc) + Weight(Raised, pc')
            && flag'.pipe - Weight(Writing, pc) + Weight(Writing, pc') + AsNat(s.flag.counter > 0)
               == s.flag.pipe - Weight(Reading, pc) + Weight(Reading, pc') + AsNat(flag'.counter > 0)
  {
  }

  lemma LocalIdle(s: State, i: nat, pc: PC, act: Act)
    requires CanAct(s, i, pc, act)
    ensures NextIdle(s, act)
            == s.idle - Weight(IdleThread, pc) + Weight(IdleThread, NextPC(s, i, pc, act)) + AsNat(AddsThread(s, act))
  {
  }

  lemma LocalResume(core: Core, job: Job, c: ClientId)
    requires job.client in core.served && Valid(core)
    ensures Valid(ResumeMonitoring(core, job.client, job.outcome))
    ensures multiset(ResumeMonitoring(core, job.client, job.outcome).served)[c]
            == multiset(core.served)[c] - AsNat(job.client == c)
  {
    ResumeKeepsValid(core, job.client, job.outcome);
    assert job.client in multiset(core.served);
  }

  lemma LocalReact(core: Core, what: CoreEvent, c: ClientId)
    requires Possible(core, what) && Valid(core)
    ensures Valid(React(core, what))
    ensures multiset(React(core, what).served)[c] == multiset(core.served)[c] + AsNat(Selection(what) == Some(c))
  {
    EventServesSelection(core, what);
  }

  lemma LocalCharge(s: State, i: nat, pc: PC, act: Act, c: ClientId)
    requires CanAct(s, i, pc, act)
    ensures Weight(InCharge(c), NextPC(s, i, pc, act))
            == Weight(InCharge(c), pc) - AsNat(act == Resume && pc.job.value.client == c)
                + AsNat(Selects(act) && act.what.client == c)
  {
  }

  /** The counts that decide whether a wakeup can be lost. */
  datatype Wakers = Wakers(uAwake: nat, uNotifying: nat, nAsleep: nat, nAwake: nat, nNotifying: nat)

  function WakersOf(threads: seq<PC>): Wakers {
    Wakers(Count(UAwake, threads), Count(UNotifying, threads), Count(NAsleep, threads), Count(NAwake, threads),
        Count(NNotifying, threads))
  }

  predicate NoneLost(mutex: CoreMutex, w: Wakers) {
    && (!mutex.locked && mutex.urgentWaiters > 0 ==> w.uAwake + w.uNotifying > 0)
    && (!mutex.locked && mutex.urgentWaiters == 0 && w.nAsleep > 0 ==> w.nAwake + w.nNotifying > 0)
  }

  predicate Covers(w: Wakers, pc: PC) {
    && Weight(UAwake, pc) <= w.uAwake && Weight(UNotifying, pc) <= w.uNotifying
    && Weight(NAsleep, pc) <= w.nAsleep && Weight(NAwake, pc) <= w.nAwake && Weight(NNotifying, pc) <= w.nNotifying
  }

  function Shift(w: Wakers, pc: PC, pc': PC): Wakers
    requires Covers(w, pc)
  {
    Wakers(w.uAwake - Weight(UAwake, pc) + Weight(UAwake, pc'),
           w.uNotifying - Weight(UNotifying, pc) + Weight(UNotifying, pc'),
           w.nAsleep - Weight(NAsleep, pc) + Weight(NAsleep, pc'),
           w.nAwake - Weight(NAwake, pc) + Weight(NAwake, pc'),
           w.nNotifying - Weight(NNotifying, pc) + Weight(NNotifying, pc'))
  }

  lemma LocalWakeup(s: State, i: nat, pc: PC, act: Act, w: Wakers)
    requires CanAct(s, i, pc, act) && Covers(w, pc) && NoneLost(s.mutex, w)
    requires Weight(Critical, pc) <= AsNat(s.mutex.locked)
    ensures NoneLost(NextMutex(s.mutex, i, pc, NextPC(s, i, pc, act), act), Shift(w, pc, NextPC(s, i, pc, act)))
  {
  }

  // ---- the same for all threads together ----

  /** One thread moves, and another one may be added at the end of the pool. */
  function Moved(threads: seq<PC>, i: nat, pc: PC, adds: bool): seq<PC>
    requires i < |threads|
  {
    threads[i := pc] + if adds then [Entry(None)] else []
  }

  lemma MovedCount(threads: seq<PC>, i: nat, pc: PC, adds: bool, kind: Kind)
    requires i < |threads|
    ensures Count(kind, Moved(threads, i, pc, adds))
            == Count(kind, threads) - Weight(kind, threads[i]) + Weight(kind, pc)
               + if adds then Weight(kind, Entry(None)) else 0
    ensures Weight(kind, threads[i]) <= Count(kind, threads)
  {
    CountMove(kind, threads, i, pc);
    CountAppend(kind, threads[i := pc], Entry(None));
    assert threads[i := pc] + [] == threads[i := pc];
  }

  lemma ActCount(s: State, i: nat, act: Act, kind: Kind)
    requires i < |s.pool.threads| && CanAct(s, i, s.pool.threads[i], act)
    requires Weight(kind, Entry(None)) == 0 || !AddsThread(s, act)
    ensures Count(kind, ActOf(s, i, act).pool.threads)
            == Count(kind, s.pool.threads) - Weight(kind, s.pool.threads[i])
                + Weight(kind, NextPC(s, i, s.pool.threads[i], act))
    ensures Weight(kind, s.pool.threads[i]) <= Count(kind, s.pool.threads)
  {
    MovedCount(s.pool.threads, i, NextPC(s, i, s.pool.threads[i], act), AddsThread(s, act), kind);
  }

  lemma ActFrame(s: State, i: nat, act: Act)
    requires i < |s.pool.threads| && CanAct(s, i, s.pool.threads[i], act)
    ensures var threads' := ActOf(s, i, act).pool.threads;
            && |threads'| == |s.pool.threads| + AsNat(AddsThread(s, act))
            && threads'[i] == NextPC(s, i, s.pool.threads[i], act)
            && (forall j :: 0 <= j < |s.pool.threads| && j != i ==> threads'[j] == s.pool.threads[j])
            && (AddsThread(s, act) ==> threads'[|s.pool.threads|] == Entry(None))
  {
  }

  /** The owner of the internal mutex is the thread that moves, or does not change. */
  ghost predicate OwnerMoves(mutex: CoreMutex, mutex': CoreMutex, i: nat, pc: PC, pc': PC) {
    && (HoldsInternal(pc') ==> mutex'.internalOwner == Some(i) && mutex'.locked == BeforeSleep(pc'))
    && (HoldsInternal(pc) || HoldsInternal(pc') ==> mutex.internalOwner in {None, Some(i)})
    && (mutex' == mutex || mutex.internalOwner in {None, Some(i)})
    && (HoldsInternal(pc) && !HoldsInternal(pc') ==> mutex'.internalOwner == None)
    && (!HoldsInternal(pc) && !HoldsInternal(pc') ==> mutex'.internalOwner == mutex.internalOwner)
  }

  lemma MovedLockInv(mutex: CoreMutex, mutex': CoreMutex, threads: seq<PC>, threads': seq<PC>, i: nat)
    requires LockInv(mutex, threads) && i < |threads| <= |threads'|
    requires Count(Critical, threads') == AsNat(mutex'.locked) && Count(UrgentWaiter, threads') == mutex'.urgentWaiters
    requires forall j :: 0 <= j < |threads| && j != i ==> threads'[j] == threads[j]
    requires forall j :: |threads| <= j < |threads'| ==> threads'[j] == Entry(None)
    requires OwnerMoves(mutex, mutex', i, threads[i], threads'[i])
    ensures LockInv(mutex', threads')
  {
  }

  lemma ActKeepsLockInv(s: State, i: nat, act: Act)
    requires LockInv(s.mutex, s.pool.threads)
    requires i < |s.pool.threads| && CanAct(s, i, s.pool.threads[i], act)
    ensures LockInv(ActOf(s, i, act).mutex, ActOf(s, i, act).pool.threads)
  {
    ActCount(s, i, act, Critical);
    ActCount(s, i, act, UrgentWaiter);
    LocalLock(s, i, s.pool.threads[i], act);
    ActFrame(s, i, act);
    MovedLockInv(s.mutex, ActOf(s, i, act).mutex, s.pool.threads, ActOf(s, i, act).pool.threads, i);
  }

  lemma MovedWakers(threads: seq<PC>, i: nat, pc: PC, adds: bool)
    requires i < |threads|
    ensures Covers(WakersOf(threads), threads[i])
            && WakersOf(Moved(threads, i, pc, adds)) == Shift(WakersOf(threads), threads[i], pc)
  {
    MovedCount(threads, i, pc, adds, UAwake);
    MovedCount(threads, i, pc, adds, UNotifying);
    MovedCount(threads, i, pc, adds, NAsleep);
    MovedCount(threads, i, pc, adds, NAwake);
    MovedCount(threads, i, pc, adds, NNotifying);
  }

  lemma ActKeepsWakeupInv(s: State, i: nat, act: Act)
    requires Count(Critical, s.pool.threads) == AsNat(s.mutex.locked) && WakeupInv(s.mutex, s.pool.threads)
    requires i < |s.pool.threads| && CanAct(s, i, s.pool.threads[i], act)
    ensures WakeupInv(ActOf(s, i, act).mutex, ActOf(s, i, act).pool.threads)
  {
    CountMove(Critical, s.pool.threads, i, Exited);
    MovedWakers(s.pool.threads, i, NextPC(s, i, s.pool.threads[i], act), AddsThread(s, act));
    LocalWakeup(s, i, s.pool.threads[i], act, WakersOf(s.pool.threads));
  }

  lemma ActKeepsFlagInv(s: State, i: nat, act: Act)
    requires FlagInv(s.flag, s.pool.threads, s.runner)
    requires i < |s.pool.threads| && CanAct(s, i, s.pool.threads[i], act)
    ensures FlagInv(ActOf(s, i, act).flag, ActOf(s, i, act).pool.threads, s.runner)
    ensures act == Lower ==> s.flag.counter > 0
  {
    ActCount(s, i, act, Raised);
    ActCount(s, i, act, Writing);
    ActCount(s, i, act, Reading);
    LocalFlag(s, i, s.pool.threads[i], act);
  }

  lemma ActKeepsPoolInv(s: State, i: nat, act: Act)
    requires PoolInv(s.idle, s.pool, s.stopping, s.runner)
    requires i < |s.pool.threads| && CanAct(s, i, s.pool.threads[i], act)
    ensures PoolInv(ActOf(s, i, act).idle, ActOf(s, i, act).pool, s.stopping, s.runner)
  {
    var pc' := NextPC(s, i, s.pool.threads[i], act);
    MovedCount(s.pool.threads, i, pc', AddsThread(s, act), IdleThread);
    LocalIdle(s, i, s.pool.threads[i], act);
  }

  lemma ActKeepsRunnerInv(s: State, i: nat, act: Act)
    requires RunnerInv(s.pool, s.stopping, s.runner)
    requires i < |s.pool.threads| && CanAct(s, i, s.pool.threads[i], act)
    ensures RunnerInv(ActOf(s, i, act).pool, s.stopping, s.runner)
  {
    ActFrame(s, i, act);
    assert s.pool.threads[i] != Exited;
  }

  lemma NextCoreIsValid(s: State, i: nat, act: Act, c: ClientId)
    requires ClientInv(s.core, s.pool.threads)
    requires i < |s.pool.threads| && CanAct(s, i, s.pool.threads[i], act)
    ensures var pc, core' := s.pool.threads[i], NextCore(s.core, s.pool.threads[i], act);
            && Valid(core')
            && multiset(core'.served)[c] == multiset(s.core.served)[c]
                 - AsNat(act == Resume && pc.job.value.client == c) + AsNat(Selects(act) && act.what.client == c)
  {
    if act == Resume {
      ChargedIsServed(s, i);
      LocalResume(s.core, s.pool.threads[i].job.value, c);
    } else if act.CoreReacts? {
      LocalReact(s.core, act.what, c);
    }
  }

  lemma ActKeepsCharge(s: State, i: nat, act: Act, c: ClientId)
    requires ClientInv(s.core, s.pool.threads)
    requires i < |s.pool.threads| && CanAct(s, i, s.pool.threads[i], act)
    ensures Valid(ActOf(s, i, act).core)
    ensures Count(InCharge(c), ActOf(s, i, act).pool.threads) == multiset(ActOf(s, i, act).core.served)[c]
  {
    NextCoreIsValid(s, i, act, c);
    ChargeMoves(s, i, act, c);
  }

  lemma ChargeMoves(s: State, i: nat, act: Act, c: ClientId)
    requires i < |s.pool.threads| && CanAct(s, i, s.pool.threads[i], act)
    ensures Count(InCharge(c), ActOf(s, i, act).pool.threads) == Count(InCharge(c), s.pool.threads)
            - AsNat(act == Resume && s.pool.threads[i].job.value.client == c)
                + AsNat(Selects(act) && act.what.client == c)
  {
    ActCount(s, i, act, InCharge(c));
    LocalCharge(s, i, s.pool.threads[i], act, c);
  }

  lemma ActKeepsClientInv(s: State, i: nat, act: Act)
    requires ClientInv(s.core, s.pool.threads)
    requires i < |s.pool.threads| && CanAct(s, i, s.pool.threads[i], act)
    ensures ClientInv(ActOf(s, i, act).core, ActOf(s, i, act).pool.threads)
  {
    ActKeepsCharge(s, i, act, 0);
    forall c ensures Count(InCharge(c), ActOf(s, i, act).pool.threads) == multiset(ActOf(s, i, act).core.served)[c] {
      ActKeepsCharge(s, i, act, c);
    }
  }

  /** The client that a thread is in charge of is on the served list. */
  lemma ChargedIsServed(s: State, i: nat)
    requires ClientInv(s.core, s.pool.threads)
    requires i < |s.pool.threads| && Charge(s.pool.threads[i]).Some?
    ensures Charge(s.pool.threads[i]).value in s.core.served
  {
    var c := Charge(s.pool.threads[i]).value;
    CountMove(InCharge(c), s.pool.threads, i, Exited);
    assert c in multiset(s.core.served);
  }

  // ---- notification ----

  /** The effect of a notification on a count. */
  lemma NotifyCount(threads: seq<PC>, i: nat, target: Option<nat>, kind: Kind)
    requires CanNotify(threads, i, target)
    ensures Count(kind, Notified(threads, i, target))
            == Count(kind, threads) - Weight(kind, threads[i]) + Weight(kind, AfterUnlock(threads[i].next))
               + if target == None then 0
                 else Weight(kind, Awakened(threads[target.value])) - Weight(kind, threads[target.value])
    ensures Weight(kind, threads[i]) <= Count(kind, threads)
    ensures target.Some? ==> Weight(kind, threads[target.value]) + Weight(kind, threads[i]) <= Count(kind, threads)
  {
    CountMove(kind, threads, i, AfterUnlock(threads[i].next));
    if target.Some? {
      var j := target.value;
      CountMove(kind, threads, j, Awakened(threads[j]));
      CountMove(kind, threads[j := Awakened(threads[j])], i, AfterUnlock(threads[i].next));
      if i < j { CountPair(kind, threads, i, j); } else { CountPair(kind, threads, j, i); }
    }
  }

  lemma NotifyFrame(threads: seq<PC>, i: nat, target: Option<nat>)
    requires CanNotify(threads, i, target)
    ensures |Notified(threads, i, target)| == |threads|
    ensures forall j :: 0 <= j < |threads| && (threads[j] == Exited || HoldsInternal(threads[j])) ==>
            Notified(threads, i, target)[j] == threads[j]
    ensures forall j :: 0 <= j < |threads| && HoldsInternal(Notified(threads, i, target)[j]) ==>
            HoldsInternal(threads[j])
  {
  }

  lemma NotifyKeepsLockInv(mutex: CoreMutex, threads: seq<PC>, i: nat, target: Option<nat>)
    requires LockInv(mutex, threads) && CanNotify(threads, i, target)
    ensures LockInv(mutex, Notified(threads, i, target))
  {
    NotifyCount(threads, i, target, Critical);
    NotifyCount(threads, i, target, UrgentWaiter);
    NotifyFrame(threads, i, target);
  }

  /** If a notification finds nobody asleep, every thread it could have been for is awake. */
  lemma NobodyToNotify(mutex: CoreMutex, threads: seq<PC>, urgent: bool)
    requires LockInv(mutex, threads) && !mutex.locked
    requires forall j :: 0 <= j < |threads| ==> !WaitsFor(threads[j], urgent)
    ensures urgent ==> Count(UAwake, threads) == mutex.urgentWaiters
    ensures !urgent ==> Count(NAsleep, threads) == 0
  {
    if urgent {
      CountZero(UAsleep, threads);
      CountZero(UArriving, threads);
      UrgentWaitersSplit(threads);
    } else {
      CountZero(NAsleep, threads);
    }
  }

  /** What a notification adds to the counts that decide whether a wakeup can be lost. */
  function NotifyEffect(kind: Kind, urgent: bool, wakes: bool): int {
    match kind
    case UAwake => AsNat(urgent && wakes)
    case UNotifying => 0 - AsNat(urgent)
    case NAsleep => 0 - AsNat(!urgent && wakes)
    case NAwake => AsNat(!urgent && wakes)
    case NNotifying => 0 - AsNat(!urgent)
    case _ => 0
  }

  lemma NotifyWakers(threads: seq<PC>, i: nat, target: Option<nat>, kind: Kind)
    requires CanNotify(threads, i, target) && kind in {UAwake, UNotifying, NAsleep, NAwake, NNotifying}
    ensures Count(kind, Notified(threads, i, target))
            == Count(kind, threads) + NotifyEffect(kind, threads[i].urgent, target.Some?)
  {
    NotifyCount(threads, i, target, kind);
  }

  lemma NotifyKeepsWakeupInv(mutex: CoreMutex, threads: seq<PC>, i: nat, target: Option<nat>)
    requires LockInv(mutex, threads) && WakeupInv(mutex, threads) && CanNotify(threads, i, target)
    ensures WakeupInv(mutex, Notified(threads, i, target))
  {
    if !mutex.locked {
      if target == None { NobodyToNotify(mutex, threads, threads[i].urgent); }
      NotifyWakers(threads, i, target, UAwake);
      NotifyWakers(threads, i, target, UNotifying);
      NotifyWakers(threads, i, target, NAsleep);
      NotifyWakers(threads, i, target, NAwake);
      NotifyWakers(threads, i, target, NNotifying);
    }
  }

  lemma NotifyKeepsFlagInv(flag: Flag, r: Runner, threads: seq<PC>, i: nat, target: Option<nat>)
    requires FlagInv(flag, threads, r) && CanNotify(threads, i, target)
    ensures FlagInv(flag, Notified(threads, i, target), r)
  {
    NotifyCount(threads, i, target, Raised);
    NotifyCount(threads, i, target, Writing);
    NotifyCount(threads, i, target, Reading);
  }

  lemma NotifyKeepsPool(s: State, i: nat, target: Option<nat>)
    requires RunnerInv(s.pool, s.stopping, s.runner) && PoolInv(s.idle, s.pool, s.stopping, s.runner)
    requires CanNotify(s.pool.threads, i, target)
    ensures RunnerInv(s.pool.(threads := Notified(s.pool.threads, i, target)), s.stopping, s.runner)
    ensures PoolInv(s.idle, s.pool.(threads := Notified(s.pool.threads, i, target)), s.stopping, s.runner)
  {
    NotifyFrame(s.pool.threads, i, target);
    NotifyKeepsIdle(s.pool.threads, i, target);
    SameShape(s.pool, Notified(s.pool.threads, i, target), s.idle, s.stopping, s.runner);
  }

  lemma NotifyKeepsIdle(threads: seq<PC>, i: nat, target: Option<nat>)
    requires CanNotify(threads, i, target)
    ensures Count(IdleThread, Notified(threads, i, target)) == Count(IdleThread, threads)
  {
    NotifyCount(threads, i, target, IdleThread);
  }

  lemma SameShape(pool: Pool, threads: seq<PC>, idle: int, stopping: bool, r: Runner)
    requires RunnerInv(pool, stopping, r) && PoolInv(idle, pool, stopping, r)
    requires |threads| == |pool.threads| && Count(IdleThread, threads) == Count(IdleThread, pool.threads)
    requires forall j :: 0 <= j < |threads| && pool.threads[j] == Exited ==> threads[j] == Exited
    ensures RunnerInv(pool.(threads := threads), stopping, r) && PoolInv(idle, pool.(threads := threads), stopping, r)
  {
  }

  lemma NotifyKeepsCharges(threads: seq<PC>, i: nat, target: Option<nat>)
    requires CanNotify(threads, i, target)
    ensures forall c :: Count(InCharge(c), Notified(threads, i, target)) == Count(InCharge(c), threads)
  {
    forall c ensures Count(InCharge(c), Notified(threads, i, target)) == Count(InCharge(c), threads) {
      NotifyKeepsCharge(threads, i, target, c);
    }
  }

  lemma NotifyKeepsCharge(threads: seq<PC>, i: nat, target: Option<nat>, c: ClientId)
    requires CanNotify(threads, i, target)
    ensures Count(InCharge(c), Notified(threads, i, target)) == Count(InCharge(c), threads)
  {
    NotifyCount(threads, i, target, InCharge(c));
    assert Charge(AfterUnlock(threads[i].next)) == Charge(threads[i]);
    if target.Some? { assert Charge(Awakened(threads[target.value])) == Charge(threads[target.value]); }
  }

  // ---- the thread that calls run ----

  /** Once every thread has exited, every count is zero. */
  lemma AllExited(s: State)
    requires LockInv(s.mutex, s.pool.threads) && FlagInv(s.flag, s.pool.threads, s.runner)
    requires PoolInv(s.idle, s.pool, s.stopping, s.runner)
    requires forall j :: 0 <= j < |s.pool.threads| ==> s.pool.threads[j] == Exited
    ensures s.idle == 0 && s.mutex == CoreMutex(None, 0, false)
    ensures s.flag.counter == AsNat(FlagRaisedByRunner(s.runner))
    ensures s.flag.pipe + AsNat(s.runner.WritingByte?) == AsNat(s.flag.counter > 0) + AsNat(s.runner.ReadingByte?)
  {
    CountZero(Critical, s.pool.threads);
    CountZero(UrgentWaiter, s.pool.threads);
    CountZero(IdleThread, s.pool.threads);
    CountZero(Raised, s.pool.threads);
    CountZero(Writing, s.pool.threads);
    CountZero(Reading, s.pool.threads);
    assert s.mutex.internalOwner == None && s.mutex.urgentWaiters == 0 && !s.mutex.locked;
  }

  lemma RunnerKeepsFlagInv(s: State, step: RunnerAct)
    requires FlagInv(s.flag, s.pool.threads, s.runner) && CanRun(s, step)
    requires step != Start && step != Return
    ensures FlagInv(RunnerStep(s, step).flag, s.pool.threads, RunnerStep(s, step).runner)
  {
  }

  /** A pool that has just been built, or has been torn down, satisfies everything about threads. */
  lemma FreshPool(mutex: CoreMutex, flag: Flag, threads: seq<PC>, r: Runner)
    requires mutex == CoreMutex(None, 0, false) && flag == Flag(0, 0) && (r == Idle || r == Running)
    requires threads == if r == Running then [Entry(None)] else []
    ensures LockInv(mutex, threads) && WakeupInv(mutex, threads) && FlagInv(flag, threads, r)
    ensures Count(IdleThread, threads) == AsNat(r == Running)
    ensures forall c :: Count(InCharge(c), threads) == 0
  {
    FreshCount(threads, IdleThread);
    FreshCount(threads, Critical);
    FreshCount(threads, UrgentWaiter);
    FreshCount(threads, NAsleep);
    FreshCount(threads, Raised);
    FreshCount(threads, Writing);
    FreshCount(threads, Reading);
    forall c ensures Count(InCharge(c), threads) == 0 {
      FreshCount(threads, InCharge(c));
    }
  }

  lemma FreshCount(threads: seq<PC>, kind: Kind)
    requires threads == [Entry(None)] || threads == []
    ensures Count(kind, threads) == AsNat(kind == IdleThread && threads != [])
  {
    if threads != [] { assert Count(kind, threads[1..]) == 0; }
  }

  lemma SameChargesKeepClientInv(core: Core, threads: seq<PC>, threads': seq<PC>)
    requires ClientInv(core, threads)
    requires forall c :: Count(InCharge(c), threads') == Count(InCharge(c), threads)
    ensures ClientInv(core, threads')
  {
  }

  lemma ExitedThreadsHaveNoCharge(threads: seq<PC>)
    requires forall j :: 0 <= j < |threads| ==> threads[j] == Exited
    ensures forall c :: Count(InCharge(c), threads) == 0
  {
    forall c ensures Count(InCharge(c), threads) == 0 {
      CountZero(InCharge(c), threads);
    }
  }

  /** The state of a dispatcher between two runs, or with a pool that has just been started. */
  ghost predicate FreshlyShaped(s: State, s': State) {
    && s'.mutex == CoreMutex(None, 0, false) && s'.flag == Flag(0, 0) && (s'.runner == Idle || s'.runner == Running)
    && s'.pool.threads == (if s'.runner == Running then [Entry(None)] else [])
    && s'.core == s.core && s'.assertsHold == s.assertsHold
    && RunnerInv(s'.pool, s'.stopping, s'.runner) && PoolInv(s'.idle, s'.pool, s'.stopping, s'.runner)
  }

  /** Before the start, and when the last thread has been joined, no thread is left that has not exited. */
  lemma StartOrReturnShape(s: State, step: RunnerAct)
    requires LockInv(s.mutex, s.pool.threads) && FlagInv(s.flag, s.pool.threads, s.runner)
    requires RunnerInv(s.pool, s.stopping, s.runner) && PoolInv(s.idle, s.pool, s.stopping, s.runner)
    requires CanRun(s, step) && (step == Start || step == Return)
    ensures FreshlyShaped(s, RunnerStep(s, step))
    ensures forall j :: 0 <= j < |s.pool.threads| ==> s.pool.threads[j] == Exited
  {
    AllExited(s);
    RestingShape(s, step);
  }

  lemma RestingShape(s: State, step: RunnerAct)
    requires s.idle == 0 && s.mutex == CoreMutex(None, 0, false) && s.flag == Flag(0, 0)
    requires RunnerInv(s.pool, s.stopping, s.runner) && PoolInv(s.idle, s.pool, s.stopping, s.runner)
    requires CanRun(s, step) && (step == Start || step == Return)
    ensures FreshlyShaped(s, RunnerStep(s, step))
  {
    FreshCount(RunnerStep(s, step).pool.threads, IdleThread);
  }

  lemma StartOrReturnKeepsInv(s: State, step: RunnerAct)
    requires Inv(s) && CanRun(s, step) && (step == Start || step == Return)
    ensures Inv(RunnerStep(s, step))
  {
    StartOrReturnShape(s, step);
    var s' := RunnerStep(s, step);
    FreshPool(s'.mutex, s'.flag, s'.pool.threads, s'.runner);
    StartOrReturnKeepsClientInv(s.core, s.pool.threads, s'.pool.threads);
  }

  lemma StartOrReturnKeepsClientInv(core: Core, threads: seq<PC>, threads': seq<PC>)
    requires ClientInv(core, threads) && forall j :: 0 <= j < |threads| ==> threads[j] == Exited
    requires forall c :: Count(InCharge(c), threads') == 0
    ensures ClientInv(core, threads')
  {
    ExitedThreadsHaveNoCharge(threads);
    SameChargesKeepClientInv(core, threads, threads');
  }

  lemma RunnerKeepsInv(s: State, step: RunnerAct)
    requires Inv(s) && CanRun(s, step)
    ensures Inv(RunnerStep(s, step))
  {
    if step == Start || step == Return {
      StartOrReturnKeepsInv(s, step);
    } else {
      RunnerKeepsFlagInv(s, step);
      if step == LowerStop || (step == Join && s.runner.Joining? && s.runner.k >= |s.pool.threads|) {
        AllExited(s);
      }
      RunnerKeepsPool(s, step);
    }
  }

  lemma RunnerKeepsPool(s: State, step: RunnerAct)
    requires RunnerInv(s.pool, s.stopping, s.runner) && PoolInv(s.idle, s.pool, s.stopping, s.runner)
    requires CanRun(s, step) && step != Start && step != Return
    ensures RunnerInv(RunnerStep(s, step).pool, RunnerStep(s, step).stopping, RunnerStep(s, step).runner)
    ensures PoolInv(RunnerStep(s, step).idle, RunnerStep(s, step).pool, RunnerStep(s, step).stopping,
            RunnerStep(s, step).runner)
  {
    var s' := RunnerStep(s, step);
    assert s'.pool.threads == s.pool.threads;
    RunnerKeepsRunnerInv(s, step);
  }

  lemma RunnerKeepsRunnerInv(s: State, step: RunnerAct)
    requires RunnerInv(s.pool, s.stopping, s.runner) && CanRun(s, step) && step != Start && step != Return
    ensures RunnerInv(RunnerStep(s, step).pool, RunnerStep(s, step).stopping, RunnerStep(s, step).runner)
  {
  }

  /** Every event of every thread keeps the invariant. */
  lemma StepKeepsInv(s: State, e: Event)
    requires Inv(s) && Enabled(s, e)
    ensures Inv(Apply(s, e))
  {
    match e
    case Acts(i, act) =>
      ActKeepsLockInv(s, i, act);
      ActKeepsWakeupInv(s, i, act);
      ActKeepsFlagInv(s, i, act);
      ActKeepsRunnerInv(s, i, act);
      ActKeepsPoolInv(s, i, act);
      ActKeepsClientInv(s, i, act);
      CountMove(Critical, s.pool.threads, i, Exited);
    case Notifies(i, target) =>
      NotifyKeepsLockInv(s.mutex, s.pool.threads, i, target);
      NotifyKeepsWakeupInv(s.mutex, s.pool.threads, i, target);
      NotifyKeepsFlagInv(s.flag, s.runner, s.pool.threads, i, target);
      NotifyKeepsPool(s, i, target);
      NotifyKeepsCharges(s.pool.threads, i, target);
      SameChargesKeepClientInv(s.core, s.pool.threads, Notified(s.pool.threads, i, target));
    case Runs(step) =>
      RunnerKeepsInv(s, step);
  }

  lemma InitEstablishesInv(maxThreads: nat, maxConnections: nat)
    ensures Inv(Init(maxThreads, maxConnections))
  {
    FreshPool(CoreMutex(None, 0, false), Flag(0, 0), [], Idle);
    EmptyIsValid(maxConnections);
  }

  lemma EmptyIsValid(maxConnections: nat)
    ensures Valid(Core(maxConnections, [], [], multiset{}, []))
  {
  }

  lemma {:induction false} RunKeepsInv(s: State, events: seq<Event>)
    requires Inv(s) && IsRun(s, events)
    ensures Inv(Final(s, events))
    decreases |events|
  {
    if events != [] {
      StepKeepsInv(s, events[0]);
      RunKeepsInv(Apply(s, events[0]), events[1..]);
    }
  }

  /** The invariant holds in every reachable state. */
  lemma ReachableInv(s: State)
    requires Reachable(s)
    ensures Inv(s)
  {
    var maxThreads: nat, maxConnections: nat, events: seq<Event> :|
      IsRun(Init(maxThreads, maxConnections), events) && s == Final(Init(maxThreads, maxConnections), events);
    InitEstablishesInv(maxThreads, maxConnections);
    RunKeepsInv(Init(maxThreads, maxConnections), events);
  }
}
