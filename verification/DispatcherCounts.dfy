/** Counting threads by what they are doing, and the effect of one thread's move on every count. */
module DispatcherCounts {
  import opened Wrappers
  import opened ClientLists
  import opened DispatcherSystem

  datatype Kind =
    | Critical        // holds the core lock
    | UrgentWaiter    // counted in n_urgent_waiters_
    | Raised          // has raised the flag and not lowered it yet
    | Writing | Reading  // pipe operations that belong to a raise or lower already done
    | UArriving | UAsleep | UAwake | NAsleep | NAwake
    | UNotifying | NNotifying
    | IdleThread      // has no client, and has not decided to exit
    | InCharge(client: ClientId) // has taken charge of this client

  function Weight(kind: Kind, pc: PC): nat {
    AsNat(match kind
          case Critical => HoldsCore(pc)
          case UrgentWaiter => Urgent(pc)
          case Raised => pc.UWrite? || pc.USleep? || pc.UWaiting? || pc.UWoken? || pc.ULower?
          case Writing => pc.UWrite?
          case Reading => pc.URead?
          case UArriving => pc.URaise? || pc.UWrite? || pc.USleep?
          case UAsleep => pc.UWaiting?
          case UAwake => pc.UWoken? || pc.ULower? || pc.URead? || pc.UTake?
          case NAsleep => pc.NWaiting?
          case NAwake => pc.NWoken?
          case UNotifying => pc.Notifying? && pc.urgent
          case NNotifying => pc.Notifying? && !pc.urgent
          case IdleThread => IsIdle(pc)
          case InCharge(c) => Charge(pc) == Some(c))
  }

  predicate IsIdle(pc: PC) {
    match pc
    case Entry(job) => job == None
    case Holding(job) => job == None
    case NWaiting => true
    case NWoken => true
    case Selecting => true
    case Unlocking(next) => next == LoopIdle
    case Notifying(_, next) => next == LoopIdle
    case _ => false
  }

  /** The client that a thread has taken charge of. */
  function Charge(pc: PC): Option<ClientId> {
    match pc
    case Entry(Some(job)) => Some(job.client)
    case Holding(Some(job)) => Some(job.client)
    case Unlocking(LoopServe(c)) => Some(c)
    case Notifying(_, LoopServe(c)) => Some(c)
    case Serving(c) => Some(c)
    case _ => if Urgent(pc) then Some(pc.todo.client) else None
  }

  function Count(kind: Kind, threads: seq<PC>): nat {
    if threads == [] then 0 else Weight(kind, threads[0]) + Count(kind, threads[1..])
  }

  lemma {:induction false} CountMove(kind: Kind, threads: seq<PC>, i: nat, pc: PC)
    requires i < |threads|
    ensures Count(kind, threads[i := pc]) == Count(kind, threads) - Weight(kind, threads[i]) + Weight(kind, pc)
    ensures Weight(kind, threads[i]) <= Count(kind, threads)
  {
    if i > 0 {
      CountMove(kind, threads[1..], i - 1, pc);
      assert threads[i := pc][1..] == threads[1..][i - 1 := pc];
    } else {
      assert threads[i := pc][1..] == threads[1..];
    }
  }

  lemma {:induction false} CountAppend(kind: Kind, threads: seq<PC>, pc: PC)
    ensures Count(kind, threads + [pc]) == Count(kind, threads) + Weight(kind, pc)
  {
    if threads != [] {
      CountAppend(kind, threads[1..], pc);
      assert (threads + [pc])[1..] == threads[1..] + [pc];
    }
  }

  lemma {:induction false} CountWitness(kind: Kind, threads: seq<PC>) returns (i: nat)
    requires Count(kind, threads) > 0
    ensures i < |threads| && Weight(kind, threads[i]) == 1
  {
    if Weight(kind, threads[0]) == 1 {
      i := 0;
    } else {
      i := CountWitness(kind, threads[1..]);
      i := i + 1;
    }
  }

  lemma {:induction false} CountPair(kind: Kind, threads: seq<PC>, i: nat, j: nat)
    requires i < j < |threads|
    ensures Weight(kind, threads[i]) + Weight(kind, threads[j]) <= Count(kind, threads)
  {
    if i > 0 {
      CountPair(kind, threads[1..], i - 1, j - 1);
    } else {
      CountMove(kind, threads[1..], j - 1, Exited);
    }
  }

  lemma {:induction false} CountZero(kind: Kind, threads: seq<PC>)
    requires forall i :: 0 <= i < |threads| ==> Weight(kind, threads[i]) == 0
    ensures Count(kind, threads) == 0
  {
    if threads != [] {
      CountZero(kind, threads[1..]);
    }
  }

  /** Every urgent waiter is on its way to sleep, asleep, or awake again. */
  lemma {:induction false} UrgentWaitersSplit(threads: seq<PC>)
    ensures Count(UrgentWaiter, threads) == Count(UArriving, threads) + Count(UAsleep, threads) + Count(UAwake, threads)
  {
    if threads != [] {
      UrgentWaitersSplit(threads[1..]);
    }
  }
}
