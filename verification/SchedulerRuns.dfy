/** What a scheduler does, as a function of what is registered with it and of what it gets to see. */
module SchedulerRuns {
  import opened PollSelectors

  /** What one round of the loop in wait gets to see: the clock, and the answer of poll. */
  datatype Observation = Observation(now: int, poll: PollResult)

  datatype Result =
    | Alarm(id: int, due: int, callback: Callback)
    | Io(ticket: int, callback: Callback)
    | OutOfWork
    | PollFailed
    | StillWaiting

  /**
   The alarms and I/O callbacks that are registered, the selector's two lists, and whose turn it is.
   `duePolls` counts the calls of select that were made while an alarm was due.
   */
  datatype World = World(alarms: map<int, (int, Callback)>, io: map<int, Callback>,
                         watched: seq<int>, pending: seq<int>, pollFirst: bool, duePolls: nat)

  datatype Turn = Turn(world: World, result: Result)

  /** Select hands out the first ticket whose event has come; it polls unless one is left over from before. */
  function SelectIo(w: World, poll: PollResult): (t: Turn)
    ensures t.world.alarms == w.alarms && t.world.pollFirst == w.pollFirst && t.world.duePolls == w.duePolls
    ensures !t.result.Io? ==> t.world == w
    ensures t.result.Io? || t.result.PollFailed? || t.result.StillWaiting?
  {
    var ready := if w.pending != [] then w.pending else Chosen(w.watched, poll.Hits());
    if w.pending == [] && poll.Failed? then Turn(w, PollFailed)
    else if ready == [] then Turn(w, StillWaiting)
    else
      var ticket := ready[0];
      var watched := if w.pending != [] then w.watched else Others(w.watched, poll.Hits());
      Turn(w.(io := w.io - {ticket}, watched := watched, pending := ready[1..]),
           Io(ticket, if ticket in w.io then w.io[ticket] else 0))
  }

  /** One round of the loop in wait, for the alarm that is due first. */
  function RoundOf(w: World, front: int, seen: Observation): (t: Turn)
    requires front in w.alarms
    ensures !t.result.Alarm? ==> t.world.alarms == w.alarms
    ensures !t.result.Alarm? && !t.result.Io? ==>
            t.world.io == w.io && t.world.watched == w.watched && t.world.pending == w.pending
  {
    var (limit, callback) := w.alarms[front];
    if seen.now >= limit then
      if w.pollFirst && w.io != map[] then SelectIo(w.(pollFirst := false, duePolls := w.duePolls + 1), seen.poll)
      else Turn(w.(pollFirst := true, alarms := w.alarms - {front}), Alarm(front, limit, callback))
    else if w.io != map[] then SelectIo(w, seen.poll)
    else Turn(w, StillWaiting)
  }

  function Rounds(w: World, front: int, observations: seq<Observation>): Turn
    requires front in w.alarms
    decreases |observations|
  {
    if observations == [] then Turn(w, StillWaiting)
    else
      var t := RoundOf(w, front, observations[0]);
      if t.result.StillWaiting? then Rounds(t.world, front, observations[1..]) else t
  }

  /** The rounds of the loop in wait when there is no alarm. */
  function IoRounds(w: World, observations: seq<Observation>): Turn
    decreases |observations|
  {
    if observations == [] then Turn(w, StillWaiting)
    else
      var t := SelectIo(w, observations[0].poll);
      if t.result.StillWaiting? then IoRounds(t.world, observations[1..]) else t
  }

  lemma RoundsFrom(w: World, front: int, observations: seq<Observation>, i: nat)
    requires front in w.alarms && i < |observations|
    ensures Rounds(w, front, observations[i..]) ==
            var t := RoundOf(w, front, observations[i]);
            if t.result.StillWaiting? then Rounds(t.world, front, observations[i + 1..]) else t
  {
    assert observations[i..][1..] == observations[i + 1..];
  }

  lemma IoRoundsFrom(w: World, observations: seq<Observation>, i: nat)
    requires i < |observations|
    ensures IoRounds(w, observations[i..]) ==
            var t := SelectIo(w, observations[i].poll);
            if t.result.StillWaiting? then IoRounds(t.world, observations[i + 1..]) else t
  {
    assert observations[i..][1..] == observations[i + 1..];
  }

  ghost predicate IsFirst(alarms: map<int, (int, Callback)>, front: int) {
    front in alarms && forall other :: other in alarms ==> alarms[front].0 <= alarms[other].0
  }

  ghost predicate RoundsEnd(w: World, front: int, observations: seq<Observation>, t: Turn) {
    IsFirst(w.alarms, front) && Rounds(w, front, observations) == t
  }

  /** What a call of wait may do; it is left open which of two alarms that are due at the same time comes first. */
  ghost predicate Waits(w: World, observations: seq<Observation>, result: Result, w': World) {
    if w.alarms != map[] then exists front :: RoundsEnd(w, front, observations, Turn(w', result))
    else if w.io != map[] then IoRounds(w, observations) == Turn(w', result)
    else result == OutOfWork && w' == w
  }

  // ---- what a single call of wait guarantees ----

  /** What a call of wait that ends with a given result has seen at the round that produced it. */
  ghost predicate Accounts(w: World, result: Result, w': World, seen: Observation) {
    match result
    case Alarm(id, due, callback) =>
      && IsFirst(w.alarms, id) && w.alarms[id] == (due, callback) && seen.now >= due
      && w'.alarms == w.alarms - {id} && w'.io == w.io && w'.watched == w.watched && w'.pending == w.pending
         && w'.pollFirst
    case Io(ticket, callback) =>
      && var ready := if w.pending != [] then w.pending else Chosen(w.watched, seen.poll.Hits());
      && ready != [] && ticket == ready[0] && w'.pending == ready[1..]
      && w'.watched == (if w.pending != [] then w.watched else Others(w.watched, seen.poll.Hits()))
      && w'.alarms == w.alarms && w'.io == w.io - {ticket}
      && (ticket in w.io ==> callback == w.io[ticket])
    case PollFailed => w.pending == [] && seen.poll.Failed?
        && w' == w.(pollFirst := w'.pollFirst, duePolls := w'.duePolls)
    case StillWaiting => false
    case OutOfWork => false
  }

  lemma SelectAccounts(w: World, poll: PollResult, seen: Observation)
    requires seen.poll == poll
    ensures var t := SelectIo(w, poll);
            if t.result.StillWaiting? then NothingReady(w.watched, w.pending, poll)
            else Accounts(w, t.result, t.world, seen)
  {
    var t := SelectIo(w, poll);
    if t.result.Io? && w.pending == [] {
      var chosen := Chosen(w.watched, poll.Hits());
      assert chosen[0] in chosen;
    }
  }

  lemma RoundAccounts(w: World, front: int, seen: Observation)
    requires IsFirst(w.alarms, front)
    ensures var t := RoundOf(w, front, seen);
            if t.result.StillWaiting? then w.io != map[] ==> NothingReady(w.watched, w.pending, seen.poll)
            else Accounts(w, t.result, t.world, seen)
  {
    SelectAccounts(w, seen.poll, seen);
    if w.pollFirst {
      SelectAccounts(w.(pollFirst := false, duePolls := w.duePolls + 1), seen.poll, seen);
    }
  }

  /** Whose turn it was is not part of the account. */
  lemma SameAccount(w: World, turn: bool, duePolls: nat, result: Result, w': World, seen: Observation)
    requires Accounts(w.(pollFirst := turn, duePolls := duePolls), result, w', seen)
    ensures Accounts(w, result, w', seen)
  {
  }

  lemma {:induction false} RoundsAccount(w: World, front: int, observations: seq<Observation>) returns (k: nat)
    requires IsFirst(w.alarms, front)
    ensures var t := Rounds(w, front, observations);
            if t.result.StillWaiting? then
              && k == |observations| && t.world == w.(pollFirst := t.world.pollFirst, duePolls := t.world.duePolls)
              && (w.io != map[] ==> forall i :: 0 <= i < |observations| ==>
                 NothingReady(w.watched, w.pending, observations[i].poll))
            else k < |observations| && Accounts(w, t.result, t.world, observations[k])
    decreases |observations|
  {
    k := 0;
    if observations != [] {
      RoundAccounts(w, front, observations[0]);
      var t := RoundOf(w, front, observations[0]);
      if t.result.StillWaiting? {
        k := RoundsAccount(t.world, front, observations[1..]);
        k := k + 1;
        var u := Rounds(w, front, observations);
        if !u.result.StillWaiting? {
          SameAccount(w, t.world.pollFirst, t.world.duePolls, u.result, u.world, observations[k]);
        }
      }
    }
  }

  lemma {:induction false} IoRoundsAccount(w: World, observations: seq<Observation>) returns (k: nat)
    ensures var t := IoRounds(w, observations);
            if t.result.StillWaiting? then
              && k == |observations| && t.world == w
              && forall i :: 0 <= i < |observations| ==> NothingReady(w.watched, w.pending, observations[i].poll)
            else k < |observations| && Accounts(w, t.result, t.world, observations[k])
    decreases |observations|
  {
    k := 0;
    if observations != [] {
      SelectAccounts(w, observations[0].poll, observations[0]);
      var t := SelectIo(w, observations[0].poll);
      if t.result.StillWaiting? {
        k := IoRoundsAccount(w, observations[1..]);
        k := k + 1;
      }
    }
  }

  /**
   Every result is accounted for by what was seen: an alarm was due, and none is due earlier; an I/O callback was ready,
   or left over from an earlier poll; a failure is one of poll; and while there is no result, no I/O was ready.
   */
  lemma WaitAccounts(w: World, observations: seq<Observation>, result: Result, w': World)
    requires Waits(w, observations, result, w')
    ensures result.OutOfWork? <==> w.alarms == map[] && w.io == map[]
    ensures result.StillWaiting? && w.io != map[] ==>
              forall i :: 0 <= i < |observations| ==> NothingReady(w.watched, w.pending, observations[i].poll)
    ensures !result.OutOfWork? && !result.StillWaiting? ==> exists k ::
            0 <= k < |observations| && Accounts(w, result, w', observations[k])
  {
    if w.alarms != map[] {
      var front :| RoundsEnd(w, front, observations, Turn(w', result));
      var k := RoundsAccount(w, front, observations);
    } else if w.io != map[] {
      var k := IoRoundsAccount(w, observations);
    }
  }

  /** When an alarm is due, one round, or two if it is the turn of I/O, are enough for a result. */
  lemma DueAlarmIsServed(w: World, observations: seq<Observation>, result: Result, w': World, id: int, i: int, j: int)
    requires Waits(w, observations, result, w') && id in w.alarms && 0 <= i < j < |observations|
    requires observations[i].now >= w.alarms[id].0 && observations[j].now >= w.alarms[id].0
    ensures !result.StillWaiting?
  {
    var front :| RoundsEnd(w, front, observations, Turn(w', result));
    TwoDueRounds(w, front, observations, i, j);
  }

  lemma {:induction false} TwoDueRounds(w: World, front: int, observations: seq<Observation>, i: int, j: int)
    requires front in w.alarms && 0 <= j < |observations| && observations[j].now >= w.alarms[front].0
    requires w.pollFirst ==> 0 <= i < j && observations[i].now >= w.alarms[front].0
    ensures !Rounds(w, front, observations).result.StillWaiting?
    decreases |observations|
  {
    var t := RoundOf(w, front, observations[0]);
    if t.result.StillWaiting? {
      TwoDueRounds(t.world, front, observations[1..], i - 1, j - 1);
    }
  }
}
