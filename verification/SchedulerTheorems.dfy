/** Alarms and I/O take turns: what that means for an alarm that is due, in every run of a scheduler. */
module SchedulerTheorems {
  import opened PollSelectors
  import opened SchedulerRuns
  import opened Wrappers

  /**
   What users do to a scheduler, with the answers they get; they may not cancel what is not registered, so that does
   nothing here.
   */
  datatype Event =
    | AlarmCalled(id: int, due: int, callback: Callback)
    | AlarmCancelled(id: int)
    | IoCalled(ticket: int, callback: Callback)
    | IoRefused
    | IoCancelled(ticket: int)
    | Waited(observations: seq<Observation>, result: Result)

  ghost predicate Happens(w: World, e: Event, w': World) {
    match e
    case AlarmCalled(id, due, callback) => id !in w.alarms && w' == w.(alarms := w.alarms[id := (due, callback)])
    case AlarmCancelled(id) => w' == w.(alarms := w.alarms - {id})
    case IoCalled(ticket, callback) =>
      ticket !in w.io && w' == w.(io := w.io[ticket := callback], watched := w.watched + [ticket])
    case IoRefused => w' == w
    case IoCancelled(ticket) =>
      if ticket !in w.io then w' == w
      else w' == w.(io := w.io - {ticket}, watched := Others(w.watched, {ticket}),
          pending := Others(w.pending, {ticket}))
    case Waited(observations, result) => Waits(w, observations, result, w')
  }

  /** `worlds` are what there was before, between and after the events. */
  ghost predicate IsRun(worlds: seq<World>, events: seq<Event>) {
    && |worlds| == |events| + 1
    && forall k :: 0 <= k < |events| ==> Happens(worlds[k], events[k], worlds[k + 1])
  }

  function IoResults(events: seq<Event>): nat {
    if events == [] then 0
    else IoResults(events[..|events| - 1]) + AsNat(var e := events[|events| - 1]; e.Waited? && e.result.Io?)
  }

  function AlarmResults(events: seq<Event>): nat {
    if events == [] then 0
    else AlarmResults(events[..|events| - 1]) + AsNat(var e := events[|events| - 1]; e.Waited? && e.result.Alarm?)
  }

  /** Throughout the run the alarm is registered, and it is due whenever the clock is read. */
  ghost predicate DueThroughout(worlds: seq<World>, events: seq<Event>, id: int, due: int) {
    && (forall w :: w in worlds ==> id in w.alarms && w.alarms[id].0 == due)
    && (forall e :: e in events && e.Waited? ==> DueAt(e.observations, due))
  }

  ghost predicate DueAt(observations: seq<Observation>, due: int) {
    forall k :: 0 <= k < |observations| ==> observations[k].now >= due
  }

  // ---- one event ----

  /** One round while the first alarm is due: I/O gets its turn, or the alarm does. */
  lemma {:induction false} DueRounds(w: World, front: int, observations: seq<Observation>)
    requires front in w.alarms && DueAt(observations, w.alarms[front].0)
    ensures var t := Rounds(w, front, observations);
            && (t.result.Io? ==> w.pollFirst && !t.world.pollFirst)
            && (t.world.pollFirst ==> w.pollFirst || t.result.Alarm?)
            && (t.result.Alarm? ==> t.result.id == front && t.world.alarms == w.alarms - {front})
            && (!t.result.Alarm? ==> t.world.alarms == w.alarms)
    decreases |observations|
  {
    if observations != [] {
      var t := RoundOf(w, front, observations[0]);
      if t.result.StillWaiting? { DueRounds(t.world, front, observations[1..]); }
    }
  }

  /** The turn of I/O is worth one I/O callback, and every alarm that fires buys it back. */
  lemma EventKeepsBudget(w: World, e: Event, w': World, id: int)
    requires Happens(w, e, w') && id in w.alarms && (e.Waited? ==> DueAt(e.observations, w.alarms[id].0))
    ensures AsNat(e.Waited? && e.result.Io?) + AsNat(w'.pollFirst) <= AsNat(e.Waited? && e.result.Alarm?)
            + AsNat(w.pollFirst)
  {
    if e.Waited? {
      var front :| RoundsEnd(w, front, e.observations, Turn(w', e.result));
      DueRounds(w, front, e.observations);
    }
  }

  /**
   In a run in which an alarm is due all the time, I/O overtakes it at most once per other alarm that fires, plus
   once.
   */
  lemma {:induction false} OvertakingIsBounded(worlds: seq<World>, events: seq<Event>, id: int, due: int)
    requires IsRun(worlds, events) && DueThroughout(worlds, events, id, due)
    ensures IoResults(events) + AsNat(worlds[|events|].pollFirst) <= AlarmResults(events) + AsNat(worlds[0].pollFirst)
    decreases |events|
  {
    if events != [] {
      var n := |events| - 1;
      OvertakingIsBounded(worlds[..n + 1], events[..n], id, due);
      assert worlds[n] in worlds && events[n] in events;
      EventKeepsBudget(worlds[n], events[n], worlds[n + 1], id);
    }
  }

  // ---- the alarms in front of an alarm ----

  /** The other alarms that are due as early, or earlier. */
  ghost function AsEarly(alarms: map<int, (int, Callback)>, id: int): set<int>
    requires id in alarms
  {
    set other | other in alarms && other != id && alarms[other].0 <= alarms[id].0
  }

  /** No alarm is registered on the way that would be in front of it. */
  ghost predicate NothingCutsIn(events: seq<Event>, due: int) {
    forall e :: e in events && e.AlarmCalled? ==> e.due > due
  }

  lemma EventUsesUpAlarms(w: World, e: Event, w': World, id: int)
    requires Happens(w, e, w') && id in w.alarms && id in w'.alarms && w'.alarms[id].0 == w.alarms[id].0
    requires e.Waited? ==> DueAt(e.observations, w.alarms[id].0)
    requires e.AlarmCalled? ==> e.due > w.alarms[id].0
    ensures AsNat(e.Waited? && e.result.Alarm?) + |AsEarly(w'.alarms, id)| <= |AsEarly(w.alarms, id)|
  {
    var before, after := AsEarly(w.alarms, id), AsEarly(w'.alarms, id);
    if e.Waited? {
      var front :| RoundsEnd(w, front, e.observations, Turn(w', e.result));
      DueRounds(w, front, e.observations);
      if e.result.Alarm? {
        assert after == before - {front};
      } else {
        assert after == before;
      }
    } else if e.AlarmCancelled? {
      assert after == before - {e.id};
    } else {
      assert after == before;
    }
  }

  lemma {:induction false} AlarmsUsedUp(worlds: seq<World>, events: seq<Event>, id: int, due: int)
    requires IsRun(worlds, events) && DueThroughout(worlds, events, id, due) && NothingCutsIn(events, due)
    ensures worlds[0] in worlds && worlds[|events|] in worlds
    ensures AlarmResults(events) + |AsEarly(worlds[|events|].alarms, id)| <= |AsEarly(worlds[0].alarms, id)|
    decreases |events|
  {
    if events != [] {
      var n := |events| - 1;
      AlarmsUsedUp(worlds[..n + 1], events[..n], id, due);
      assert worlds[n] in worlds && worlds[n + 1] in worlds && events[n] in events;
      EventUsesUpAlarms(worlds[n], events[n], worlds[n + 1], id);
    }
  }

  /**
   How often I/O may come before a due alarm: once if it is the turn of I/O now, and once after each alarm in front of
   it.
   */
  ghost function Budget(w: World, id: int): nat
    requires id in w.alarms
  {
    |AsEarly(w.alarms, id)| + AsNat(w.pollFirst)
  }

  /** A run from `w` in which the alarm stays registered, is due all the time, and no other alarm cuts in. */
  ghost predicate RunPast(w: World, id: int, worlds: seq<World>, events: seq<Event>) {
    && IsRun(worlds, events) && worlds[0] == w && id in w.alarms
    && DueThroughout(worlds, events, id, w.alarms[id].0) && NothingCutsIn(events, w.alarms[id].0)
  }

  /** In such a run I/O overtakes the alarm within the budget. */
  lemma OvertakingStaysInBudget(w: World, id: int, worlds: seq<World>, events: seq<Event>)
    requires RunPast(w, id, worlds, events)
    ensures IoResults(events) <= Budget(w, id)
  {
    OvertakingIsBounded(worlds, events, id, w.alarms[id].0);
    AlarmsUsedUp(worlds, events, id, w.alarms[id].0);
  }

  // ---- the budget can be used up ----

  lemma FreshTicket(io: map<int, Callback>) returns (ticket: int)
    ensures ticket !in io
  {
    ticket := AboveAll(io.Keys);
  }

  lemma AboveAll(ids: set<int>) returns (bound: int)
    ensures bound !in ids && forall id :: id in ids ==> id < bound
    decreases |ids|
  {
    bound := 0;
    if some :| some in ids {
      bound := AboveAll(ids - {some});
      if bound <= some { bound := some + 1; }
      forall id | id in ids ensures id < bound {
        assert id == some || id in ids - {some};
      }
    }
  }

  /** Some alarm that is not `id` comes first. */
  lemma EarliestOther(alarms: map<int, (int, Callback)>, id: int, others: set<int>) returns (front: int)
    requires id in alarms && others != {} && others <= AsEarly(alarms, id)
    ensures front in others && forall other :: other in others ==> alarms[front].0 <= alarms[other].0
    decreases |others|
  {
    front :| front in others;
    if others != {front} {
      var next := EarliestOther(alarms, id, others - {front});
      if alarms[next].0 < alarms[front].0 { front := next; }
    }
  }

  lemma FirstExists(alarms: map<int, (int, Callback)>, id: int) returns (front: int)
    requires id in alarms
    ensures IsFirst(alarms, front)
    ensures AsEarly(alarms, id) != {} ==> front in AsEarly(alarms, id)
  {
    if AsEarly(alarms, id) == {} {
      front := id;
      forall other | other in alarms ensures alarms[id].0 <= alarms[other].0 {
        assert other !in AsEarly(alarms, id);
      }
    } else {
      front := EarliestOther(alarms, id, AsEarly(alarms, id));
      forall other | other in alarms ensures alarms[front].0 <= alarms[other].0 {
        if alarms[other].0 <= alarms[id].0 && other != id { assert other in AsEarly(alarms, id); }
      }
    }
  }

  /** If it is the turn of I/O, a callback that is registered now, and ready at once, comes first. */
  lemma IoOvertakes(w: World, id: int)
    returns (ticket: int, registered: World, observations: seq<Observation>, result: Result, after: World)
    requires id in w.alarms && w.pollFirst
    ensures Happens(w, IoCalled(ticket, 0), registered) && Waits(registered, observations, result, after)
    ensures result.Io? && !after.pollFirst && registered.alarms == w.alarms == after.alarms
            && DueAt(observations, w.alarms[id].0)
  {
    ticket := FreshTicket(w.io);
    registered := w.(io := w.io[ticket := 0], watched := w.watched + [ticket]);
    observations := [Observation(w.alarms[id].0, Ready({ticket}))];
    var front := FirstExists(w.alarms, id);
    var t := ReadyIoIsTaken(registered, observations[0].poll, ticket);
    result, after := t.result, t.world;
    assert ticket in registered.io;
    assert RoundOf(registered, front, observations[0]) == t;
    assert RoundsEnd(registered, front, observations, Turn(after, result));
  }

  /** Select finds the ticket that was registered last, or one that is left over. */
  lemma ReadyIoIsTaken(w: World, poll: PollResult, ticket: int) returns (t: Turn)
    requires w.watched != [] && w.watched[|w.watched| - 1] == ticket && poll == Ready({ticket})
    ensures t == SelectIo(w.(pollFirst := false, duePolls := w.duePolls + 1), poll) && t.result.Io?
  {
    OthersAre(w.watched, {ticket});
    assert Chosen(w.watched, {ticket}) != [] by { assert ticket in Chosen(w.watched, {ticket}); }
    t := SelectIo(w.(pollFirst := false, duePolls := w.duePolls + 1), poll);
  }

  /** If it is the turn of the alarms, one in front of `id` fires. */
  lemma OtherAlarmFires(w: World, id: int) returns (observations: seq<Observation>, result: Result, after: World)
    requires id in w.alarms && !w.pollFirst && AsEarly(w.alarms, id) != {}
    ensures Waits(w, observations, result, after) && result.Alarm? && after.pollFirst
            && DueAt(observations, w.alarms[id].0)
    ensures id in after.alarms && after.alarms[id] == w.alarms[id]
    ensures |AsEarly(after.alarms, id)| == |AsEarly(w.alarms, id)| - 1
  {
    observations := [Observation(w.alarms[id].0, Interrupted)];
    var front := FirstExists(w.alarms, id);
    var t := RoundOf(w, front, observations[0]);
    result, after := t.result, t.world;
    assert RoundsEnd(w, front, observations, Turn(after, result));
    assert AsEarly(after.alarms, id) == AsEarly(w.alarms, id) - {front};
  }

  lemma Prepend(w: World, e: Event, id: int, worlds: seq<World>, events: seq<Event>)
    requires id in w.alarms && worlds != [] && Happens(w, e, worlds[0])
    requires RunPast(worlds[0], id, worlds, events) && worlds[0].alarms[id].0 == w.alarms[id].0
    requires e.Waited? ==> DueAt(e.observations, w.alarms[id].0)
    requires e.AlarmCalled? ==> e.due > w.alarms[id].0
    ensures RunPast(w, id, [w] + worlds, [e] + events)
    ensures IoResults([e] + events) == IoResults(events) + AsNat(e.Waited? && e.result.Io?)
  {
    IoResultsPrepend(e, events);
    var worlds', events' := [w] + worlds, [e] + events;
    forall k | 0 <= k < |events'| ensures Happens(worlds'[k], events'[k], worlds'[k + 1]) {
      if k > 0 { assert Happens(worlds[k - 1], events[k - 1], worlds[k]); }
    }
  }

  lemma {:induction false} IoResultsPrepend(e: Event, events: seq<Event>)
    ensures IoResults([e] + events) == IoResults(events) + AsNat(e.Waited? && e.result.Io?)
  {
    var all := [e] + events;
    if events == [] {
      assert all[..0] == [];
    } else {
      IoResultsPrepend(e, events[..|events| - 1]);
      assert all[..|all| - 1] == [e] + events[..|events| - 1];
    }
  }

  /**
   For every scheduler and every alarm there is a run in which I/O overtakes the due alarm as often as the budget
   says.
   */
  lemma BudgetIsReached(w: World, id: int) returns (worlds: seq<World>, events: seq<Event>)
    requires id in w.alarms
    ensures RunPast(w, id, worlds, events) && IoResults(events) == Budget(w, id)
    decreases |AsEarly(w.alarms, id)|, w.pollFirst
  {
    if w.pollFirst {
      var ticket, registered, observations, result, after := IoOvertakes(w, id);
      worlds, events := BudgetIsReached(after, id);
      Prepend(registered, Waited(observations, result), id, worlds, events);
      worlds, events := [registered] + worlds, [Waited(observations, result)] + events;
      Prepend(w, IoCalled(ticket, 0), id, worlds, events);
      worlds, events := [w] + worlds, [IoCalled(ticket, 0)] + events;
    } else if AsEarly(w.alarms, id) != {} {
      var observations, result, after := OtherAlarmFires(w, id);
      worlds, events := BudgetIsReached(after, id);
      Prepend(w, Waited(observations, result), id, worlds, events);
      worlds, events := [w] + worlds, [Waited(observations, result)] + events;
    } else {
      worlds, events := [w], [];
    }
  }

  // ---- one such run ----

  const NOTHING_YET := World(map[], map[], [], [], false, 0)

  /**
   Two I/O callbacks and three alarms are registered, and then `wait` is called four times, when all are due and
   ready.
   */
  ghost predicate CrowdedRun(events: seq<Event>) {
    && |events| == 9
    && events[0].IoCalled? && events[1].IoCalled?
    && events[2].AlarmCalled? && events[2].due == 0 && events[3].AlarmCalled? && events[3].due == 1
    && events[4].AlarmCalled? && events[4].due == 2
    && forall k :: 5 <= k < 9 ==> events[k].Waited? && events[k].observations == AllReady(events)
  }

  function AllReady(events: seq<Event>): seq<Observation>
    requires |events| > 1 && events[0].IoCalled? && events[1].IoCalled?
  {
    [Observation(2, Ready({events[0].ticket, events[1].ticket}))]
  }

  lemma OneRound(w: World, seen: Observation, result: Result, w': World) returns (front: int)
    requires Waits(w, [seen], result, w') && w.alarms != map[]
    ensures IsFirst(w.alarms, front) && RoundOf(w, front, seen) == Turn(w', result)
  {
    front :| RoundsEnd(w, front, [seen], Turn(w', result));
    assert [seen][1..] == [];
    if RoundOf(w, front, seen).result.StillWaiting? {
      assert Rounds(RoundOf(w, front, seen).world, front, []) == RoundOf(w, front, seen);
    }
  }

  ghost predicate ComesFirst(alarms: map<int, (int, Callback)>, first: int) {
    first in alarms && forall other :: other in alarms && other != first ==> alarms[other].0 > alarms[first].0
  }

  lemma FirstFires(w: World, seen: Observation, result: Result, w': World, first: int)
    requires Waits(w, [seen], result, w') && ComesFirst(w.alarms, first) && seen.now >= w.alarms[first].0
             && !w.pollFirst
    ensures result == Alarm(first, w.alarms[first].0, w.alarms[first].1)
    ensures w' == w.(alarms := w.alarms - {first}, pollFirst := true)
  {
    var front := OneRound(w, seen, result, w');
    assert front == first;
  }

  lemma IoComes(w: World, seen: Observation, result: Result, w': World, ready: seq<int>)
    requires Waits(w, [seen], result, w') && w.pollFirst && w.io != map[] && !seen.poll.Failed?
    requires w.alarms != map[] && forall id :: id in w.alarms ==> seen.now >= w.alarms[id].0
    requires ready != [] && ready == if w.pending != [] then w.pending else Chosen(w.watched, seen.poll.Hits())
    ensures result.Io? && w'.alarms == w.alarms && !w'.pollFirst && w'.io == w.io - {ready[0]}
            && w'.pending == ready[1..]
  {
    var front := OneRound(w, seen, result, w');
  }

  /** Three alarms, one due after the other. */
  ghost predicate ThreeAlarms(alarms: map<int, (int, Callback)>, first: int, early: int, late: int) {
    && first != late && early != late && ComesFirst(alarms, first) && ComesFirst(alarms - {first}, early)
    && late in alarms && alarms[late].0 == 2 && forall id :: id in alarms ==> alarms[id].0 <= 2
  }

  /** What is registered after the first five events. */
  lemma CrowdedWorld(worlds: seq<World>, events: seq<Event>)
    requires IsRun(worlds, events) && worlds[0] == NOTHING_YET && CrowdedRun(events)
    ensures ThreeAlarms(worlds[5].alarms, events[2].id, events[3].id, events[4].id)
    ensures var a, b := events[0].ticket, events[1].ticket;
            && a in worlds[5].io && b in worlds[5].io - {a}
            && worlds[5].watched == [a, b] && worlds[5].pending == [] && !worlds[5].pollFirst
  {
    assert Happens(worlds[0], events[0], worlds[1]) && Happens(worlds[1], events[1], worlds[2]);
    assert Happens(worlds[2], events[2], worlds[3]) && Happens(worlds[3], events[3], worlds[4]);
    assert Happens(worlds[4], events[4], worlds[5]);
  }

  lemma BothAreReady(a: int, b: int)
    ensures Chosen([a, b], {a, b}) == [a, b]
  {
    assert [a, b][..1] == [a] && [a][..0] == [];
    assert Chosen([a], {a, b}) == [a];
  }

  /** What comes of the four calls of wait: the first alarm, I/O, the second alarm, and I/O again. */
  lemma CrowdedWaits(worlds: seq<World>, events: seq<Event>)
    requires IsRun(worlds, events) && worlds[0] == NOTHING_YET && CrowdedRun(events)
    ensures !events[5].result.Io? && events[6].result.Io? && !events[7].result.Io? && events[8].result.Io?
    ensures forall k :: 6 <= k < 10 ==> events[4].id in worlds[k].alarms && worlds[k].alarms[events[4].id].0 == 2
  {
    var a, b, first, early, late := events[0].ticket, events[1].ticket, events[2].id, events[3].id, events[4].id;
    var seen := AllReady(events)[0];
    CrowdedWorld(worlds, events);
    BothAreReady(a, b);
    WaitHappens(worlds, events, 5);
    WaitHappens(worlds, events, 6);
    AlarmThenIo(worlds[5], events[5].result, worlds[6], events[6].result, worlds[7], seen, first, late, [a, b]);
    WaitHappens(worlds, events, 7);
    WaitHappens(worlds, events, 8);
    assert early in worlds[7].alarms && b in worlds[7].io;
    AlarmThenIo(worlds[7], events[7].result, worlds[8], events[8].result, worlds[9], seen, early, late, [b]);
  }

  lemma WaitHappens(worlds: seq<World>, events: seq<Event>, k: nat)
    requires IsRun(worlds, events) && CrowdedRun(events) && 5 <= k < 9
    ensures Waits(worlds[k], [AllReady(events)[0]], events[k].result, worlds[k + 1])
  {
    assert Happens(worlds[k], events[k], worlds[k + 1]);
    assert AllReady(events) == [AllReady(events)[0]];
  }

  /** Two calls of wait: the first alarm fires, and then it is the turn of I/O. */
  lemma AlarmThenIo(w: World, alarm: Result, w': World, io: Result, w'': World, seen: Observation,
                    first: int, late: int, ready: seq<int>)
    requires Waits(w, [seen], alarm, w') && Waits(w', [seen], io, w'') && !w.pollFirst && !seen.poll.Failed?
    requires ComesFirst(w.alarms, first) && late in w.alarms && late != first
    requires forall id :: id in w.alarms ==> seen.now >= w.alarms[id].0
    requires ready != [] && ready[0] in w.io
             && ready == if w.pending != [] then w.pending else Chosen(w.watched, seen.poll.Hits())
    ensures alarm.Alarm? && io.Io? && !w''.pollFirst && w'.alarms == w''.alarms == w.alarms - {first}
    ensures w''.io == w.io - {ready[0]} && w''.pending == ready[1..]
  {
    FirstFires(w, seen, alarm, w', first);
    assert late in w'.alarms && ready[0] in w'.io;
    IoComes(w', seen, io, w'', ready);
  }

  /**
   In every such run, the last alarm is registered and due all the time, and I/O overtakes it twice once the first has
   fired.
   */
  lemma LateAlarmIsOvertakenTwice(worlds: seq<World>, events: seq<Event>)
    requires IsRun(worlds, events) && worlds[0] == NOTHING_YET && CrowdedRun(events)
    ensures RunPast(worlds[6], events[4].id, worlds[6..], events[6..]) && IoResults(events[6..]) == 2
    ensures events[4].id in worlds[9].alarms
  {
    CrowdedWaits(worlds, events);
    forall k | 0 <= k < 3 ensures Happens(worlds[6..][k], events[6..][k], worlds[6..][k + 1]) {
      assert Happens(worlds[6 + k], events[6 + k], worlds[6 + k + 1]);
    }
    CountOfThree(events[6..]);
  }

  lemma CountOfThree(events: seq<Event>)
    requires |events| == 3 && forall k :: 0 <= k < 3 ==> events[k].Waited?
    ensures IoResults(events) == AsNat(events[0].result.Io?) + AsNat(events[1].result.Io?) + AsNat(events[2].result.Io?)
  {
    assert events[..2][..1] == events[..1] && events[..1][..0] == [];
    assert IoResults(events[..1]) == AsNat(events[0].result.Io?);
    assert IoResults(events[..2]) == IoResults(events[..1]) + AsNat(events[1].result.Io?);
  }

  // ---- exactly when a due alarm is overtaken at most once ----

  /** In no run does I/O overtake the due alarm more than once. */
  ghost predicate OvertakenAtMostOnce(w: World, id: int) {
    forall worlds, events :: RunPast(w, id, worlds, events) ==> IoResults(events) <= 1
  }

  lemma AtMostOnceExactly(w: World, id: int)
    requires id in w.alarms
    ensures OvertakenAtMostOnce(w, id) <==> Budget(w, id) <= 1
  {
    if Budget(w, id) <= 1 {
      forall worlds, events | RunPast(w, id, worlds, events) ensures IoResults(events) <= 1 {
        OvertakingStaysInBudget(w, id, worlds, events);
      }
    } else {
      var worlds, events := BudgetIsReached(w, id);
    }
  }

  /**
   A user does not see whose turn it is.  Whosever it is, a due alarm is overtaken at most once, if and only if no other
   alarm is registered that is due as early.
   */
  lemma AtMostOnceIffNoneAsEarly(w: World, id: int)
    requires id in w.alarms
    ensures (forall turn: bool :: OvertakenAtMostOnce(w.(pollFirst := turn), id)) <==>
            (forall other :: other in w.alarms && other != id ==> w.alarms[other].0 > w.alarms[id].0)
  {
    AtMostOnceExactly(w.(pollFirst := true), id);
    AtMostOnceExactly(w.(pollFirst := false), id);
    var others := AsEarly(w.alarms, id);
    assert (forall other :: other in w.alarms && other != id ==> w.alarms[other].0 > w.alarms[id].0) <==>
           others == {} by {
      assert forall other :: other in others <==>
             other in w.alarms && other != id && w.alarms[other].0 <= w.alarms[id].0;
    }
    assert Budget(w.(pollFirst := true), id) == |others| + 1;
    assert Budget(w.(pollFirst := false), id) == |others|;
    if forall turn: bool :: OvertakenAtMostOnce(w.(pollFirst := turn), id) {
      assert OvertakenAtMostOnce(w.(pollFirst := true), id);
    } else {
      var turn: bool :| !OvertakenAtMostOnce(w.(pollFirst := turn), id);
    }
  }

  // ---- I/O gets its turn ----

  /** A poll while an alarm is due ends the turn of I/O, and nothing else does. */
  lemma {:induction false} RoundsPoll(w: World, front: int, observations: seq<Observation>)
    requires front in w.alarms
    ensures var t := Rounds(w, front, observations);
            && t.world.duePolls >= w.duePolls
            && (w.pollFirst && !t.world.pollFirst ==> t.world.duePolls > w.duePolls)
            && (t.result.Alarm? ==> t.world.pollFirst)
            && (t.result.Alarm? && w.pollFirst && w.io != map[] ==> t.world.duePolls > w.duePolls)
    decreases |observations|
  {
    if observations != [] {
      var t := RoundOf(w, front, observations[0]);
      if t.result.StillWaiting? { RoundsPoll(t.world, front, observations[1..]); }
    }
  }

  lemma {:induction false} IoRoundsPoll(w: World, observations: seq<Observation>)
    ensures var t := IoRounds(w, observations);
            t.world.duePolls == w.duePolls && t.world.pollFirst == w.pollFirst && !t.result.Alarm?
    decreases |observations|
  {
    if observations != [] { IoRoundsPoll(w, observations[1..]); }
  }

  lemma EventPolls(w: World, e: Event, w': World)
    requires Happens(w, e, w')
    ensures w'.duePolls >= w.duePolls && (w.pollFirst && !w'.pollFirst ==> w'.duePolls > w.duePolls)
    ensures e.Waited? && e.result.Alarm? ==> w'.pollFirst && (w.pollFirst && w.io != map[] ==> w'.duePolls > w.duePolls)
  {
    if e.Waited? {
      if w.alarms != map[] {
        var front :| RoundsEnd(w, front, e.observations, Turn(w', e.result));
        RoundsPoll(w, front, e.observations);
      } else if w.io != map[] {
        IoRoundsPoll(w, e.observations);
      }
    }
  }

  lemma {:induction false} TurnOfIoLasts(worlds: seq<World>, events: seq<Event>, i: int, j: int)
    requires IsRun(worlds, events) && 0 <= i <= j < |worlds| && worlds[i].pollFirst
    ensures worlds[j].duePolls >= worlds[i].duePolls
    ensures worlds[j].pollFirst || worlds[j].duePolls > worlds[i].duePolls
    decreases j
  {
    if i < j {
      TurnOfIoLasts(worlds, events, i, j - 1);
      assert Happens(worlds[j - 1], events[j - 1], worlds[j - 1 + 1]);
      EventPolls(worlds[j - 1], events[j - 1], worlds[j]);
    }
  }

  /** Between two alarms I/O is polled, if any is registered when wait is called for the second one. */
  lemma IoIsPolledBetweenAlarms(worlds: seq<World>, events: seq<Event>, i: int, j: int)
    requires IsRun(worlds, events) && 0 <= i < j < |events|
    requires events[i].Waited? && events[i].result.Alarm? && events[j].Waited? && events[j].result.Alarm?
    requires worlds[j].io != map[]
    ensures worlds[j + 1].duePolls > worlds[i + 1].duePolls
  {
    assert Happens(worlds[i], events[i], worlds[i + 1]) && Happens(worlds[j], events[j], worlds[j + 1]);
    EventPolls(worlds[i], events[i], worlds[i + 1]);
    TurnOfIoLasts(worlds, events, i + 1, j);
    EventPolls(worlds[j], events[j], worlds[j + 1]);
  }

  // ---- every registered callback is handed out once ----

  /** How often a ticket is on the two lists. */
  function Places(watched: seq<int>, pending: seq<int>, ticket: int): nat {
    multiset(watched)[ticket] + multiset(pending)[ticket]
  }

  /** Every ticket that is registered is on one of the lists, once, and no other ticket is. */
  ghost predicate OnOneList(w: World) {
    forall ticket :: Places(w.watched, w.pending, ticket) == AsNat(ticket in w.io)
  }

  lemma {:induction false} SortedOut(members: seq<int>, ready: set<int>, id: int)
    ensures multiset(Chosen(members, ready))[id] == if id in ready then multiset(members)[id] else 0
    ensures multiset(Others(members, ready))[id] == if id in ready then 0 else multiset(members)[id]
    decreases |members|
  {
    if members != [] {
      var front, last := members[..|members| - 1], members[|members| - 1];
      assert members == front + [last];
      SortedOut(front, ready, id);
    }
  }

  /** Taking the first of the tickets that are ready off its list. */
  lemma FirstTaken(others: seq<int>, ready: seq<int>, left: seq<int>, io: set<int>, ticket: int)
    requires ready != [] && left == ready[1..] && Places(others, ready, ticket) == AsNat(ticket in io)
    ensures ticket == ready[0] ==> ticket in io
    ensures Places(others, left, ticket) == AsNat(ticket in io - {ready[0]})
  {
    assert ready == [ready[0]] + left;
  }

  lemma SelectKeepsLists(w: World, poll: PollResult)
    requires OnOneList(w)
    ensures var t := SelectIo(w, poll);
            OnOneList(t.world)
                && (t.result.Io? ==> t.result.ticket in w.io && t.result.callback == w.io[t.result.ticket])
  {
    var t := SelectIo(w, poll);
    if t.result.Io? {
      var ready := if w.pending != [] then w.pending else Chosen(w.watched, poll.Hits());
      forall ticket ensures Places(t.world.watched, t.world.pending, ticket) == AsNat(ticket in t.world.io) {
        ReadyOrNot(w, poll, ticket);
        FirstTaken(t.world.watched, ready, t.world.pending, w.io.Keys, ticket);
      }
      ReadyOrNot(w, poll, ready[0]);
      FirstTaken(t.world.watched, ready, t.world.pending, w.io.Keys, ready[0]);
    }
  }

  lemma ReadyOrNot(w: World, poll: PollResult, ticket: int)
    requires OnOneList(w)
    ensures var (others, ready) := if w.pending != [] then (w.watched, w.pending)
                                   else (Others(w.watched, poll.Hits()), Chosen(w.watched, poll.Hits()));
            Places(others, ready, ticket) == AsNat(ticket in w.io)
  {
    SortedOut(w.watched, poll.Hits(), ticket);
    assert Places(w.watched, w.pending, ticket) == AsNat(ticket in w.io);
  }

  /** The lists are in order, and an I/O callback that is handed out was registered in `w`, and no longer is. */
  ghost predicate HandsOut(w: World, t: Turn) {
    && OnOneList(t.world)
    && (t.result.Io? ==>
        t.result.ticket in w.io && t.result.callback == w.io[t.result.ticket] && t.world.io == w.io - {t.result.ticket})
    && (!t.result.Io? ==> t.world.io == w.io) && (!t.result.Alarm? ==> t.world.alarms == w.alarms)
  }

  lemma RoundHandsOut(w: World, front: int, seen: Observation)
    requires OnOneList(w) && front in w.alarms
    ensures HandsOut(w, RoundOf(w, front, seen))
  {
    SelectKeepsLists(w, seen.poll);
    var polled := w.(pollFirst := false, duePolls := w.duePolls + 1);
    assert OnOneList(polled);
    SelectKeepsLists(polled, seen.poll);
  }

  lemma {:induction false} RoundsHandOut(w: World, front: int, observations: seq<Observation>)
    requires OnOneList(w) && front in w.alarms
    ensures HandsOut(w, Rounds(w, front, observations))
    decreases |observations|
  {
    if observations != [] {
      RoundHandsOut(w, front, observations[0]);
      var t := RoundOf(w, front, observations[0]);
      if t.result.StillWaiting? { RoundsHandOut(t.world, front, observations[1..]); }
    }
  }

  lemma {:induction false} IoRoundsHandOut(w: World, observations: seq<Observation>)
    requires OnOneList(w)
    ensures HandsOut(w, IoRounds(w, observations))
    decreases |observations|
  {
    if observations != [] {
      SelectKeepsLists(w, observations[0].poll);
      var t := SelectIo(w, observations[0].poll);
      if t.result.StillWaiting? { IoRoundsHandOut(t.world, observations[1..]); }
    }
  }

  lemma WaitHandsOut(w: World, observations: seq<Observation>, result: Result, w': World)
    requires OnOneList(w) && Waits(w, observations, result, w')
    ensures HandsOut(w, Turn(w', result))
  {
    if w.alarms != map[] {
      var front :| RoundsEnd(w, front, observations, Turn(w', result));
      RoundsHandOut(w, front, observations);
    } else if w.io != map[] {
      IoRoundsHandOut(w, observations);
    }
  }

  /** Whatever users do, every registered ticket stays on one of the lists. */
  lemma EventKeepsLists(w: World, e: Event, w': World)
    requires OnOneList(w) && Happens(w, e, w')
    ensures OnOneList(w')
  {
    match e
    case AlarmCalled(_, _, _) => SameLists(w, w');
    case AlarmCancelled(_) => SameLists(w, w');
    case IoRefused =>
    case Waited(observations, result) => WaitHandsOut(w, observations, result, w');
    case IoCalled(called, _) =>
      forall ticket ensures Places(w'.watched, w'.pending, ticket) == AsNat(ticket in w'.io) {
        assert Places(w.watched, w.pending, ticket) == AsNat(ticket in w.io);
      }
    case IoCancelled(cancelled) =>
      if cancelled in w.io {
        forall ticket ensures Places(w'.watched, w'.pending, ticket) == AsNat(ticket in w'.io) {
          SortedOut(w.watched, {cancelled}, ticket);
          SortedOut(w.pending, {cancelled}, ticket);
          assert Places(w.watched, w.pending, ticket) == AsNat(ticket in w.io);
        }
      }
  }

  lemma SameLists(w: World, w': World)
    requires OnOneList(w) && w'.watched == w.watched && w'.pending == w.pending && w'.io == w.io
    ensures OnOneList(w')
  {
    forall ticket ensures Places(w'.watched, w'.pending, ticket) == AsNat(ticket in w'.io) {
      assert Places(w.watched, w.pending, ticket) == AsNat(ticket in w.io);
    }
  }

  lemma {:induction false} RunKeepsLists(worlds: seq<World>, events: seq<Event>, k: nat)
    requires IsRun(worlds, events) && OnOneList(worlds[0]) && k <= |events|
    ensures OnOneList(worlds[k])
  {
    if k > 0 {
      RunKeepsLists(worlds, events, k - 1);
      assert Happens(worlds[k - 1], events[k - 1], worlds[k - 1 + 1]);
      EventKeepsLists(worlds[k - 1], events[k - 1], worlds[k]);
    }
  }

  /** In every run, what a call of wait hands out was registered, with that callback, and no longer is afterwards. */
  lemma HandedOutOnce(worlds: seq<World>, events: seq<Event>, k: nat)
    requires IsRun(worlds, events) && OnOneList(worlds[0]) && k < |events| && events[k].Waited?
    ensures var w, result, w' := worlds[k], events[k].result, worlds[k + 1];
            && (result.Alarm? ==> result.id in w.alarms && w.alarms[result.id] == (result.due, result.callback)
                                  && w'.alarms == w.alarms - {result.id} && w'.io == w.io)
            && (result.Io? ==> result.ticket in w.io && w.io[result.ticket] == result.callback
                               && w'.io == w.io - {result.ticket} && w'.alarms == w.alarms)
            && (!result.Alarm? && !result.Io? ==> w'.alarms == w.alarms && w'.io == w.io)
  {
    RunKeepsLists(worlds, events, k);
    assert Happens(worlds[k], events[k], worlds[k + 1]);
    WaitAccounts(worlds[k], events[k].observations, events[k].result, worlds[k + 1]);
    WaitHandsOut(worlds[k], events[k].observations, events[k].result, worlds[k + 1]);
  }
}
