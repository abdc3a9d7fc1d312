/** The scheduler object: an alarm heap, a selector, and a flag that makes them take turns. */
module DefaultSchedulers {
  import opened HeapOrder
  import opened IndexedHeaps
  import opened PollSelectors
  import opened SchedulerRuns
  import opened SchedulerTheorems
  import opened Wrappers

  /** Makes the heap put the earliest alarm in front. */
  const Later: (int, int) -> bool := (a, b) => a > b

  class DefaultScheduler {
    const alarms: IndexedHeap<int, Callback>
    const selector: PollSelector
    var pollFirst: bool

    ghost var duePolls: nat // how often select was called while an alarm was due

    ghost predicate Valid()
      reads this, alarms, selector, selector.callbacks
    {
      alarms.Valid() && selector.Valid() && alarms.less == Later
    }

    ghost function State(): World
      reads this, alarms, selector, selector.callbacks
    {
      World(alarms.Contents(), selector.callbacks.Values(), selector.watched, selector.pending, pollFirst, duePolls)
    }

    constructor (maxSize: nat)
      ensures Valid() && fresh(alarms) && fresh(selector) && fresh(selector.callbacks)
      ensures State() == World(map[], map[], [], [], false, 0)
      ensures selector.maxSize == maxSize && |selector.callbacks.nodes| <= 2
    {
      LaterIsStrictWeakOrder();
      alarms := new IndexedHeap<int, Callback>(Later);
      selector := new PollSelector(maxSize);
      pollFirst := false;
      duePolls := 0;
    }

    method CallAlarm(due: int, callback: Callback) returns (id: int)
      requires Valid()
      modifies alarms
      ensures Valid() && id !in old(State().alarms)
      ensures State() == old(State().(alarms := State().alarms[id := (due, callback)]))
    {
      id := alarms.AddElement(due, callback);
    }

    method CancelAlarm(id: int)
      requires Valid() && id in State().alarms
      modifies alarms
      ensures Valid() && State() == old(State().(alarms := State().alarms - {id}))
    {
      alarms.RemoveElement(id);
    }

    /** A ticket is refused, by an exception, only if the arena has as many nodes as there may be poll entries. */
    method CallWhenReady(fd: int, events: int, callback: Callback) returns (ticket: Option<int>)
      requires Valid() && fd != -1
      modifies selector, selector.callbacks
      ensures Valid()
      ensures ticket == None ==> State() == old(State()) && old(|selector.callbacks.nodes|) >= selector.maxSize
      ensures ticket.Some? ==> Happens(old(State()), IoCalled(ticket.value, callback), State())
      ensures |selector.callbacks.nodes| <= old(|selector.callbacks.nodes|) + 1
    {
      ticket := selector.MakeTicket(fd, events, callback);
    }

    method CancelIo(ticket: int)
      requires Valid() && ticket in State().io
      modifies selector, selector.callbacks
      ensures Valid() && Happens(old(State()), IoCancelled(ticket), State())
    {
      selector.CancelTicket(ticket);
    }

    method HasWork() returns (work: bool)
      requires selector.Valid()
      ensures work <==> State().io != map[]
    {
      selector.HasWorkMeansCallbacks();
      work := selector.HasWork();
    }

    /** Polls for I/O, and hands out at most one callback. */
    method SelectFromSelector(poll: PollResult) returns (result: Result)
      requires Valid() && State().io != map[]
      modifies selector, selector.callbacks
      ensures Valid() && SelectIo(old(State()), poll) == Turn(State(), result)
    {
      selector.HasWorkMeansCallbacks();
      ghost var w := State();
      var outcome := selector.Select(poll);
      assert State() == w.(io := State().io, watched := State().watched, pending := State().pending);
      match outcome
      case Event(ticket, callback) => result := Io(ticket, callback);
      case NoEvent => result := StillWaiting;
      case PollError => result := PollFailed;
    }

    /** One round of the loop in wait: `limit` is when the first alarm is due. */
    method Round(alarmId: int, limit: int, seen: Observation) returns (result: Result)
      requires Valid() && alarmId in State().alarms && State().alarms[alarmId].0 == limit
      modifies this, alarms, selector, selector.callbacks
      ensures Valid() && RoundOf(old(State()), alarmId, seen) == Turn(State(), result)
    {
      var hasWork := HasWork();
      if seen.now >= limit {
        if pollFirst && hasWork {
          // poll for I/O
          pollFirst := false;
          duePolls := duePolls + 1;
          result := SelectFromSelector(seen.poll);
        } else {
          // select alarmId
          pollFirst := true;
          result := Alarm(alarmId, limit, alarms.Value(alarmId));
          alarms.RemoveElement(alarmId);
        }
      } else if hasWork {
        // wait for I/O until limit
        result := SelectFromSelector(seen.poll);
      } else {
        // sleep until limit
        result := StillWaiting;
      }
    }

    /** Runs until something is to be called, or as long as the observations last. */
    method Wait(observations: seq<Observation>) returns (result: Result)
      requires Valid()
      modifies this, alarms, selector, selector.callbacks
      ensures Valid() && Waits(old(State()), observations, result, State())
    {
      alarms.EmptyMeansNoContents();
      if !alarms.Empty() {
        result := WaitForAlarm(observations);
      } else {
        var hasWork := HasWork();
        if hasWork {
          result := WaitForIo(observations);
        } else {
          result := OutOfWork;
        }
      }
    }

    method WaitForAlarm(observations: seq<Observation>) returns (result: Result)
      requires Valid() && !alarms.Empty()
      modifies this, alarms, selector, selector.callbacks
      ensures Valid() && exists front :: RoundsEnd(old(State()), front, observations, Turn(State(), result))
    {
      var alarmId := alarms.FrontElement();
      var limit := alarms.Priority(alarmId);
      ghost var w := State();
      assert IsFirst(w.alarms, alarmId);
      ghost var end := Rounds(w, alarmId, observations);
      var i := 0;
      result := StillWaiting;
      assert observations[0..] == observations;
      while i < |observations| && result == StillWaiting
        invariant 0 <= i <= |observations| && Valid()
        invariant result == StillWaiting ==>
                    && alarmId in State().alarms && State().alarms[alarmId].0 == limit
                    && Rounds(State(), alarmId, observations[i..]) == end
        invariant result != StillWaiting ==> Turn(State(), result) == end
      {
        RoundsFrom(State(), alarmId, observations, i);
        result := Round(alarmId, limit, observations[i]);
        i := i + 1;
      }
      assert RoundsEnd(w, alarmId, observations, Turn(State(), result));
    }

    method WaitForIo(observations: seq<Observation>) returns (result: Result)
      requires Valid() && State().io != map[]
      modifies selector, selector.callbacks
      ensures Valid() && IoRounds(old(State()), observations) == Turn(State(), result)
    {
      ghost var end := IoRounds(State(), observations);
      var i := 0;
      result := StillWaiting;
      assert observations[0..] == observations;
      while i < |observations| && result == StillWaiting
        invariant 0 <= i <= |observations| && Valid()
        invariant result == StillWaiting ==>
                    State().io != map[] && IoRounds(State(), observations[i..]) == end
        invariant result != StillWaiting ==> Turn(State(), result) == end
      {
        IoRoundsFrom(State(), observations, i);
        result := SelectFromSelector(observations[i].poll);
        i := i + 1;
      }
    }
  }

  /** What users may ask of a scheduler. */
  datatype Step =
    | CallAlarm(due: int, callback: Callback)
    | CancelAlarm(id: int)
    | CallWhenReady(fd: nat, events: int, callback: Callback)
    | CancelIo(ticket: int)
    | Wait(observations: seq<Observation>)

  /** A step that registers something. */
  predicate Registers(step: Step) {
    step.CallAlarm? || step.CallWhenReady?
  }

  /** The event is the step, with an answer. */
  predicate Answers(step: Step, e: Event) {
    match step
    case CallAlarm(due, callback) => e.AlarmCalled? && e.due == due && e.callback == callback
    case CancelAlarm(id) => e == AlarmCancelled(id)
    case CallWhenReady(_, _, callback) => e == IoRefused || (e.IoCalled? && e.callback == callback)
    case CancelIo(ticket) => e == IoCancelled(ticket)
    case Wait(observations) => e.Waited? && e.observations == observations
  }

  method Perform(scheduler: DefaultScheduler, step: Step) returns (e: Event)
    requires scheduler.Valid()
    modifies scheduler, scheduler.alarms, scheduler.selector, scheduler.selector.callbacks
    ensures scheduler.Valid() && Answers(step, e) && Happens(old(scheduler.State()), e, scheduler.State())
    ensures e.IoRefused? ==> old(|scheduler.selector.callbacks.nodes|) >= scheduler.selector.maxSize
    ensures Registers(step) ==> |scheduler.selector.callbacks.nodes| <= old(|scheduler.selector.callbacks.nodes|) + 1
  {
    match step
    case CallAlarm(due, callback) =>
      var id := scheduler.CallAlarm(due, callback);
      e := AlarmCalled(id, due, callback);
    case CancelAlarm(id) =>
      if Used(scheduler.alarms.elements, id) {
        scheduler.CancelAlarm(id);
      }
      e := AlarmCancelled(id);
    case CallWhenReady(fd, events, callback) =>
      var ticket := scheduler.CallWhenReady(fd, events, callback);
      e := if ticket.Some? then IoCalled(ticket.value, callback) else IoRefused;
    case CancelIo(ticket) =>
      IsRegistered(scheduler, ticket);
      if scheduler.selector.callbacks.IsElement(ticket) {
        scheduler.CancelIo(ticket);
      }
      e := IoCancelled(ticket);
    case Wait(observations) =>
      var result := scheduler.Wait(observations);
      e := Waited(observations, result);
  }

  /**
   Any run of a scheduler is a run of its specification; so I/O overtakes an alarm that stays registered, is due all the
   time, and is not cut in front of, within its budget.
   */
  method Play(scheduler: DefaultScheduler, script: seq<Step>) returns (events: seq<Event>, ghost worlds: seq<World>)
    requires scheduler.Valid()
    modifies scheduler, scheduler.alarms, scheduler.selector, scheduler.selector.callbacks
    ensures scheduler.Valid() && |events| == |script| && forall k :: 0 <= k < |script| ==> Answers(script[k], events[k])
    ensures IsRun(worlds, events) && worlds[0] == old(scheduler.State()) && worlds[|script|] == scheduler.State()
    ensures OnOneList(worlds[0])
    ensures forall id :: RunPast(worlds[0], id, worlds, events) ==> IoResults(events) <= Budget(worlds[0], id)
  {
    StateIsOnLists(scheduler);
    events, worlds := [], [scheduler.State()];
    var i := 0;
    while i < |script|
      invariant 0 <= i <= |script| && scheduler.Valid()
      invariant |events| == i && forall k :: 0 <= k < i ==> Answers(script[k], events[k])
      invariant IsRun(worlds, events) && worlds[0] == old(scheduler.State()) && worlds[i] == scheduler.State()
    {
      var e := Perform(scheduler, script[i]);
      RunGrows(worlds, events, e, scheduler.State());
      events, worlds := events + [e], worlds + [scheduler.State()];
      i := i + 1;
    }
    forall id | RunPast(worlds[0], id, worlds, events) ensures IoResults(events) <= Budget(worlds[0], id) {
      OvertakingStaysInBudget(worlds[0], id, worlds, events);
    }
  }

  lemma RunGrows(worlds: seq<World>, events: seq<Event>, e: Event, w: World)
    requires IsRun(worlds, events) && Happens(worlds[|events|], e, w)
    ensures IsRun(worlds + [w], events + [e])
  {
    var worlds', events' := worlds + [w], events + [e];
    forall k | 0 <= k < |events'| ensures Happens(worlds'[k], events'[k], worlds'[k + 1]) {
      if k < |events| { assert Happens(worlds[k], events[k], worlds[k + 1]); }
    }
  }

  lemma IsRegistered(scheduler: DefaultScheduler, ticket: int)
    requires scheduler.Valid()
    ensures ticket in scheduler.State().io <==> scheduler.selector.callbacks.IsElement(ticket)
  {
    if ticket in scheduler.State().io { scheduler.selector.callbacks.ElementIsListed(ticket); }
  }

  lemma StateIsOnLists(scheduler: DefaultScheduler)
    requires scheduler.Valid()
    ensures OnOneList(scheduler.State())
  {
    scheduler.selector.EachOnOneList();
    forall ticket ensures Places(scheduler.selector.watched, scheduler.selector.pending, ticket)
        == AsNat(ticket in scheduler.State().io) {
    }
  }

  /** A script that only registers, in a selector with enough room, is not refused anything. */
  method Register(scheduler: DefaultScheduler, script: seq<Step>) returns (events: seq<Event>, ghost worlds: seq<World>)
    requires scheduler.Valid() && forall k :: 0 <= k < |script| ==> Registers(script[k])
    requires |scheduler.selector.callbacks.nodes| + |script| <= scheduler.selector.maxSize
    modifies scheduler, scheduler.alarms, scheduler.selector, scheduler.selector.callbacks
    ensures scheduler.Valid() && AreAnswers(script, events)
    ensures IsRun(worlds, events) && worlds[0] == old(scheduler.State()) && worlds[|script|] == scheduler.State()
  {
    events, worlds := [], [scheduler.State()];
    var i := 0;
    while i < |script|
      invariant 0 <= i <= |script| && scheduler.Valid()
      invariant |scheduler.selector.callbacks.nodes| + |script| - i <= scheduler.selector.maxSize
      invariant |events| == i && forall k :: 0 <= k < i ==> Answers(script[k], events[k]) && !events[k].IoRefused?
      invariant IsRun(worlds, events) && worlds[0] == old(scheduler.State()) && worlds[i] == scheduler.State()
    {
      var e := Perform(scheduler, script[i]);
      RunGrows(worlds, events, e, scheduler.State());
      events, worlds := events + [e], worlds + [scheduler.State()];
      i := i + 1;
    }
  }

  lemma RunsJoin(worlds: seq<World>, events: seq<Event>, worlds': seq<World>, events': seq<Event>)
    requires IsRun(worlds, events) && IsRun(worlds', events') && worlds[|events|] == worlds'[0]
    ensures IsRun(worlds + worlds'[1..], events + events')
    ensures (worlds + worlds'[1..])[|events + events'|] == worlds'[|events'|]
  {
    var all, allEvents := worlds + worlds'[1..], events + events';
    forall k | 0 <= k < |allEvents| ensures Happens(all[k], allEvents[k], all[k + 1]) {
      if k < |events| {
        assert Happens(worlds[k], events[k], worlds[k + 1]);
      } else {
        var j := k - |events|;
        assert Happens(worlds'[j], events'[j], worlds'[j + 1]);
      }
    }
  }

  /**
   A run of a scheduler object in which I/O comes twice before a due alarm: three alarms and two I/O callbacks are
   registered, and everything is due and ready; when the first alarm has fired, one more alarm is in front of `late`.
   */
  method LaterAlarmIsOvertakenTwice()
    returns (scheduler: DefaultScheduler, late: int, events: seq<Event>, ghost worlds: seq<World>)
    ensures scheduler.Valid() && IsRun(worlds, events) && |events| == 9
    ensures worlds[0] == NOTHING_YET && worlds[9] == scheduler.State()
    ensures RunPast(worlds[6], late, worlds[6..], events[6..]) && IoResults(events[6..]) == 2
    ensures late in scheduler.State().alarms
  {
    scheduler := new DefaultScheduler(10);
    events, worlds := Register(scheduler, CALLS);
    late := events[4].id;
    var wait := Step.Wait(WhenAllReady(events));
    var waits;
    ghost var worlds';
    waits, worlds' := Play(scheduler, [wait, wait, wait, wait]);
    AnswersAreCrowdedRun(events, waits, wait);
    RunsJoin(worlds, events, worlds', waits);
    events, worlds := events + waits, worlds + worlds'[1..];
    LateAlarmIsOvertakenTwice(worlds, events);
  }

  /** Two I/O callbacks, and three alarms that are due one after the other. */
  const CALLS: seq<Step> :=
    [CallWhenReady(5, 1, 4), CallWhenReady(6, 1, 5), CallAlarm(0, 1), CallAlarm(1, 2), CallAlarm(2, 3)]

  ghost predicate AreAnswers(script: seq<Step>, events: seq<Event>) {
    |events| == |script| && forall k :: 0 <= k < |script| ==> Answers(script[k], events[k]) && !events[k].IoRefused?
  }

  function WhenAllReady(events: seq<Event>): seq<Observation>
    requires AreAnswers(CALLS, events)
  {
    assert Answers(CALLS[0], events[0]) && Answers(CALLS[1], events[1]);
    AllReady(events)
  }

  lemma AnswersAreCrowdedRun(events: seq<Event>, waits: seq<Event>, wait: Step)
    requires AreAnswers(CALLS, events) && wait == Step.Wait(WhenAllReady(events))
    requires |waits| == 4 && forall k :: 0 <= k < 4 ==> Answers([wait, wait, wait, wait][k], waits[k])
    ensures CrowdedRun(events + waits)
  {
    forall k | 0 <= k < 5 ensures Answers(CALLS[k], events[k]) && !events[k].IoRefused? {
    }
    var all := events + waits;
    assert all[0] == events[0] && all[1] == events[1];
    forall k | 5 <= k < 9 ensures all[k].Waited? && all[k].observations == AllReady(all) {
      assert Answers([wait, wait, wait, wait][k - 5], waits[k - 5]);
    }
  }

  lemma LaterIsStrictWeakOrder()
    ensures StrictWeakOrder(Later)
  {
  }
}
