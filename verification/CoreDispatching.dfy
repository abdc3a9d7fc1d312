/** The core dispatcher object: the client lists, changed in place by the holder of the core lock. */
module CoreDispatching {
  import opened Wrappers
  import opened ClientLists

  /** A sequence of scheduler events after which `select_client` returns: only the last is decisive. */
  ghost predicate Script(core: Core, events: seq<CoreEvent>)
    decreases |events|
  {
    && events != []
    && Possible(core, events[0])
    && (Decisive(events[0]) <==> |events| == 1)
    && (|events| > 1 ==> Script(React(core, events[0]), events[1..]))
  }

  ghost function Replay(core: Core, events: seq<CoreEvent>): Core
    requires Script(core, events)
    decreases |events|
  {
    if |events| == 1 then React(core, events[0]) else Replay(React(core, events[0]), events[1..])
  }

  /** The events from position `i` on lead to `final`. */
  ghost predicate LeadsTo(core: Core, events: seq<CoreEvent>, i: int, final: Core) {
    forall key {:trigger Opened(key)} :: Opened(key) ==>
      && 0 <= i <= |events| && Valid(core)
      && if i == |events| then core == final else Script(core, events[i..]) && Replay(core, events[i..]) == final
  }

  lemma ReplayStarts(core: Core, events: seq<CoreEvent>)
    requires Valid(core) && Script(core, events)
    ensures LeadsTo(core, events, 0, Replay(core, events)) && events != []
  {
    assert events[0..] == events;
  }

  lemma ReplayEnds(core: Core, events: seq<CoreEvent>, final: Core)
    requires LeadsTo(core, events, |events|, final)
    ensures core == final && Valid(core)
  {
    assert Opened(true);
  }

  lemma ReplayStep(core: Core, events: seq<CoreEvent>, i: nat, final: Core)
    requires i < |events| && LeadsTo(core, events, i, final)
    ensures Possible(core, events[i])
    ensures events[i].ClientReady? ==> core.callbacks[events[i].client] == 1
    ensures LeadsTo(React(core, events[i]), events, i + 1, final) && (Decisive(events[i]) <==> i + 1 == |events|)
  {
    assert Opened(true);
    assert events[i..][1..] == events[i + 1..];
    EventIsSafe(core, events[i]);
  }

  class CoreDispatcher {
    const maxConnections: nat
    var monitoredClients: seq<ClientId>
    var servedClients: seq<ClientId>
    var callbacks: multiset<ClientId>
    ghost var returned: seq<ClientId>
    var wokenUp: bool
    var selectedClient: Option<ClientId>

    ghost function Lists(): Core
      reads this
    {
      Core(maxConnections, monitoredClients, servedClients, callbacks, returned)
    }

    /** What holds between two calls: the list invariants, and nothing is left over from a selection. */
    ghost predicate Consistent()
      reads this
    {
      Valid(Lists()) && !wokenUp && selectedClient == None
    }

    constructor (maxConnections: nat)
      ensures Consistent() && Lists() == Core(maxConnections, [], [], multiset{}, [])
    {
      this.maxConnections := maxConnections;
      monitoredClients, servedClients, callbacks, returned := [], [], multiset{}, [];
      wokenUp, selectedClient := false, None;
    }

    method CallWhenReadable(c: ClientId)
      modifies this`callbacks
      ensures callbacks == old(callbacks)[c := 1]
    {
      callbacks := callbacks[c := 0];
      callbacks := callbacks + multiset{c};
    }

    method ResumeMonitoring(c: ClientId, outcome: Outcome)
      requires c in servedClients
      modifies this`monitoredClients, this`servedClients, this`callbacks, this`returned
      ensures Lists() == ClientLists.ResumeMonitoring(old(Lists()), c, outcome)
    {
      if outcome != Completed {
        servedClients := Without(servedClients, c);
        callbacks := callbacks[c := 0];
      } else {
        if maxConnections != 0 && |monitoredClients| == maxConnections {
          var oldest := monitoredClients[|monitoredClients| - 1];
          monitoredClients := monitoredClients[..|monitoredClients| - 1];
          callbacks := callbacks[oldest := 0];
        }
        servedClients := Without(servedClients, c);
        monitoredClients := [c] + monitoredClients;
        returned := returned + [c];
        CallWhenReadable(c);
      }
    }

    method OnWakeupFlag(up: bool)
      modifies this`wokenUp
      ensures wokenUp == (old(wokenUp) || up)
    {
      if up {
        wokenUp := true;
      }
    }

    method OnListenerReady(accepted: Option<ClientId>)
      requires Possible(Lists(), ListenerReady(accepted))
      modifies this`monitoredClients, this`servedClients, this`callbacks, this`returned
      ensures Lists() == React(old(Lists()), ListenerReady(accepted))
    {
      if accepted.Some? {
        servedClients := [accepted.value] + servedClients;
        ResumeMonitoring(accepted.value, Completed);
      }
    }

    method OnClientReadable(c: ClientId, status: ReadStatus)
      requires callbacks[c] == 1 && selectedClient == None
      modifies this`monitoredClients, this`servedClients, this`callbacks, this`selectedClient
      ensures Lists() == React(old(Lists()), ClientReady(c, status))
      ensures selectedClient == if status == HasData then Some(c) else None
    {
      // the scheduler has handed out the callback, so it is no longer pending
      callbacks := callbacks - multiset{c};
      assert callbacks == old(callbacks)[c := 0];
      match status {
        case AtEof =>
          monitoredClients := Without(monitoredClients, c);
        case HasData =>
          monitoredClients := Without(monitoredClients, c);
          servedClients := [c] + servedClients;
          selectedClient := Some(c);
        case NotYet =>
          CallWhenReadable(c);
          assert callbacks == old(callbacks);
      }
    }

    method Invoke(event: CoreEvent)
      requires Possible(Lists(), event) && !wokenUp && selectedClient == None
      requires event.ClientReady? ==> callbacks[event.client] == 1
      modifies this
      ensures Lists() == React(old(Lists()), event)
      ensures wokenUp == (event.WakeupReady? && event.up)
      ensures selectedClient == Selection(event)
    {
      match event
      case WakeupReady(up) => OnWakeupFlag(up);
      case ListenerReady(accepted) => OnListenerReady(accepted);
      case ClientReady(c, status) => OnClientReadable(c, status);
    }

    /** One event of a script: the last one, and no other, ends the selection. */
    method InvokeNext(events: seq<CoreEvent>, i: nat, ghost final: Core)
      requires i < |events| && LeadsTo(Lists(), events, i, final) && !wokenUp && selectedClient == None
      modifies this
      ensures LeadsTo(Lists(), events, i + 1, final) && selectedClient == Selection(events[i])
      ensures if i + 1 == |events| then wokenUp == (selectedClient == None) else !wokenUp && selectedClient == None
    {
      ReplayStep(Lists(), events, i, final);
      Invoke(events[i]);
    }

    /** Returns `None` if the holder was pushed aside, and otherwise the client to serve next. */
    method SelectClient(events: seq<CoreEvent>) returns (result: Option<ClientId>)
      requires Consistent() && Script(Lists(), events)
      modifies this
      ensures Consistent() && Lists() == Replay(old(Lists()), events)
      ensures result == Selection(events[|events| - 1])
    {
      ReplayStarts(Lists(), events);
      ghost var final := Replay(Lists(), events);
      result := ProcessEvents(events, final);
      ReplayEnds(Lists(), events, final);
    }

    method ProcessEvents(events: seq<CoreEvent>, ghost final: Core) returns (result: Option<ClientId>)
      requires events != [] && LeadsTo(Lists(), events, 0, final) && !wokenUp && selectedClient == None
      modifies this
      ensures LeadsTo(Lists(), events, |events|, final) && !wokenUp && selectedClient == None
      ensures result == Selection(events[|events| - 1])
    {
      var i := 0;
      while i == 0 || (!wokenUp && selectedClient == None)
        invariant 0 <= i <= |events| && LeadsTo(Lists(), events, i, final)
        invariant i < |events| ==> !wokenUp && selectedClient == None
        invariant i == |events| ==> wokenUp == (selectedClient == None) && selectedClient == Selection(events[i - 1])
        decreases |events| - i
      {
        InvokeNext(events, i, final);
        i := i + 1;
      }
      result := selectedClient;
      ghost var core := Lists();
      wokenUp, selectedClient := false, None;
      assert Lists() == core;
    }
  }

  lemma EventIsSafe(core: Core, e: CoreEvent)
    requires Valid(core) && Possible(core, e)
    ensures Valid(React(core, e))
    ensures e.ClientReady? ==> core.callbacks[e.client] == 1
  {
    ReactKeepsValid(core, e);
    if e.ClientReady? { ExactlyOneCallback(core, e.client); }
  }

  /** Selection hands over the client named by the last event, and no other served client changes. */
  lemma {:induction false} SelectionServesExactlyOne(core: Core, events: seq<CoreEvent>)
    requires Valid(core) && Script(core, events)
    ensures Valid(Replay(core, events))
    ensures ServesSelection(core, Replay(core, events), Selection(events[|events| - 1]))
    decreases |events|
  {
    EventServesSelection(core, events[0]);
    if |events| > 1 {
      var core' := React(core, events[0]);
      SelectionServesExactlyOne(core', events[1..]);
      assert Replay(core, events) == Replay(core', events[1..]);
      assert Selection(events[0]) == None && multiset(core'.served) == multiset(core.served);
      SameMembers(core'.served, core.served);
    }
  }

  lemma SameMembers(s: seq<ClientId>, t: seq<ClientId>)
    requires multiset(s) == multiset(t)
    ensures forall c :: c in s <==> c in t
  {
    forall c ensures c in s <==> c in t {
      assert c in multiset(s) <==> c in multiset(t);
    }
  }

  lemma ExactlyOneCallback(core: Core, c: ClientId)
    requires Valid(core) && c in core.callbacks
    ensures core.callbacks[c] == 1 && c in core.monitored
  {
    CallbacksNameMonitoredClients(core, c);
    ExactlyOnePlace(core, c);
  }
}
