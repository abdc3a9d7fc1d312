/**
 The two client lists of the core dispatcher, and the callbacks that its scheduler holds for them.

 The lists are changed only by the thread that holds the core lock; `CoreDispatcher` below is
 the object whose methods change them, and the functions of this module say what each method
 does.  `DispatcherSystem` embeds the same functions in the runs of all threads together.
 */
module ClientLists {
  import opened Wrappers

  type ClientId = int

  /** How the handling of a client's last request ended. */
  datatype Outcome = Completed | Interrupted | InputError | OutputError

  /** What a monitored client's input buffer reports when its callback is invoked. */
  datatype ReadStatus = NotYet | AtEof | HasData

  /** The events that the core scheduler can report to the thread that holds the core lock. */
  datatype CoreEvent =
    | WakeupReady(up: bool)
    | ListenerReady(accepted: Option<ClientId>)
    | ClientReady(client: ClientId, status: ReadStatus)

  /** `returned` is the history of all moves to the front of the monitored list. */
  datatype Core = Core(
    maxConnections: nat,
    monitored: seq<ClientId>,
    served: seq<ClientId>,
    callbacks: multiset<ClientId>,
    returned: seq<ClientId>)

  function Without(s: seq<ClientId>, c: ClientId): seq<ClientId> {
    if s == [] then [] else if s[0] == c then s[1..] else [s[0]] + Without(s[1..], c)
  }

  /** The position of the last occurrence of `c`, or -1. */
  function LastIndex(s: seq<ClientId>, c: ClientId): int {
    if s == [] then -1 else if s[|s| - 1] == c then |s| - 1 else LastIndex(s[..|s| - 1], c)
  }

  predicate Live(core: Core, c: ClientId) {
    c in core.monitored || c in core.served
  }

  /** Destroying a served client also cancels whatever callback it still has. */
  function DestroyServed(core: Core, c: ClientId): Core {
    core.(served := Without(core.served, c), callbacks := core.callbacks[c := 0])
  }

  function DestroyMonitored(core: Core, c: ClientId): Core {
    core.(monitored := Without(core.monitored, c), callbacks := core.callbacks[c := 0])
  }

  predicate Crowded(core: Core) {
    core.maxConnections != 0 && |core.monitored| == core.maxConnections
  }

  /** The victim of eviction, if room must be made. */
  function Evict(core: Core): Core {
    if Crowded(core)
    then core.(monitored := core.monitored[..|core.monitored| - 1],
               callbacks := core.callbacks[core.monitored[|core.monitored| - 1] := 0])
    else core
  }

  function ResumeMonitoring(core: Core, c: ClientId, outcome: Outcome): Core {
    if outcome != Completed then DestroyServed(core, c)
    else
      var roomy := Evict(core);
      roomy.(monitored := [c] + roomy.monitored,
             served := Without(roomy.served, c),
             callbacks := roomy.callbacks[c := 1],
             returned := roomy.returned + [c])
  }

  function Accept(core: Core, c: ClientId): Core {
    ResumeMonitoring(core.(served := [c] + core.served), c, Completed)
  }

  function SelectForService(core: Core, c: ClientId): Core {
    core.(monitored := Without(core.monitored, c),
          served := [c] + core.served,
          callbacks := core.callbacks[c := 0])
  }

  /** An event makes sense only for a client whose callback is pending, or for a connection that is new. */
  predicate Possible(core: Core, e: CoreEvent) {
    match e
    case WakeupReady(_) => true
    case ListenerReady(accepted) => accepted.Some? ==> !Live(core, accepted.value)
    case ClientReady(c, _) => c in core.callbacks
  }

  function React(core: Core, e: CoreEvent): Core
    requires Possible(core, e)
  {
    match e
    case WakeupReady(_) => core
    case ListenerReady(None) => core
    case ListenerReady(Some(c)) => Accept(core, c)
    case ClientReady(_, NotYet) => core
    case ClientReady(c, AtEof) => DestroyMonitored(core, c)
    case ClientReady(c, HasData) => SelectForService(core, c)
  }

  /** Does this event make `select_client` return? */
  predicate Decisive(e: CoreEvent) {
    (e.WakeupReady? && e.up) || (e.ClientReady? && e.status == HasData)
  }

  ghost predicate Valid(core: Core) {
    && AtMostOnce(multiset(core.monitored) + multiset(core.served))
    && core.callbacks == multiset(core.monitored)
    && (core.maxConnections != 0 ==> |core.monitored| <= core.maxConnections)
    && MostRecentFirst(core.monitored, core.returned)
  }

  ghost predicate AtMostOnce(clients: multiset<ClientId>) {
    forall c :: clients[c] <= 1
  }

  ghost predicate MostRecentFirst(clients: seq<ClientId>, returned: seq<ClientId>) {
    && (forall i :: 0 <= i < |clients| ==> clients[i] in returned)
    && (forall i, j :: 0 <= i < j < |clients| ==> LastIndex(returned, clients[i]) > LastIndex(returned, clients[j]))
  }

  lemma {:induction false} WithoutContents(s: seq<ClientId>, c: ClientId)
    ensures multiset(Without(s, c)) == multiset(s) - multiset{c}
    ensures |Without(s, c)| == if c in s then |s| - 1 else |s|
  {
    if s != [] {
      Prepended(s[0], s[1..]);
      assert s == [s[0]] + s[1..];
      if s[0] != c {
        WithoutContents(s[1..], c);
        Prepended(s[0], Without(s[1..], c));
      }
    }
  }

  lemma Prepended(first: ClientId, rest: seq<ClientId>)
    ensures multiset([first] + rest) == multiset{first} + multiset(rest)
    ensures forall c :: c in [first] + rest <==> c == first || c in rest
  {
  }

  lemma {:induction false} WithoutKeepsOrder(s: seq<ClientId>, c: ClientId, returned: seq<ClientId>)
    requires MostRecentFirst(s, returned)
    ensures MostRecentFirst(Without(s, c), returned)
    ensures forall x :: x in Without(s, c) ==> x in s
  {
    if s != [] && s[0] != c {
      WithoutKeepsOrder(s[1..], c, returned);
      assert MostRecentFirst(s[1..], returned);
      var rest := Without(s[1..], c);
      forall j | 0 <= j < |rest| ensures LastIndex(returned, s[0]) > LastIndex(returned, rest[j]) {
        assert rest[j] in rest;
        assert rest[j] in s[1..];
      }
    }
  }

  lemma {:induction false} LastIndexBound(s: seq<ClientId>, c: ClientId)
    ensures -1 <= LastIndex(s, c) < |s|
    ensures LastIndex(s, c) == -1 <==> c !in s
  {
    if s != [] && s[|s| - 1] != c {
      LastIndexBound(s[..|s| - 1], c);
      assert s == s[..|s| - 1] + [s[|s| - 1]];
    }
  }

  lemma LastIndexAppend(s: seq<ClientId>, c: ClientId, x: ClientId)
    ensures LastIndex(s + [c], x) == if x == c then |s| else LastIndex(s, x)
  {
    assert (s + [c])[..|s|] == s;
  }

  /** A client that goes to the front of the monitored list becomes the most recent one. */
  lemma FrontIsMostRecent(s: seq<ClientId>, c: ClientId, returned: seq<ClientId>)
    requires MostRecentFirst(s, returned) && c !in s
    ensures MostRecentFirst([c] + s, returned + [c])
  {
    forall x ensures LastIndex(returned + [c], x) == if x == c then |returned| else LastIndex(returned, x) {
      LastIndexAppend(returned, c, x);
    }
    forall x ensures LastIndex(returned, x) < |returned| {
      LastIndexBound(returned, x);
    }
  }

  lemma MultisetCount(s: seq<ClientId>, c: ClientId)
    ensures c in multiset(s) <==> c in s
  {
  }

  /** A live client is on exactly one list, once; it has one core callback if monitored and none if served. */
  lemma ExactlyOnePlace(core: Core, c: ClientId)
    requires Valid(core) && Live(core, c)
    ensures (multiset(core.monitored) + multiset(core.served))[c] == 1
    ensures core.callbacks[c] == if c in core.monitored then 1 else 0
    ensures (c in core.monitored) != (c in core.served)
  {
    assert (multiset(core.monitored) + multiset(core.served))[c] <= 1;
    assert c in multiset(core.monitored) || c in multiset(core.served);
  }

  /** Eviction drops the monitored client that returned to monitoring longest ago, and nothing else. */
  lemma EvictsLeastRecent(core: Core)
    requires Valid(core) && Crowded(core)
    ensures var victim := core.monitored[|core.monitored| - 1];
            && core.monitored == Evict(core).monitored + [victim]
            && victim !in Evict(core).monitored
            && (forall c :: c in Evict(core).monitored ==>
               LastIndex(core.returned, victim) < LastIndex(core.returned, c))
    ensures Valid(Evict(core)) && |Evict(core).monitored| < core.maxConnections
  {
    var n := |core.monitored|;
    var kept, victim := core.monitored[..n - 1], core.monitored[n - 1];
    assert core.monitored == kept + [victim];
    assert multiset(core.monitored) == multiset(kept) + multiset{victim};
    assert (multiset(core.monitored) + multiset(core.served))[victim] <= 1;
    assert multiset(kept)[victim] == 0;
    assert Evict(core).callbacks == multiset(kept);
    assert multiset(kept) + multiset(core.served) <= multiset(core.monitored) + multiset(core.served);
  }

  lemma DestroyServedKeepsValid(core: Core, c: ClientId)
    requires Valid(core) && c in core.served
    ensures Valid(DestroyServed(core, c)) && !Live(DestroyServed(core, c), c)
    ensures multiset(DestroyServed(core, c).served) == multiset(core.served) - multiset{c}
  {
    WithoutContents(core.served, c);
    ExactlyOnePlace(core, c);
    var core' := DestroyServed(core, c);
    assert c !in multiset(core'.served);
    assert core'.callbacks == core.callbacks;
    assert multiset(core'.monitored) + multiset(core'.served) <= multiset(core.monitored) + multiset(core.served);
  }

  lemma RejoinKeepsValid(core: Core, c: ClientId)
    requires Valid(core) && c in core.served && !Crowded(core)
    ensures Valid(ResumeMonitoring(core, c, Completed))
    ensures multiset(ResumeMonitoring(core, c, Completed).served) == multiset(core.served) - multiset{c}
  {
    WithoutContents(core.served, c);
    ExactlyOnePlace(core, c);
    var core' := ResumeMonitoring(core, c, Completed);
    FrontIsMostRecent(core.monitored, c, core.returned);
    assert multiset(core'.monitored) == multiset{c} + multiset(core.monitored);
    assert core'.callbacks == multiset(core'.monitored);
    assert multiset(core'.monitored) + multiset(core'.served) == multiset(core.monitored) + multiset(core.served);
  }

  /** Returning a served client to monitoring, or destroying it, keeps every list invariant. */
  lemma ResumeKeepsValid(core: Core, c: ClientId, outcome: Outcome)
    requires Valid(core) && c in core.served
    ensures Valid(ResumeMonitoring(core, c, outcome))
    ensures multiset(ResumeMonitoring(core, c, outcome).served) == multiset(core.served) - multiset{c}
    ensures c in ResumeMonitoring(core, c, outcome).monitored <==> outcome == Completed
  {
    ExactlyOnePlace(core, c);
    if outcome != Completed {
      DestroyServedKeepsValid(core, c);
    } else {
      if Crowded(core) { EvictsLeastRecent(core); }
      RejoinKeepsValid(Evict(core), c);
      assert ResumeMonitoring(core, c, outcome) == ResumeMonitoring(Evict(core), c, outcome);
    }
  }

  lemma AcceptKeepsValid(core: Core, c: ClientId)
    requires Valid(core) && !Live(core, c)
    ensures Valid(Accept(core, c))
    ensures multiset(Accept(core, c).served) == multiset(core.served)
    ensures c in Accept(core, c).monitored
  {
    var arrived := core.(served := [c] + core.served);
    assert multiset(arrived.served) == multiset{c} + multiset(core.served);
    assert c !in multiset(core.monitored) && c !in multiset(core.served);
    var all := multiset(core.monitored) + multiset(core.served);
    assert c !in all;
    assert multiset(arrived.monitored) + multiset(arrived.served) == all + multiset{c};
    ResumeKeepsValid(arrived, c, Completed);
  }

  /** Taking a client off the monitored list, either to serve it or because its input ended. */
  lemma LeaveMonitoringKeepsValid(core: Core, c: ClientId)
    requires Valid(core) && c in core.callbacks
    ensures c in core.monitored && c !in core.served
    ensures Valid(SelectForService(core, c)) && Valid(DestroyMonitored(core, c))
    ensures multiset(SelectForService(core, c).served) == multiset(core.served) + multiset{c}
    ensures c !in SelectForService(core, c).monitored && !Live(DestroyMonitored(core, c), c)
  {
    WithoutContents(core.monitored, c);
    WithoutKeepsOrder(core.monitored, c, core.returned);
    assert c in multiset(core.monitored);
    ExactlyOnePlace(core, c);
    var left := multiset(Without(core.monitored, c));
    assert left[c] == 0;
    assert core.callbacks[c := 0] == left;
    assert multiset([c] + core.served) == multiset{c} + multiset(core.served);
    assert left + multiset([c] + core.served) == multiset(core.monitored) + multiset(core.served);
    assert left + multiset(core.served) <= multiset(core.monitored) + multiset(core.served);
    assert c !in left;
  }

  lemma ReactKeepsValid(core: Core, e: CoreEvent)
    requires Valid(core) && Possible(core, e)
    ensures Valid(React(core, e))
  {
    match e
    case WakeupReady(_) =>
    case ListenerReady(None) =>
    case ListenerReady(Some(c)) => AcceptKeepsValid(core, c);
    case ClientReady(c, _) => LeaveMonitoringKeepsValid(core, c);
  }

  /** No callback names a client that has been destroyed. */
  lemma CallbacksNameMonitoredClients(core: Core, c: ClientId)
    requires Valid(core)
    ensures c in core.callbacks <==> c in core.monitored
  {
    MultisetCount(core.monitored, c);
  }

  function Selection(e: CoreEvent): Option<ClientId> {
    if e.ClientReady? && e.status == HasData then Some(e.client) else None
  }

  /** What one event may do to the served list. */
  ghost predicate ServesSelection(before: Core, after: Core, selection: Option<ClientId>) {
    match selection
    case Some(c) =>
      && multiset(after.served) == multiset(before.served) + multiset{c}
      && c !in before.served && c !in after.monitored && c !in after.callbacks
    case None => multiset(after.served) == multiset(before.served)
  }

  lemma EventServesSelection(core: Core, e: CoreEvent)
    requires Valid(core) && Possible(core, e)
    ensures Valid(React(core, e)) && ServesSelection(core, React(core, e), Selection(e))
  {
    match e
    case WakeupReady(_) =>
    case ListenerReady(accepted) =>
      if accepted.Some? { AcceptKeepsValid(core, accepted.value); }
    case ClientReady(c, status) =>
      LeaveMonitoringKeepsValid(core, c);
      if status == HasData { CallbacksNameMonitoredClients(React(core, e), c); }
  }

  /**
   What an event does to the client it is about, and that nothing happens to the others, except that one may be
   evicted for an accepted connection.
   */
  lemma EventAffectsItsClient(core: Core, e: CoreEvent)
    requires Valid(core) && Possible(core, e)
    ensures match e
            case WakeupReady(_) => React(core, e) == core
            case ListenerReady(None) => React(core, e) == core
            case ListenerReady(Some(c)) => Accepted(core, React(core, e), c)
            case ClientReady(_, NotYet) => React(core, e) == core
            case ClientReady(c, AtEof) => LeftMonitoring(core, React(core, e), c, false)
            case ClientReady(c, HasData) => LeftMonitoring(core, React(core, e), c, true)
  {
    match e
    case ListenerReady(Some(c)) => AcceptedIsMonitored(core, c);
    case ClientReady(c, status) =>
      LeaveMonitoringKeepsValid(core, c);
      WithoutContents(core.monitored, c);
      if status == HasData { assert c in [c] + core.served; }
    case _ =>
  }

  /** The client is monitored no more; it is being served, or it is gone. */
  ghost predicate LeftMonitoring(core: Core, core': Core, c: ClientId, served: bool) {
    && c in core.monitored && c !in core'.monitored && core'.callbacks[c] == 0 && (Live(core', c) <==> served)
    && multiset(core'.monitored) == multiset(core.monitored) - multiset{c}
    && multiset(core'.served) == (if served then multiset(core.served) + multiset{c} else multiset(core.served))
  }

  /** The client is monitored, as the most recent one; the least recent one is gone if there was no room. */
  ghost predicate Accepted(core: Core, core': Core, c: ClientId) {
    && core'.monitored != [] && core'.monitored[0] == c && core'.callbacks[c] == 1
    && multiset(core'.served) == multiset(core.served)
    && core'.monitored[1..] == if Crowded(core) then core.monitored[..|core.monitored| - 1] else core.monitored
  }

  lemma AcceptedIsMonitored(core: Core, c: ClientId)
    requires Valid(core) && !Live(core, c)
    ensures Accepted(core, Accept(core, c), c)
  {
    AcceptKeepsValid(core, c);
    ExactlyOnePlace(Accept(core, c), c);
  }
}
