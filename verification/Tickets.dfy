/** What a buffer has registered with its scheduler: at most one I/O callback and at most one alarm. */
module Tickets {
  import opened Wrappers

  type Ticket = nat

  /** The callbacks that the scheduler holds, if these two are all. */
  function Holding<H>(io: Option<Ticket>, ioHandler: H, alarm: Option<Ticket>, alarmHandler: H): map<Ticket, H> {
    var first := if io.Some? then map[io.value := ioHandler] else map[];
    if alarm.Some? then first[alarm.value := alarmHandler] else first
  }

  /** No two tickets are the same, and the next one is new. */
  predicate Apart(io: Option<Ticket>, alarm: Option<Ticket>, issued: nat) {
    && (io.Some? ==> io.value < issued)
    && (alarm.Some? ==> alarm.value < issued)
    && (io.Some? && alarm.Some? ==> io.value != alarm.value)
  }

  lemma WithoutIo<H>(io: Ticket, ioHandler: H, alarm: Option<Ticket>, alarmHandler: H, issued: nat)
    requires Apart(Some(io), alarm, issued)
    ensures Holding(Some(io), ioHandler, alarm, alarmHandler) - {io} == Holding(None, ioHandler, alarm, alarmHandler)
    ensures alarm.Some? ==> Holding(None, ioHandler, alarm, alarmHandler) - {alarm.value} == map[]
  {
  }

  /** A name for what a user wants to be called. */
  type Callback = nat

  function Add(calls: multiset<Callback>, cb: Option<Callback>): multiset<Callback> {
    if cb.Some? then calls[cb.value := calls[cb.value] + 1] else calls
  }

  /** Every request was answered by one invocation, or was dropped, or is the one that waits. */
  ghost predicate Balanced(requested: multiset<Callback>, fired: multiset<Callback>, dropped: multiset<Callback>,
                           waiting: Option<Callback>) {
    forall c: Callback :: requested[c] == fired[c] + dropped[c] + AsNat(waiting == Some(c))
  }

  /** Only a step that makes the buffer forget drops what was waiting; otherwise it still waits, or it was invoked. */
  predicate Settled(request: Option<Callback>, forgets: bool, before: Option<Callback>, fired: Option<Callback>,
                    after: Option<Callback>) {
    if forgets then fired == None && after == request
    else request == None && ((after == before && fired == None) || (fired == before && after == None))
  }

  lemma SettledKeepsBalance(requested: multiset<Callback>, fired: multiset<Callback>, dropped: multiset<Callback>,
                            before: Option<Callback>, request: Option<Callback>, forgets: bool,
                            invoked: Option<Callback>, after: Option<Callback>)
    requires Settled(request, forgets, before, invoked, after) && Balanced(requested, fired, dropped, before)
    ensures Balanced(Add(requested, request), Add(fired, invoked), Add(dropped, if forgets then before else None),
            after)
  {
  }
}
