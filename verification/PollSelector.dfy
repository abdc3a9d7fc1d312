/** Which callbacks wait for I/O, in an arena whose ids index the array that is handed to poll. */
module PollSelectors {
  import opened DistinctSeqs
  import opened ListArenas
  import opened Rings
  import opened Wrappers

  type Callback = nat

  /** An `fd` of -1 makes poll skip the entry. */
  datatype PollFd = PollFd(fd: int, events: int, revents: bool)

  const INACTIVE := PollFd(-1, 0, false)

  /** What the call of poll does: it marks the ready entries and counts them, or it is interrupted, or it fails. */
  datatype PollResult = Ready(which: set<int>) | Interrupted | Failed {
    function Hits(): set<int> {
      if Ready? then which else {}
    }
  }

  /** What select returns: a callback, for one ticket; or none yet; or an exception. */
  datatype Outcome = Event(ticket: int, callback: Callback) | NoEvent | PollError

  /** The members that are ready, in order. */
  function Chosen(members: seq<int>, ready: set<int>): seq<int> {
    if members == [] then []
    else
      var last := members[|members| - 1];
      Chosen(members[..|members| - 1], ready) + (if last in ready then [last] else [])
  }

  function Others(members: seq<int>, ready: set<int>): seq<int> {
    if members == [] then []
    else
      var last := members[|members| - 1];
      Others(members[..|members| - 1], ready) + (if last in ready then [] else [last])
  }

  /** Select has nothing to hand out. */
  predicate NothingReady(watched: seq<int>, pending: seq<int>, poll: PollResult) {
    pending == [] && !poll.Failed? && Chosen(watched, poll.Hits()) == []
  }

  class PollSelector {
    const callbacks: ListArena<Callback>
    const watchedList: int
    const pendingList: int
    const maxSize: nat
    var pollfds: seq<PollFd>

    ghost var watched: seq<int> // the tickets whose events are awaited, oldest first
    ghost var pending: seq<int> // the tickets whose events have come, but which were not handed out yet

    ghost predicate AreLists(lists: Lists, watched: seq<int>, pending: seq<int>) {
      && watchedList != pendingList && lists.Keys == {watchedList, pendingList}
      && lists[watchedList] == watched && lists[pendingList] == pending
    }

    ghost predicate ListsAre(watched: seq<int>, pending: seq<int>)
      reads this, callbacks
    {
      AreLists(callbacks.lists, watched, pending)
    }

    ghost predicate Valid()
      reads this, callbacks
    {
      && callbacks.Valid() && ListsAre(watched, pending)
      && WatchOk(watched, pollfds) && PendingOk(pending, |pollfds|)
      && |pollfds| <= maxSize
    }

    constructor (maxSize: nat)
      ensures Valid() && fresh(callbacks) && watched == [] && pending == [] && callbacks.Values() == map[]
      ensures this.maxSize == maxSize && |callbacks.nodes| <= 2
    {
      var arena := new ListArena<Callback>();
      var first := arena.AddList();
      var second := arena.AddList();
      watchedList, pendingList := first, second;
      callbacks, this.maxSize, pollfds, watched, pending := arena, maxSize, [], [], [];
    }

    method HasWork() returns (work: bool)
      requires Valid()
      ensures work <==> watched != [] || pending != []
    {
      var firstWatched := callbacks.First(watchedList);
      var firstPending := callbacks.First(pendingList);
      callbacks.InsertedAtEnd(watchedList);
      callbacks.InsertedAtEnd(pendingList);
      work := firstWatched != watchedList || firstPending != pendingList;
    }

    /** There is work exactly if callbacks are registered. */
    lemma HasWorkMeansCallbacks()
      requires Valid()
      ensures watched != [] || pending != [] <==> callbacks.Values() != map[]
    {
      if watched != [] {
        callbacks.MemberAt(watchedList, 0);
      } else if pending != [] {
        callbacks.MemberAt(pendingList, 0);
      } else if callbacks.Values() != map[] {
        var id :| id in callbacks.Values();
        callbacks.ElementIsListed(id);
      }
    }

    /** Every ticket with a callback is on one of the two lists, once, and no other ticket is. */
    lemma EachOnOneList()
      requires Valid()
      ensures forall ticket ::
              multiset(watched)[ticket] + multiset(pending)[ticket] == AsNat(ticket in callbacks.Values())
    {
      callbacks.ListIsDistinct(watchedList);
      callbacks.ListIsDistinct(pendingList);
      forall ticket ensures multiset(watched)[ticket] + multiset(pending)[ticket]
          == AsNat(ticket in callbacks.Values()) {
        DistinctOnce(watched, ticket);
        DistinctOnce(pending, ticket);
        if k :| 0 <= k < |watched| && watched[k] == ticket {
          callbacks.MemberAt(watchedList, k);
        }
        if k :| 0 <= k < |pending| && pending[k] == ticket {
          callbacks.MemberAt(pendingList, k);
        }
        if ticket in callbacks.Values() {
          callbacks.ElementIsListed(ticket);
        }
      }
    }

    /** Starts to watch a file descriptor, unless the array would become too large. */
    method MakeTicket(fd: int, events: int, callback: Callback) returns (ticket: Option<int>)
      requires Valid() && fd != -1
      modifies this, callbacks
      ensures Valid() && pending == old(pending)
      ensures ticket.Some? ==> ticket.value !in old(callbacks.Values()) && watched == old(watched) + [ticket.value]
                               && callbacks.Values() == old(callbacks.Values())[ticket.value := callback]
                               && 0 <= ticket.value < |pollfds| && pollfds[ticket.value] == PollFd(fd, events, false)
      ensures ticket == None ==> watched == old(watched) && callbacks.Values() == old(callbacks.Values())
      ensures ticket == None ==> old(|callbacks.nodes|) >= maxSize
      ensures |callbacks.nodes| <= old(|callbacks.nodes|) + 1
    {
      callbacks.TopIsSmall();
      var id := AddWatched(callback);
      if id + 1 > maxSize {
        RemoveWatched(id);
        return None;
      }
      Watch(id, fd, events, old(watched));
      PendingOkGrows(pending, old(|pollfds|), |pollfds|);
      ticket := Some(id);
    }

    /** A new ticket at the end of the watched list; its entry is not filled in yet. */
    method AddWatched(callback: Callback) returns (id: int)
      requires callbacks.Valid() && ListsAre(watched, pending) && WatchOk(watched, pollfds)
      modifies this`watched, callbacks
      ensures callbacks.Valid() && ListsAre(watched, pending)
      ensures id == if old(callbacks.freeTop) != -1 then old(callbacks.freeTop) else old(|callbacks.nodes|)
      ensures |callbacks.nodes| <= old(|callbacks.nodes|) + 1
      ensures id >= 0 && id !in old(watched) && watched == old(watched) + [id]
      ensures id !in old(callbacks.Values()) && callbacks.Values() == old(callbacks.Values())[id := callback]
    {
      callbacks.InsertedAtEnd(watchedList);
      id := callbacks.AddElementBefore(watchedList, callback);
      watched := watched + [id];
      callbacks.MemberAt(watchedList, |watched| - 1);
      callbacks.InsertedAtEnd(watchedList);
    }

    method RemoveWatched(id: int)
      requires callbacks.Valid() && ListsAre(watched, pending) && watched != [] && watched[|watched| - 1] == id
      modifies this`watched, callbacks
      ensures callbacks.Valid() && ListsAre(watched, pending)
      ensures |callbacks.nodes| == old(|callbacks.nodes|)
      ensures watched == old(watched[..|watched| - 1]) && callbacks.Values() == old(callbacks.Values()) - {id}
    {
      callbacks.MemberAt(watchedList, |watched| - 1);
      callbacks.RemoveElement(id);
      watched := watched[..|watched| - 1];
    }

    /** Makes room for an entry and fills it in. */
    method Watch(id: int, fd: int, events: int, ghost watched: seq<int>)
      requires WatchOk(watched, pollfds) && id !in watched && 0 <= id < maxSize && |pollfds| <= maxSize && fd != -1
      modifies this`pollfds
      ensures WatchOk(watched + [id], pollfds) && old(|pollfds|) <= |pollfds| <= maxSize
      ensures id < |pollfds| && pollfds[id] == PollFd(fd, events, false)
    {
      while |pollfds| < id + 1
        invariant WatchOk(watched, pollfds) && old(|pollfds|) <= |pollfds| <= maxSize
      {
        pollfds := pollfds + [INACTIVE];
      }
      pollfds := pollfds[id := pollfds[id].(fd := fd)];
      pollfds := pollfds[id := pollfds[id].(events := events)];
      pollfds := pollfds[id := pollfds[id].(revents := false)];
    }

    method CancelTicket(ticket: int)
      requires Valid() && ticket in callbacks.Values()
      modifies this, callbacks
      ensures Valid() && callbacks.Values() == old(callbacks.Values()) - {ticket}
      ensures watched == Others(old(watched), {ticket}) && pending == Others(old(pending), {ticket})
    {
      CancelOnLists(ticket);
      CancelKeepsWatchOk(watched, pollfds, ticket);
      CancelKeepsPendingOk(pending, |pollfds|, ticket);
      pollfds := pollfds[ticket := INACTIVE];
      callbacks.RemoveElement(ticket);
      watched, pending := Others(watched, {ticket}), Others(pending, {ticket});
    }

    /** Moves the ticket at position `k` of the watched list to the end of the pending list. */
    method MoveToPending(ticket: int, ghost k: nat)
      requires Valid() && k < |watched| && watched[k] == ticket
      modifies this`pollfds, this`watched, this`pending, callbacks
      ensures Valid() && |pollfds| == old(|pollfds|) && callbacks.Values() == old(callbacks.Values())
      ensures watched == Without(old(watched), k) && pending == old(pending) + [ticket]
      ensures forall id :: 0 <= id < |pollfds| && id != ticket ==> pollfds[id] == old(pollfds[id])
    {
      callbacks.MemberAt(watchedList, k);
      callbacks.InsertedAtEnd(pendingList);
      callbacks.ListIsDistinct(watchedList);
      MovedWatchOk(watched, pollfds, k);
      pollfds := pollfds[ticket := INACTIVE];
      callbacks.MoveElementBefore(pendingList, ticket);
      watched, pending := Without(watched, k), pending + [ticket];
    }

    /** One step of the walk: the ticket moves to the pending list if it is ready; `next` follows it on the old list. */
    method Visit(ticket: int, ghost k: nat) returns (next: int, moved: bool)
      requires Valid() && k < |watched| && watched[k] == ticket
      modifies this`pollfds, this`watched, this`pending, callbacks
      ensures Valid() && callbacks.Values() == old(callbacks.Values())
      ensures next == At(watchedList, old(watched), k + 1)
      ensures moved == old(pollfds[ticket].revents)
      ensures watched == (if moved then Without(old(watched), k) else old(watched))
      ensures pending == old(pending) + (if moved then [ticket] else [])
      ensures |pollfds| == old(|pollfds|) && forall id :: 0 <= id < |pollfds| && id != ticket ==>
              pollfds[id] == old(pollfds[id])
    {
      callbacks.MemberAt(watchedList, k);
      next := callbacks.Next(ticket);
      moved := pollfds[ticket].revents;
      if moved {
        MoveToPending(ticket, k);
      }
    }

    /** Moves every ticket that poll found ready, although the list changes under the walk. */
    method MoveReady(found: nat, ghost which: set<int>)
      requires Valid() && pending == [] && found == |Chosen(watched, which)|
      requires found > 0 ==> Marked(pollfds, watched, 0, which)
      modifies this`pollfds, this`watched, this`pending, callbacks
      ensures Valid() && callbacks.Values() == old(callbacks.Values())
      ensures watched == Others(old(watched), which) && pending == Chosen(old(watched), which)
    {
      ghost var all, n := watched, 0;
      var count := found;
      callbacks.ListIsDistinct(watchedList);
      WalkStart(watchedList, all, which, pollfds, count);
      var ticket := callbacks.First(watchedList);
      while count > 0 && ticket != watchedList
        invariant Valid() && callbacks.Values() == old(callbacks.Values())
        invariant Walking(watchedList, all, which, n, watched, pending, pollfds, count)
        invariant 0 <= n && ticket == At(watchedList, all, n)
        decreases |all| - n
      {
        ghost var k := |Others(all[..n], which)|;
        ghost var watched0, pending0, pollfds0 := watched, pending, pollfds;
        Standing(watchedList, all, which, n, watched, pending, pollfds, count);
        var next, moved := Visit(ticket, k);
        WalkStep(watchedList, all, which, n, watched0, pending0, pollfds0, pollfds, count);
        if moved {
          count := count - 1;
        }
        ticket := next;
        n := n + 1;
      }
      WalkDone(watchedList, all, which, n, watched, pending, pollfds, count);
      assert count == 0;
    }

    /** The call of poll: marks the active entries that are ready, and counts them. */
    method Poll(result: PollResult) returns (count: nat)
      requires callbacks.Valid() && ListsAre(watched, pending) && WatchOk(watched, pollfds) && !result.Failed?
      modifies this`pollfds
      ensures WatchOk(watched, pollfds) && |pollfds| == old(|pollfds|)
      ensures count == |Chosen(watched, result.Hits())|
      ensures count > 0 ==> Marked(pollfds, watched, 0, result.Hits())
    {
      callbacks.ListIsDistinct(watchedList);
      if result.Interrupted? {
        NoneChosen(watched, {});
        return 0;
      }
      var entries := pollfds;
      pollfds := seq(|entries|, i requires 0 <= i < |entries| =>
                     entries[i].(revents := entries[i].fd != -1 && i in result.which));
      var marked := set i | 0 <= i < |pollfds| && pollfds[i].revents;
      count := |marked|;
      PollCounts(watched, entries, result.which, marked);
      PollMarks(watched, entries, pollfds, result.which);
    }

    /** Hands out the callback of one ticket whose event has come, and forgets the ticket. */
    method Select(poll: PollResult) returns (result: Outcome)
      requires Valid() && (watched != [] || pending != [])
      modifies this, callbacks
      ensures Valid()
      ensures result.Event? ==>
              result.ticket in old(callbacks.Values()) && result.callback == old(callbacks.Values())[result.ticket]
              && callbacks.Values() == old(callbacks.Values()) - {result.ticket}
      ensures !result.Event? ==> callbacks.Values() == old(callbacks.Values())
      ensures result.PollError? <==> old(pending) == [] && poll.Failed?
      ensures result.PollError? ==> watched == old(watched) && pending == old(pending)
      ensures result.NoEvent? <==> NothingReady(old(watched), old(pending), poll)
      ensures result.NoEvent? ==> watched == old(watched) && pending == old(pending)
      ensures !result.PollError? ==>
                var ready := if old(pending) != [] then old(pending) else Chosen(old(watched), poll.Hits());
                && watched == (if old(pending) != [] then old(watched) else Others(old(watched), poll.Hits()))
                && (if ready == [] then result.NoEvent? && pending == []
                    else result.Event? && result.ticket == ready[0] && pending == ready[1..])
    {
      if Chosen(watched, poll.Hits()) == [] { NothingMoves(watched, poll.Hits()); }
      var failed := FindEvents(poll);
      if failed {
        return PollError;
      }
      var ticket := FirstPending();
      if ticket == pendingList {
        return NoEvent;
      }
      result := TakePending(ticket);
    }

    /** Polls, unless there are events that were not handed out yet. */
    method FindEvents(poll: PollResult) returns (failed: bool)
      requires Valid()
      modifies this, callbacks
      ensures Valid() && callbacks.Values() == old(callbacks.Values())
      ensures failed <==> old(pending) == [] && poll.Failed?
      ensures if failed || old(pending) != [] then watched == old(watched) && pending == old(pending)
              else watched == Others(old(watched), poll.Hits()) && pending == Chosen(old(watched), poll.Hits())
    {
      var ticket := FirstPending();
      failed := false;
      if ticket == pendingList {
        if poll.Failed? {
          return true;
        }
        var count := Poll(poll);
        MoveReady(count, poll.Hits());
      }
    }

    method FirstPending() returns (ticket: int)
      requires callbacks.Valid() && ListsAre(watched, pending)
      ensures ticket == pendingList <==> pending == []
      ensures pending != [] ==> ticket == pending[0]
    {
      callbacks.ListIsDistinct(pendingList);
      ticket := callbacks.First(pendingList);
    }

    method TakePending(ticket: int) returns (result: Outcome)
      requires Valid() && pending != [] && pending[0] == ticket
      modifies this`pending, callbacks
      ensures Valid() && pending == old(pending)[1..]
      ensures result.Event? && result.ticket == ticket && ticket in old(callbacks.Values())
      ensures result.callback == old(callbacks.Values())[ticket]
              && callbacks.Values() == old(callbacks.Values()) - {ticket}
    {
      callbacks.MemberAt(pendingList, 0);
      result := Event(ticket, callbacks.nodes[ticket].data.value);
      callbacks.RemoveElement(ticket);
      assert Without(pending, 0) == pending[1..];
      pending := pending[1..];
    }

    lemma CancelOnLists(ticket: int)
      requires callbacks.Valid() && ListsAre(watched, pending) && ticket in callbacks.Values()
      ensures callbacks.IsElement(ticket) && callbacks.HomeOf(ticket) in {watchedList, pendingList}
      ensures Distinct(watchedList, watched)
      ensures ticket in watched || ticket in pending
      ensures AreLists(Removed(callbacks.lists, callbacks.HomeOf(ticket), ticket), Others(watched, {ticket}),
              Others(pending, {ticket}))
    {
      callbacks.ElementIsListed(ticket);
      callbacks.ListIsDistinct(watchedList);
      callbacks.ListIsDistinct(pendingList);
      var other := if callbacks.HomeOf(ticket) == watchedList then pendingList else watchedList;
      RemovedFromOne(callbacks.lists, callbacks.HomeOf(ticket), other, ticket);
    }
  }

  lemma RemovedFromOne(lists: Lists, list: int, other: int, id: int)
    requires list in lists && other in lists && list != other && Distinct(list, lists[list]) && id in lists[list]
             && id !in lists[other]
    ensures Removed(lists, list, id) == lists[list := Others(lists[list], {id})]
    ensures Others(lists[other], {id}) == lists[other]
  {
    OneChosen(lists[list], IndexOf(lists[list], id));
    NoneChosen(lists[other], {id});
  }

  ghost predicate PendingOk(pending: seq<int>, size: nat) {
    forall k :: 0 <= k < |pending| ==> 0 <= pending[k] < size
  }

  lemma PendingOkGrows(pending: seq<int>, size: nat, more: nat)
    requires PendingOk(pending, size) && size <= more
    ensures PendingOk(pending, more)
  {
  }

  /** Tickets of other lists do not matter. */
  lemma {:induction false} NoneChosen(members: seq<int>, ready: set<int>)
    requires forall i :: 0 <= i < |members| ==> members[i] !in ready
    ensures Chosen(members, ready) == [] && Others(members, ready) == members
  {
    if members != [] {
      NoneChosen(members[..|members| - 1], ready);
      assert members == members[..|members| - 1] + [members[|members| - 1]];
    }
  }

  /** If nothing is chosen, nothing moves. */
  lemma {:induction false} NothingMoves(members: seq<int>, ready: set<int>)
    requires Chosen(members, ready) == []
    ensures Others(members, ready) == members
  {
    if members != [] {
      NothingMoves(members[..|members| - 1], ready);
      assert members == members[..|members| - 1] + [members[|members| - 1]];
    }
  }

  lemma {:induction false} OneChosen(members: seq<int>, k: int)
    requires 0 <= k < |members| && forall i, j :: 0 <= i < j < |members| ==> members[i] != members[j]
    ensures Others(members, {members[k]}) == Without(members, k)
  {
    var n := |members| - 1;
    if k < n {
      OneChosen(members[..n], k);
      assert Without(members, k) == Without(members[..n], k) + [members[n]];
    } else {
      NoneChosen(members[..n], {members[k]});
      assert Without(members, k) == members[..n];
    }
  }

  /** Poll counts the watched tickets that are ready. */
  lemma PollCounts(watched: seq<int>, pollfds: seq<PollFd>, which: set<int>, marked: set<int>)
    requires WatchOk(watched, pollfds) && Distinct(-1, watched)
    requires marked == set i | 0 <= i < |pollfds| && pollfds[i].fd != -1 && i in which
    ensures |marked| == |Chosen(watched, which)|
  {
    var chosen := Chosen(watched, which);
    OthersAre(watched, which);
    ChosenIsDistinct(watched, which);
    DistinctCount(chosen);
    assert marked == set id | id in chosen;
  }

  lemma {:induction false} ChosenIsDistinct(members: seq<int>, which: set<int>)
    requires forall i, j :: 0 <= i < j < |members| ==> members[i] != members[j]
    ensures forall i, j :: 0 <= i < j < |Chosen(members, which)| ==>
            Chosen(members, which)[i] != Chosen(members, which)[j]
  {
    if members != [] {
      var n := |members| - 1;
      ChosenIsDistinct(members[..n], which);
      OthersAre(members[..n], which);
      var fewer := Chosen(members[..n], which);
      forall i | 0 <= i < |fewer| ensures fewer[i] != members[n] {
        assert fewer[i] in fewer && fewer[i] in members[..n];
      }
    }
  }

  lemma PollMarks(watched: seq<int>, before: seq<PollFd>, after: seq<PollFd>, which: set<int>)
    requires WatchOk(watched, before) && |after| == |before|
    requires forall i :: 0 <= i < |before| ==> after[i] == before[i].(revents := before[i].fd != -1 && i in which)
    ensures WatchOk(watched, after) && Marked(after, watched, 0, which)
  {
    forall k | 0 <= k < |watched| ensures 0 <= watched[k] < |after|
        && (after[watched[k]].revents <==> watched[k] in which) {
      assert watched[k] in watched;
    }
  }

  /** From position `n` on, poll has marked the entries of the tickets that are ready. */
  ghost predicate Marked(pollfds: seq<PollFd>, all: seq<int>, n: int, which: set<int>) {
    forall k :: 0 <= n <= k < |all| ==> 0 <= all[k] < |pollfds| && (pollfds[all[k]].revents <==> all[k] in which)
  }

  lemma MarkedKept(before: seq<PollFd>, after: seq<PollFd>, all: seq<int>, n: int, which: set<int>)
    requires Marked(before, all, n, which) && 0 <= n < |all| && |after| == |before|
    requires forall i, j :: 0 <= i < j < |all| ==> all[i] != all[j]
    requires forall id :: 0 <= id < |after| && id != all[n] ==> after[id] == before[id]
    ensures Marked(after, all, n + 1, which)
  {
    forall k | n + 1 <= k < |all| ensures 0 <= all[k] < |after| && (after[all[k]].revents <==> all[k] in which) {
      assert all[n] != all[k];
    }
  }

  /** The first `n` tickets have been dealt with; the lemmas below look into this. */
  ghost predicate Walking(list: int, all: seq<int>, which: set<int>, n: int,
                          watched: seq<int>, pending: seq<int>, pollfds: seq<PollFd>, count: int)
  {
    forall key {:trigger Opened(key)} :: Opened(key) ==>
      && 0 <= n <= |all| && Distinct(list, all)
      && watched == Others(all[..n], which) + all[n..]
      && pending == Chosen(all[..n], which)
      && count == |Chosen(all, which)| - |Chosen(all[..n], which)| >= 0
      && (count > 0 ==> Marked(pollfds, all, n, which))
  }

  lemma WalkStart(list: int, all: seq<int>, which: set<int>, pollfds: seq<PollFd>, count: int)
    requires Distinct(list, all) && count == |Chosen(all, which)| && (count > 0 ==> Marked(pollfds, all, 0, which))
    ensures Walking(list, all, which, 0, all, [], pollfds, count)
  {
    assert all[..0] == [];
  }

  lemma MovedWatchOk(watched: seq<int>, pollfds: seq<PollFd>, k: int)
    requires WatchOk(watched, pollfds) && 0 <= k < |watched|
    requires forall i, j :: 0 <= i < j < |watched| ==> watched[i] != watched[j]
    ensures WatchOk(Without(watched, k), pollfds[watched[k] := INACTIVE])
  {
    OneChosen(watched, k);
    CancelKeepsWatchOk(watched, pollfds, watched[k]);
  }

  /** Where the walk stands: at position `k` of what is left of the list. */
  lemma Standing(list: int, all: seq<int>, which: set<int>, n: int,
                 watched: seq<int>, pending: seq<int>, pollfds: seq<PollFd>, count: int)
    requires Walking(list, all, which, n, watched, pending, pollfds, count) && 0 <= n < |all| && count > 0
    ensures var k := |Others(all[..n], which)|;
            && k < |watched| && watched[k] == all[n] && At(list, watched, k + 1) == At(list, all, n + 1)
            && 0 <= all[n] < |pollfds| && (pollfds[all[n]].revents <==> all[n] in which)
  {
    assert Opened(true);
  }

  /** What one step of the walk makes of the lists. */
  lemma WalkStep(list: int, all: seq<int>, which: set<int>, n: int,
                 watched: seq<int>, pending: seq<int>, before: seq<PollFd>, after: seq<PollFd>, count: int)
    requires Walking(list, all, which, n, watched, pending, before, count) && 0 <= n < |all| && count > 0
    requires |after| == |before| && forall id :: 0 <= id < |after| && id != all[n] ==> after[id] == before[id]
    ensures var k := |Others(all[..n], which)|;
            k < |watched| &&
            if all[n] in which
            then Walking(list, all, which, n + 1, Without(watched, k), pending + [all[n]], after, count - 1)
            else Walking(list, all, which, n + 1, watched, pending, after, count)
  {
    assert Opened(true);
    MarkedKept(before, after, all, n, which);
    NoneLeft(all, which, n + 1);
    StepOfLists(all, which, n);
  }

  lemma StepOfLists(all: seq<int>, which: set<int>, n: int)
    requires 0 <= n < |all|
    ensures var done := Others(all[..n], which);
            var left := done + all[n..];
            && Others(all[..n + 1], which) + all[n + 1..] == (if all[n] in which then Without(left, |done|) else left)
            && Chosen(all[..n + 1], which) == Chosen(all[..n], which) + (if all[n] in which then [all[n]] else [])
  {
    var done, x, tail := Others(all[..n], which), all[n], all[n + 1..];
    assert all[..n + 1][..n] == all[..n];
    assert all[n..] == [x] + tail;
    MiddleOf(done, x, tail);
  }

  lemma MiddleOf(front: seq<int>, x: int, tail: seq<int>)
    ensures front + ([x] + tail) == (front + [x]) + tail
    ensures Without(front + ([x] + tail), |front|) == front + tail
  {
  }

  /** The walk ends when nothing more is to be found, or at the end of the list. */
  lemma WalkDone(list: int, all: seq<int>, which: set<int>, n: int,
                 watched: seq<int>, pending: seq<int>, pollfds: seq<PollFd>, count: int)
    requires Walking(list, all, which, n, watched, pending, pollfds, count)
    requires count <= 0 || At(list, all, n) == list
    ensures count == 0 && watched == Others(all, which) && pending == Chosen(all, which)
  {
    assert Opened(true);
    if n == |all| { assert all[..n] == all; }
    NoneLeft(all, which, n);
  }

  /** When as many as poll counted were moved, those that were not looked at are not ready. */
  lemma {:induction false} NoneLeft(all: seq<int>, which: set<int>, n: int)
    requires 0 <= n <= |all|
    ensures |Chosen(all[..n], which)| <= |Chosen(all, which)|
    ensures |Chosen(all[..n], which)| == |Chosen(all, which)| ==>
              Chosen(all[..n], which) == Chosen(all, which) && Others(all[..n], which) + all[n..] == Others(all, which)
    decreases |all| - n
  {
    if n == |all| {
      assert all[..n] == all;
    } else {
      assert all[..n + 1][..n] == all[..n];
      NoneLeft(all, which, n + 1);
    }
  }

  lemma CancelKeepsWatchOk(watched: seq<int>, pollfds: seq<PollFd>, ticket: int)
    requires WatchOk(watched, pollfds) && 0 <= ticket < |pollfds|
    ensures WatchOk(Others(watched, {ticket}), pollfds[ticket := INACTIVE])
  {
    OthersAre(watched, {ticket});
    var left := Others(watched, {ticket});
    forall k | 0 <= k < |left| ensures 0 <= left[k] < |pollfds| {
      assert left[k] in left;
    }
  }

  lemma CancelKeepsPendingOk(pending: seq<int>, size: nat, ticket: int)
    requires PendingOk(pending, size)
    ensures PendingOk(Others(pending, {ticket}), size)
  {
    OthersAre(pending, {ticket});
    var left := Others(pending, {ticket});
    forall k | 0 <= k < |left| ensures 0 <= left[k] < size {
      assert left[k] in left;
    }
  }

  lemma {:induction false} DistinctOnce(members: seq<int>, id: int)
    requires forall i, j :: 0 <= i < j < |members| ==> members[i] != members[j]
    ensures multiset(members)[id] == AsNat(id in members)
  {
    if members != [] {
      assert members == [members[0]] + members[1..];
      DistinctOnce(members[1..], id);
    }
  }

  /** Members are sorted out one by one, and keep their order. */
  lemma {:induction false} SortingKeepsOrder(front: seq<int>, back: seq<int>, ready: set<int>)
    ensures Chosen(front + back, ready) == Chosen(front, ready) + Chosen(back, ready)
    ensures Others(front + back, ready) == Others(front, ready) + Others(back, ready)
    decreases |back|
  {
    if back == [] {
      assert front + back == front;
    } else {
      var n := |back| - 1;
      SortingKeepsOrder(front, back[..n], ready);
      assert (front + back)[..|front + back| - 1] == front + back[..n];
    }
  }

  lemma SortingOfOne(id: int, ready: set<int>)
    ensures Chosen([id], ready) == (if id in ready then [id] else [])
            && Others([id], ready) == (if id in ready then [] else [id])
  {
    assert [id][..0] == [];
  }

  /** Every member that is ready is chosen, and no other. */
  lemma {:induction false} OthersAre(members: seq<int>, ready: set<int>)
    ensures forall id :: id in Chosen(members, ready) <==> id in members && id in ready
    ensures forall id :: id in Others(members, ready) <==> id in members && id !in ready
    ensures |Chosen(members, ready)| + |Others(members, ready)| == |members|
  {
    if members != [] {
      var n := |members| - 1;
      OthersAre(members[..n], ready);
      assert members == members[..n] + [members[n]];
    }
  }

  /** An entry is active exactly if its ticket is watched. */
  ghost predicate WatchOk(watched: seq<int>, pollfds: seq<PollFd>) {
    && (forall k :: 0 <= k < |watched| ==> 0 <= watched[k] < |pollfds|)
    && (forall id :: 0 <= id < |pollfds| ==> (pollfds[id].fd != -1 <==> id in watched))
  }
}
