/** Doubly linked rings of nodes that refer to each other by index, and what they mean as sequences. */
module Rings {
  import opened Wrappers

  /** `prev` is -1 exactly for a free node; `data` is absent in a list node and in a free node. */
  datatype Node<T> = Node(prev: int, next: int, data: Option<T>)

  ghost predicate Distinct(list: int, members: seq<int>) {
    && list !in members
    && forall j, k :: 0 <= j < k < |members| ==> members[j] != members[k]
  }

  /** The member at position `k`; the list node itself stands before the first and after the last. */
  function At(list: int, members: seq<int>, k: int): int {
    if 0 <= k < |members| then members[k] else list
  }

  predicate Linked<T>(nodes: seq<Node<T>>, a: int, b: int) {
    0 <= a < |nodes| && 0 <= b < |nodes| && nodes[a].next == b && nodes[b].prev == a
  }

  /** The member at position `k` and the next one are linked both ways. */
  predicate JoinedAt<T>(nodes: seq<Node<T>>, list: int, members: seq<int>, k: int) {
    Linked(nodes, At(list, members, k), At(list, members, k + 1))
  }

  ghost predicate Ring<T>(nodes: seq<Node<T>>, list: int, members: seq<int>) {
    forall k :: -1 <= k < |members| ==> JoinedAt(nodes, list, members, k)
  }

  /** The position of `id` among the members, or their number if it is the list node. */
  function IndexOf(members: seq<int>, id: int): (k: nat)
    ensures k <= |members|
    ensures k < |members| ==> members[k] == id
    ensures k == |members| ==> id !in members
  {
    if members == [] || members[0] == id then 0 else 1 + IndexOf(members[1..], id)
  }

  function Without(members: seq<int>, k: int): seq<int>
    requires 0 <= k < |members|
  {
    members[..k] + members[k + 1..]
  }

  function With(members: seq<int>, k: int, id: int): seq<int>
    requires 0 <= k <= |members|
  {
    members[..k] + [id] + members[k..]
  }

  /** The neighbours of a node are joined; the node itself still points at them. */
  function Unlink<T>(nodes: seq<Node<T>>, id: int): seq<Node<T>>
    requires 0 <= id < |nodes| && 0 <= nodes[id].prev < |nodes| && 0 <= nodes[id].next < |nodes|
  {
    var prev, next := nodes[id].prev, nodes[id].next;
    var joined := nodes[prev := nodes[prev].(next := next)];
    joined[next := joined[next].(prev := prev)]
  }

  /** A node is placed between two others. */
  function Link<T>(nodes: seq<Node<T>>, prev: int, id: int, next: int): seq<Node<T>>
    requires 0 <= id < |nodes| && 0 <= prev < |nodes| && 0 <= next < |nodes|
  {
    var a := nodes[prev := nodes[prev].(next := id)];
    var b := a[id := a[id].(prev := prev, next := next)];
    b[next := b[next].(prev := id)]
  }

  /** A node that already points at its new neighbours needs only their links. */
  lemma LinkOfReadyNode<T>(nodes: seq<Node<T>>, prev: int, id: int, next: int)
    requires 0 <= id < |nodes| && 0 <= prev < |nodes| && 0 <= next < |nodes| && id != prev && id != next
    requires nodes[id].prev == prev && nodes[id].next == next
    ensures Link(nodes, prev, id, next)
            == (var a := nodes[prev := nodes[prev].(next := id)]; a[next := a[next].(prev := id)])
  {
    var a := nodes[prev := nodes[prev].(next := id)];
    assert a[id := a[id].(prev := prev, next := next)] == a;
  }

  /** Moving a node to where it has its old neighbours writes its links one by one. */
  lemma LinkInSteps<T>(nodes: seq<Node<T>>, prev: int, id: int, next: int)
    requires 0 <= id < |nodes| && 0 <= prev < |nodes| && 0 <= next < |nodes|
    ensures Link(nodes, prev, id, next) ==
            (var a := nodes[prev := nodes[prev].(next := id)];
             var b := a[id := a[id].(prev := prev)];
             var c := b[id := b[id].(next := next)];
             c[next := c[next].(prev := id)])
  {
    var a := nodes[prev := nodes[prev].(next := id)];
    var b := a[id := a[id].(prev := prev)];
    assert b[id := b[id].(next := next)] == a[id := a[id].(prev := prev, next := next)];
  }

  lemma UnlinkRing<T>(nodes: seq<Node<T>>, list: int, members: seq<int>, k: int)
    requires Ring(nodes, list, members) && Distinct(list, members) && 0 <= k < |members|
    ensures Linked(nodes, At(list, members, k - 1), members[k]) && Linked(nodes, members[k], At(list, members, k + 1))
    ensures Ring(Unlink(nodes, members[k]), list, Without(members, k)) && Distinct(list, Without(members, k))
  {
    assert JoinedAt(nodes, list, members, k - 1) && JoinedAt(nodes, list, members, k);
    var fewer := Without(members, k);
    forall j | -1 <= j < |fewer| ensures JoinedAt(Unlink(nodes, members[k]), list, fewer, j) {
      if j < k - 1 {
        assert JoinedAt(nodes, list, members, j);
      } else if j > k - 1 {
        assert JoinedAt(nodes, list, members, j + 1);
      }
    }
  }

  lemma LinkRing<T>(nodes: seq<Node<T>>, list: int, members: seq<int>, k: int, id: int)
    requires Ring(nodes, list, members) && Distinct(list, members) && 0 <= k <= |members|
    requires 0 <= id < |nodes| && id != list && id !in members
    ensures Linked(nodes, At(list, members, k - 1), At(list, members, k))
    ensures Ring(Link(nodes, At(list, members, k - 1), id, At(list, members, k)), list, With(members, k, id))
    ensures Distinct(list, With(members, k, id))
  {
    assert JoinedAt(nodes, list, members, k - 1);
    var more := With(members, k, id);
    var nodes' := Link(nodes, At(list, members, k - 1), id, At(list, members, k));
    forall j | -1 <= j < |more| ensures JoinedAt(nodes', list, more, j) {
      if j < k - 1 {
        assert JoinedAt(nodes, list, members, j);
      } else if j > k {
        assert JoinedAt(nodes, list, members, j - 1);
      }
    }
  }

  /** A ring depends on the links of its own nodes only. */
  lemma RingFrame<T>(before: seq<Node<T>>, after: seq<Node<T>>, list: int, members: seq<int>)
    requires Ring(before, list, members) && |before| <= |after|
    requires forall id :: 0 <= id < |before| && (id == list || id in members) ==>
               after[id].prev == before[id].prev && after[id].next == before[id].next
    ensures Ring(after, list, members)
  {
    forall k | -1 <= k < |members| ensures JoinedAt(after, list, members, k) {
      assert JoinedAt(before, list, members, k);
    }
  }
}

/** Many lists in one array of nodes. */
module ListArenas {
  import opened FreeStacks
  import opened Wrappers
  import opened Rings

  /** Which members every list has, in order. */
  type Lists = map<int, seq<int>>

  /** `home[id]` is the list that a node belongs to, or -1. */
  ghost predicate ListOk<T>(nodes: seq<Node<T>>, home: seq<int>, list: int, members: seq<int>)
    requires |home| == |nodes|
  {
    && 0 <= list < |nodes| && home[list] == list && nodes[list].data == None
    && Ring(nodes, list, members) && Distinct(list, members)
    && forall k :: 0 <= k < |members| ==>
       0 <= members[k] < |nodes| && home[members[k]] == list && nodes[members[k]].data.Some?
  }

  /** Every node with a home is on exactly one ring, that of its home. */
  ghost predicate ListsOk<T>(nodes: seq<Node<T>>, lists: Lists, home: seq<int>) {
    && |home| == |nodes|
    && (forall list :: list in lists ==> ListOk(nodes, home, list, lists[list]))
    && HomesOk(lists, home)
  }

  ghost predicate HomesOk(lists: Lists, home: seq<int>) {
    forall id :: 0 <= id < |home| && home[id] != -1 ==> home[id] in lists && (id == home[id] || id in lists[home[id]])
  }

  /** The nodes without a home form one acyclic stack, and only their `prev` link is -1. */
  ghost predicate FreeOk<T>(nodes: seq<Node<T>>, home: seq<int>, top: int, free: seq<int>) {
    && |home| == |nodes|
    && top == Below(free, |free|)
    && (forall k :: 0 <= k < |free| ==>
          0 <= free[k] < |nodes| && home[free[k]] == -1 && nodes[free[k]].prev == -1 && nodes[free[k]].data == None)
    && LinksOk(nodes, free)
    && (forall j, k :: 0 <= j < k < |free| ==> free[j] != free[k])
    && AllFree(home, free)
    && (forall id :: 0 <= id < |nodes| && home[id] != -1 ==> nodes[id].prev != -1)
  }

  ghost predicate LinksOk<T>(nodes: seq<Node<T>>, free: seq<int>)
    requires forall k :: 0 <= k < |free| ==> 0 <= free[k] < |nodes|
  {
    forall k {:trigger Below(free, k)} :: 0 <= k < |free| ==> nodes[free[k]].next == Below(free, k)
  }

  ghost predicate AllFree(home: seq<int>, free: seq<int>) {
    forall id :: 0 <= id < |home| && home[id] == -1 ==> id in free
  }

  function Inserted(lists: Lists, list: int, before: int, id: int): Lists
    requires list in lists
  {
    lists[list := With(lists[list], IndexOf(lists[list], before), id)]
  }

  function Removed(lists: Lists, list: int, id: int): Lists
    requires list in lists
  {
    var k := IndexOf(lists[list], id);
    if k < |lists[list]| then lists[list := Without(lists[list], k)] else lists
  }

  /** Takes the element off its list and puts it in front of `before`; in front of itself it stays where it is. */
  function Moved(lists: Lists, from: int, to: int, before: int, id: int): Lists
    requires from in lists && to in lists
  {
    if id == before then lists else Inserted(Removed(lists, from, id), to, before, id)
  }

  /** What was inserted stands in front of `before`, or at the end, and the others keep their order. */
  lemma InsertedStandsBefore(lists: Lists, list: int, before: int, id: int)
    requires list in lists
    ensures var was, m, k := lists[list], Inserted(lists, list, before, id)[list], IndexOf(lists[list], before);
            && |m| == |was| + 1 && m[k] == id && m[..k] == was[..k] && m[k + 1..] == was[k..]
            && (before in was ==> m[k + 1] == before) && (before !in was ==> k == |was|)
    ensures forall other :: other in lists && other != list ==> Inserted(lists, list, before, id)[other] == lists[other]
    ensures Inserted(lists, list, before, id).Keys == lists.Keys
  {
  }

  /** What was removed is gone from its list, and the others keep their order. */
  lemma RemovedIsGone(lists: Lists, list: int, id: int)
    requires list in lists && id in lists[list]
    ensures var was, m, k := lists[list], Removed(lists, list, id)[list], IndexOf(lists[list], id);
            k < |was| && m[..k] == was[..k] && m[k..] == was[k + 1..]
    ensures forall other :: other in lists && other != list ==> Removed(lists, list, id)[other] == lists[other]
    ensures Removed(lists, list, id).Keys == lists.Keys
  {
  }

  /** A move is a removal and an insertion, and nothing at all in front of the element itself. */
  lemma MovedStandsBefore(lists: Lists, from: int, to: int, before: int, id: int)
    requires from in lists && to in lists && id in lists[from]
    ensures id == before ==> Moved(lists, from, to, before, id) == lists
    ensures id != before ==>
              var left := Removed(lists, from, id);
              var m, k := Moved(lists, from, to, before, id)[to], IndexOf(left[to], before);
              && |m| == |left[to]| + 1 && m[k] == id && m[..k] == left[to][..k] && m[k + 1..] == left[to][k..]
              && (before in left[to] ==> m[k + 1] == before) && (before !in left[to] ==> k == |left[to]|)
              && forall other :: other in lists && other != to ==>
                 Moved(lists, from, to, before, id)[other] == left[other]
  {
    RemovedIsGone(lists, from, id);
    if id != before { InsertedStandsBefore(Removed(lists, from, id), to, before, id); }
  }

  lemma OtherListKept<T>(before: seq<Node<T>>, after: seq<Node<T>>, home: seq<int>, home': seq<int>, list: int,
                         members: seq<int>, changed: int)
    requires |home| == |before| <= |after| == |home'| && list != changed && changed != -1
    requires ListOk(before, home, list, members)
    requires forall id :: 0 <= id < |before| && home[id] != changed && home[id] != -1 ==>
               after[id] == before[id] && home'[id] == home[id]
    ensures ListOk(after, home', list, members)
  {
    RingFrame(before, after, list, members);
  }

  lemma AtIsHome<T>(nodes: seq<Node<T>>, home: seq<int>, list: int, members: seq<int>, k: int)
    requires |home| == |nodes| && ListOk(nodes, home, list, members)
    ensures 0 <= At(list, members, k) < |nodes| && home[At(list, members, k)] == list
  {
  }

  /** The neighbours of a member belong to the same list. */
  lemma NeighboursAtHome<T>(nodes: seq<Node<T>>, lists: Lists, home: seq<int>, id: int)
    requires ListsOk(nodes, lists, home) && 0 <= id < |nodes| && home[id] != -1
    ensures var list, members := home[id], lists[home[id]];
            var k := IndexOf(members, id);
            && At(list, members, k) == id
            && nodes[id].prev == At(list, members, k - 1)
               && (k < |members| ==> nodes[id].next == At(list, members, k + 1))
            && 0 <= nodes[id].prev < |nodes| && 0 <= nodes[id].next < |nodes|
            && home[nodes[id].prev] == list && home[nodes[id].next] == list
            && nodes[nodes[id].prev].next == id && nodes[nodes[id].next].prev == id
  {
    var list, members := home[id], lists[home[id]];
    var k := IndexOf(members, id);
    assert ListOk(nodes, home, list, members);
    var j := if k < |members| then k else -1;
    RingNeighbours(nodes, list, members, k, j);
    AtIsHome(nodes, home, list, members, k - 1);
    AtIsHome(nodes, home, list, members, j + 1);
  }

  lemma RingNeighbours<T>(nodes: seq<Node<T>>, list: int, members: seq<int>, k: int, j: int)
    requires Ring(nodes, list, members) && 0 <= k <= |members| && j == (if k < |members| then k else -1)
    ensures Linked(nodes, At(list, members, k - 1), At(list, members, k))
    ensures Linked(nodes, At(list, members, k), At(list, members, j + 1))
  {
    assert JoinedAt(nodes, list, members, k - 1) && JoinedAt(nodes, list, members, j);
  }

  /** Only nodes of one list changed, and that list is well again. */
  lemma OneListChanged<T>(before: seq<Node<T>>, after: seq<Node<T>>, lists: Lists, home: seq<int>, home': seq<int>,
                          list: int, members: seq<int>)
    requires ListsOk(before, lists, home) && |home| == |before| <= |after| == |home'| && list != -1
    requires forall id :: 0 <= id < |before| && home[id] != list && home[id] != -1 ==>
             after[id] == before[id] && home'[id] == home[id]
    requires ListOk(after, home', list, members) && HomesOk(lists[list := members], home')
    ensures ListsOk(after, lists[list := members], home')
  {
    var lists' := lists[list := members];
    forall other | other in lists' ensures ListOk(after, home', other, lists'[other]) {
      if other != list { OtherListKept(before, after, home, home', other, lists[other], list); }
    }
  }

  lemma RemovedHomes(lists: Lists, home: seq<int>, id: int)
    requires HomesOk(lists, home) && 0 <= id < |home| && home[id] != -1 && home[id] in lists && id in lists[home[id]]
    ensures HomesOk(Removed(lists, home[id], id), home[id := -1])
  {
    var list, members := home[id], lists[home[id]];
    var k := IndexOf(members, id);
    var lists' := Removed(lists, list, id);
    forall n | 0 <= n < |home| && n != id && home[n] == list && n != list ensures n in lists'[list] {
      var j := IndexOf(members, n);
      assert lists'[list][if j < k then j else j - 1] == n;
    }
  }

  lemma InsertedHomes(lists: Lists, home: seq<int>, list: int, before: int, id: int)
    requires HomesOk(lists, home) && 0 <= id < |home| && list in lists && list != -1
    ensures HomesOk(Inserted(lists, list, before, id), home[id := list])
  {
    var members := lists[list];
    var k := IndexOf(members, before);
    var lists' := Inserted(lists, list, before, id);
    assert lists'[list][k] == id;
    forall n | 0 <= n < |home| && n != id && home[n] == list && n != list ensures n in lists'[list] {
      var j := IndexOf(members, n);
      assert lists'[list][if j < k then j else j + 1] == n;
    }
  }

  lemma UnlinkedListOk<T>(nodes: seq<Node<T>>, home: seq<int>, list: int, members: seq<int>, k: int)
    requires |home| == |nodes| && ListOk(nodes, home, list, members) && 0 <= k < |members|
    requires 0 <= nodes[members[k]].prev < |nodes| && 0 <= nodes[members[k]].next < |nodes|
    ensures ListOk(Unlink(nodes, members[k]), home[members[k] := -1], list, Without(members, k))
  {
    UnlinkRing(nodes, list, members, k);
  }

  lemma LinkedListOk<T>(nodes: seq<Node<T>>, home: seq<int>, list: int, members: seq<int>, k: int, id: int)
    requires |home| == |nodes| && ListOk(nodes, home, list, members) && 0 <= k <= |members| && list != -1
    requires 0 <= id < |nodes| && home[id] == -1 && nodes[id].data.Some?
    ensures ListOk(Link(nodes, At(list, members, k - 1), id, At(list, members, k)), home[id := list], list,
            With(members, k, id))
  {
    LinkRing(nodes, list, members, k, id);
  }

  lemma UnlinkKeepsLists<T>(nodes: seq<Node<T>>, lists: Lists, home: seq<int>, id: int)
    requires ListsOk(nodes, lists, home) && 0 <= id < |nodes| && home[id] != -1 && nodes[id].data.Some?
    ensures 0 <= nodes[id].prev < |nodes| && 0 <= nodes[id].next < |nodes|
    ensures ListsOk(Unlink(nodes, id), Removed(lists, home[id], id), home[id := -1])
  {
    var list, members := home[id], lists[home[id]];
    assert ListOk(nodes, home, list, members);
    NeighboursAtHome(nodes, lists, home, id);
    RemovedHomes(lists, home, id);
    var k := IndexOf(members, id);
    UnlinkedListOk(nodes, home, list, members, k);
    OneListChanged(nodes, Unlink(nodes, id), lists, home, home[id := -1], list, Without(members, k));
  }

  lemma LinkKeepsLists<T>(nodes: seq<Node<T>>, lists: Lists, home: seq<int>, before: int, id: int)
    requires ListsOk(nodes, lists, home) && 0 <= before < |nodes| && home[before] != -1
    requires 0 <= id < |nodes| && home[id] == -1 && nodes[id].data.Some?
    ensures 0 <= nodes[before].prev < |nodes|
    ensures ListsOk(Link(nodes, nodes[before].prev, id, before), Inserted(lists, home[before], before, id),
            home[id := home[before]])
  {
    var list, members := home[before], lists[home[before]];
    assert ListOk(nodes, home, list, members);
    NeighboursAtHome(nodes, lists, home, before);
    InsertedHomes(lists, home, list, before, id);
    var k := IndexOf(members, before);
    LinkedListOk(nodes, home, list, members, k, id);
    OneListChanged(nodes, Link(nodes, nodes[before].prev, id, before), lists, home, home[id := list], list,
        With(members, k, id));
  }

  /** Nodes without a home play no part in any list. */
  lemma HomelessNodesAreFree<T>(before: seq<Node<T>>, after: seq<Node<T>>, lists: Lists, home: seq<int>,
                                home': seq<int>)
    requires ListsOk(before, lists, home) && |before| <= |after| == |home'| && home <= home'
    requires forall id :: 0 <= id < |before| && home[id] != -1 ==> after[id] == before[id]
    requires forall id :: |before| <= id < |after| ==> home'[id] == -1
    ensures ListsOk(after, lists, home')
  {
    forall list | list in lists ensures ListOk(after, home', list, lists[list]) {
      OtherListKept(before, after, home, home', list, lists[list], -2);
    }
  }

  /** Putting an element in front of itself: the links that were cut are restored. */
  lemma RelinkBeforeItself<T>(nodes: seq<Node<T>>, lists: Lists, home: seq<int>, id: int)
    requires ListsOk(nodes, lists, home) && 0 <= id < |nodes| && home[id] != -1 && nodes[id].data.Some?
    ensures 0 <= nodes[id].prev < |nodes| && 0 <= nodes[id].next < |nodes|
    ensures var unlinked := Unlink(nodes, id);
            unlinked[id].prev == nodes[id].prev && unlinked[nodes[id].prev].next == nodes[id].next
            && Link(unlinked, nodes[id].prev, id, nodes[id].next) == nodes
  {
    NeighboursAtHome(nodes, lists, home, id);
    assert ListOk(nodes, home, home[id], lists[home[id]]);
    UnlinkRing(nodes, home[id], lists[home[id]], IndexOf(lists[home[id]], id));
  }

  lemma NewListKeepsLists<T>(nodes: seq<Node<T>>, lists: Lists, home: seq<int>, list: int)
    requires ListsOk(nodes, lists, home) && 0 <= list < |nodes| && home[list] == -1
             && nodes[list] == Node(list, list, None)
    ensures list !in lists && ListsOk(nodes, lists[list := []], home[list := list])
  {
    assert list in lists ==> ListOk(nodes, home, list, lists[list]);
    OneListChanged(nodes, nodes, lists, home, home[list := list], list, []);
  }

  /** Rewriting a node that has a home leaves the free stack alone. */
  lemma FreeKept<T>(nodes: seq<Node<T>>, home: seq<int>, top: int, free: seq<int>, id: int, node: Node<T>)
    requires FreeOk(nodes, home, top, free) && 0 <= id < |nodes| && home[id] != -1 && node.prev != -1
    ensures FreeOk(nodes[id := node], home, top, free)
  {
  }

  lemma UnlinkKeepsFree<T>(nodes: seq<Node<T>>, home: seq<int>, top: int, free: seq<int>, id: int)
    requires FreeOk(nodes, home, top, free) && 0 <= id < |nodes|
    requires 0 <= nodes[id].prev < |nodes| && 0 <= nodes[id].next < |nodes|
    requires home[nodes[id].prev] != -1 && home[nodes[id].next] != -1
    ensures FreeOk(Unlink(nodes, id), home, top, free)
  {
    var prev, next := nodes[id].prev, nodes[id].next;
    FreeKept(nodes, home, top, free, prev, nodes[prev].(next := next));
    var joined := nodes[prev := nodes[prev].(next := next)];
    FreeKept(joined, home, top, free, next, joined[next].(prev := prev));
  }

  lemma LinkKeepsFree<T>(nodes: seq<Node<T>>, home: seq<int>, top: int, free: seq<int>, prev: int, id: int, next: int)
    requires FreeOk(nodes, home, top, free) && 0 <= id < |nodes| && 0 <= prev < |nodes| && 0 <= next < |nodes|
    requires home[id] != -1 && home[prev] != -1 && home[next] != -1
    ensures FreeOk(Link(nodes, prev, id, next), home, top, free)
  {
    FreeKept(nodes, home, top, free, prev, nodes[prev].(next := id));
    var a := nodes[prev := nodes[prev].(next := id)];
    FreeKept(a, home, top, free, id, a[id].(prev := prev, next := next));
    var b := a[id := a[id].(prev := prev, next := next)];
    FreeKept(b, home, top, free, next, b[next].(prev := id));
  }

  lemma FreePopped<T>(nodes: seq<Node<T>>, home: seq<int>, top: int, free: seq<int>, node: Node<T>, list: int)
    requires FreeOk(nodes, home, top, free) && top != -1 && list != -1 && node.prev != -1
    ensures 0 <= top < |nodes| && free != []
            && FreeOk(nodes[top := node], home[top := list], nodes[top].next, free[..|free| - 1])
  {
    PoppedLinks(nodes, free, node);
    PoppedAllFree(home, free, list);
  }

  lemma PoppedLinks<T>(nodes: seq<Node<T>>, free: seq<int>, node: Node<T>)
    requires (forall k :: 0 <= k < |free| ==> 0 <= free[k] < |nodes|) && LinksOk(nodes, free) && free != []
    requires forall j :: 0 <= j < |free| - 1 ==> free[j] != free[|free| - 1]
    ensures nodes[free[|free| - 1]].next == Below(free[..|free| - 1], |free| - 1)
    ensures LinksOk(nodes[free[|free| - 1] := node], free[..|free| - 1])
  {
    Popped(free, free[..|free| - 1]);
  }

  lemma PoppedAllFree(home: seq<int>, free: seq<int>, list: int)
    requires AllFree(home, free) && free != [] && 0 <= free[|free| - 1] < |home| && list != -1
    ensures AllFree(home[free[|free| - 1] := list], free[..|free| - 1])
  {
    Popped(free, free[..|free| - 1]);
  }

  lemma FreeGrown<T>(nodes: seq<Node<T>>, home: seq<int>, free: seq<int>, node: Node<T>, list: int)
    requires FreeOk(nodes, home, -1, free) && list != -1 && node.prev != -1
    ensures free == [] && FreeOk(nodes + [node], home + [list], -1, free)
  {
  }

  lemma FreePushed<T>(nodes: seq<Node<T>>, home: seq<int>, top: int, free: seq<int>, id: int)
    requires FreeOk(nodes, home, top, free) && 0 <= id < |nodes| && home[id] != -1
    ensures FreeOk(nodes[id := Node(-1, top, None)], home[id := -1], id, free + [id])
  {
    var after, home', free' := nodes[id := Node(-1, top, None)], home[id := -1], free + [id];
    Pushed(free, id, free');
    forall n | 0 <= n < |after| && home'[n] == -1 ensures n in free' {
      if n != id { assert n in free; }
    }
  }

  /** The representation invariant of an arena. */
  ghost predicate ArenaOk<T>(nodes: seq<Node<T>>, lists: Lists, home: seq<int>, top: int, free: seq<int>) {
    ListsOk(nodes, lists, home) && FreeOk(nodes, home, top, free)
  }

  /** The values of the elements, by id. */
  ghost function ValuesOf<T>(nodes: seq<Node<T>>): map<int, T> {
    map id: int | 0 <= id < |nodes| && nodes[id].data.Some? :: nodes[id].data.value
  }

  lemma LinkKeepsValues<T>(nodes: seq<Node<T>>, prev: int, id: int, next: int)
    requires 0 <= id < |nodes| && 0 <= prev < |nodes| && 0 <= next < |nodes|
    ensures ValuesOf(Link(nodes, prev, id, next)) == ValuesOf(nodes)
  {
  }

  lemma UnlinkKeepsValues<T>(nodes: seq<Node<T>>, id: int)
    requires 0 <= id < |nodes| && 0 <= nodes[id].prev < |nodes| && 0 <= nodes[id].next < |nodes|
    ensures ValuesOf(Unlink(nodes, id)) == ValuesOf(nodes)
  {
  }

  lemma SameHomes<T>(nodes: seq<Node<T>>, home: seq<int>, home': seq<int>, top: int, free: seq<int>)
    requires FreeOk(nodes, home, top, free) && |home'| == |home|
    requires forall id :: 0 <= id < |home| ==> (home'[id] == -1 <==> home[id] == -1)
    ensures FreeOk(nodes, home', top, free)
  {
  }

  lemma ListReusesNode<T>(nodes: seq<Node<T>>, lists: Lists, home: seq<int>, top: int, free: seq<int>)
    requires ArenaOk(nodes, lists, home, top, free) && top != -1
    ensures 0 <= top < |nodes| && free != [] && top !in lists
    ensures var after := nodes[top := Node(top, top, None)];
            ArenaOk(after, lists[top := []], home[top := top], nodes[top].next, free[..|free| - 1])
                && ValuesOf(after) == ValuesOf(nodes)
  {
    var after := nodes[top := Node(top, top, None)];
    HomelessNodesAreFree(nodes, after, lists, home, home);
    NewListKeepsLists(after, lists, home, top);
    FreePopped(nodes, home, top, free, Node(top, top, None), top);
  }

  lemma ListAppendsNode<T>(nodes: seq<Node<T>>, lists: Lists, home: seq<int>, free: seq<int>)
    requires ArenaOk(nodes, lists, home, -1, free)
    ensures |nodes| !in lists
    ensures var after := nodes + [Node(|nodes|, |nodes|, None)];
            ArenaOk(after, lists[|nodes| := []], home + [|nodes|], -1, free) && ValuesOf(after) == ValuesOf(nodes)
  {
    var after := nodes + [Node(|nodes|, |nodes|, None)];
    HomelessNodesAreFree(nodes, after, lists, home, home + [-1]);
    NewListKeepsLists(after, lists, home + [-1], |nodes|);
    assert (home + [-1])[|nodes| := |nodes|] == home + [|nodes|];
    FreeGrown(nodes, home, free, Node(|nodes|, |nodes|, None), |nodes|);
  }

  lemma ElementJoinsList<T>(nodes: seq<Node<T>>, lists: Lists, home: seq<int>, before: int, id: int, node: Node<T>)
    requires ListsOk(nodes, lists, home) && 0 <= before < |nodes| && home[before] != -1
    requires 0 <= id < |nodes| && home[id] == -1 && node.data.Some?
    ensures 0 <= nodes[before].prev < |nodes|
    ensures var after := Link(nodes[id := node], nodes[before].prev, id, before);
            ListsOk(after, Inserted(lists, home[before], before, id), home[id := home[before]])
  {
    NeighboursAtHome(nodes, lists, home, before);
    HomelessNodesAreFree(nodes, nodes[id := node], lists, home, home);
    LinkKeepsLists(nodes[id := node], lists, home, before, id);
  }

  lemma ElementReusesNode<T>(nodes: seq<Node<T>>, lists: Lists, home: seq<int>, top: int, free: seq<int>, before: int,
                             value: T)
    requires ArenaOk(nodes, lists, home, top, free) && top != -1 && 0 <= before < |nodes| && home[before] != -1
    ensures 0 <= top < |nodes| && free != [] && home[before] in lists && 0 <= nodes[before].prev < |nodes|
            && top !in ValuesOf(nodes)
    ensures var prev, list := nodes[before].prev, home[before];
            var after := Link(nodes[top := Node(prev, before, Some(value))], prev, top, before);
            && top != before && top != prev
            && ArenaOk(after, Inserted(lists, list, before, top), home[top := list], nodes[top].next,
               free[..|free| - 1])
            && ValuesOf(after) == ValuesOf(nodes)[top := value]
  {
    NeighboursAtHome(nodes, lists, home, before);
    var prev := nodes[before].prev;
    var node := Node(prev, before, Some(value));
    TopIsFree(nodes, home, top, free);
    ElementJoinsList(nodes, lists, home, before, top, node);
    LinkKeepsValues(nodes[top := node], prev, top, before);
    FreeAfterReuse(nodes, home, top, free, prev, before, node);
  }

  lemma TopIsFree<T>(nodes: seq<Node<T>>, home: seq<int>, top: int, free: seq<int>)
    requires FreeOk(nodes, home, top, free) && top != -1
    ensures 0 <= top < |nodes| && home[top] == -1 && nodes[top].data == None
  {
  }

  lemma FreeAfterReuse<T>(nodes: seq<Node<T>>, home: seq<int>, top: int, free: seq<int>, prev: int, next: int,
                          node: Node<T>)
    requires FreeOk(nodes, home, top, free) && top != -1 && node.prev != -1
    requires 0 <= prev < |nodes| && 0 <= next < |nodes| && home[prev] != -1 && home[next] != -1
    ensures 0 <= top < |nodes| && free != []
    ensures FreeOk(Link(nodes[top := node], prev, top, next), home[top := home[next]], nodes[top].next,
            free[..|free| - 1])
  {
    FreePopped(nodes, home, top, free, node, home[next]);
    LinkKeepsFree(nodes[top := node], home[top := home[next]], nodes[top].next, free[..|free| - 1], prev, top, next);
  }

  lemma ElementAppendsNode<T>(nodes: seq<Node<T>>, lists: Lists, home: seq<int>, free: seq<int>, before: int, value: T)
    requires ArenaOk(nodes, lists, home, -1, free) && 0 <= before < |nodes| && home[before] != -1
    ensures home[before] in lists && 0 <= nodes[before].prev < |nodes|
    ensures var prev, list := nodes[before].prev, home[before];
            var after := Link(nodes + [Node(prev, before, Some(value))], prev, |nodes|, before);
            && ArenaOk(after, Inserted(lists, list, before, |nodes|), home + [list], -1, free)
            && ValuesOf(after) == ValuesOf(nodes)[|nodes| := value]
  {
    NeighboursAtHome(nodes, lists, home, before);
    var added := nodes + [Node(nodes[before].prev, before, Some(value))];
    HomelessNodesAreFree(nodes, added, lists, home, home + [-1]);
    LinkKeepsLists(added, lists, home + [-1], before, |nodes|);
    LinkKeepsValues(added, nodes[before].prev, |nodes|, before);
    assert (home + [-1])[|nodes| := home[before]] == home + [home[before]];
    FreeGrown(nodes, home, free, added[|nodes|], home[before]);
    LinkKeepsFree(added, home + [home[before]], -1, free, nodes[before].prev, |nodes|, before);
  }

  lemma ElementFreesNode<T>(nodes: seq<Node<T>>, lists: Lists, home: seq<int>, top: int, free: seq<int>, id: int)
    requires ArenaOk(nodes, lists, home, top, free) && 0 <= id < |nodes| && home[id] != -1 && nodes[id].data.Some?
    ensures home[id] in lists && 0 <= nodes[id].prev < |nodes| && 0 <= nodes[id].next < |nodes|
    ensures var after := Unlink(nodes, id)[id := Node(-1, top, None)];
            && ArenaOk(after, Removed(lists, home[id], id), home[id := -1], id, free + [id])
            && ValuesOf(after) == ValuesOf(nodes) - {id}
  {
    NeighboursAtHome(nodes, lists, home, id);
    ElementLeavesList(nodes, lists, home, id, Node(-1, top, None));
    UnlinkKeepsValues(nodes, id);
    UnlinkKeepsFree(nodes, home, top, free, id);
    FreePushed(Unlink(nodes, id), home, top, free, id);
  }

  lemma ElementLeavesList<T>(nodes: seq<Node<T>>, lists: Lists, home: seq<int>, id: int, node: Node<T>)
    requires ListsOk(nodes, lists, home) && 0 <= id < |nodes| && home[id] != -1 && nodes[id].data.Some?
    ensures 0 <= nodes[id].prev < |nodes| && 0 <= nodes[id].next < |nodes|
    ensures ListsOk(Unlink(nodes, id)[id := node], Removed(lists, home[id], id), home[id := -1])
  {
    UnlinkKeepsLists(nodes, lists, home, id);
    HomelessNodesAreFree(Unlink(nodes, id), Unlink(nodes, id)[id := node], Removed(lists, home[id], id),
        home[id := -1], home[id := -1]);
  }

  /** The nodes after an element was unlinked and then linked in front of `before`, wherever that now is. */
  function Relink<T>(nodes: seq<Node<T>>, before: int, id: int): seq<Node<T>>
    requires 0 <= id < |nodes| && 0 <= before < |nodes| && 0 <= nodes[before].prev < |nodes|
    requires 0 <= nodes[nodes[before].prev].next < |nodes|
  {
    Link(nodes, nodes[before].prev, id, nodes[nodes[before].prev].next)
  }

  lemma ElementMoves<T>(nodes: seq<Node<T>>, lists: Lists, home: seq<int>, top: int, free: seq<int>, before: int,
                        id: int)
    requires ArenaOk(nodes, lists, home, top, free) && 0 <= id < |nodes| && home[id] != -1 && nodes[id].data.Some?
    requires 0 <= before < |nodes| && home[before] != -1
    ensures home[id] in lists && home[before] in lists && 0 <= nodes[id].prev < |nodes| && 0 <= nodes[id].next < |nodes|
    ensures var unlinked := Unlink(nodes, id);
            && 0 <= unlinked[before].prev < |nodes| && 0 <= unlinked[unlinked[before].prev].next < |nodes|
            && ArenaOk(Relink(unlinked, before, id), Moved(lists, home[id], home[before], before, id),
                       home[id := home[before]], top, free)
            && ValuesOf(Relink(unlinked, before, id)) == ValuesOf(nodes)
  {
    NeighboursAtHome(nodes, lists, home, id);
    var unlinked := Unlink(nodes, id);
    if before == id {
      RelinkBeforeItself(nodes, lists, home, id);
      assert home[id := home[before]] == home;
    } else {
      UnlinkKeepsLists(nodes, lists, home, id);
      var lists', home' := Removed(lists, home[id], id), home[id := -1];
      NeighboursAtHome(unlinked, lists', home', before);
      LinkKeepsLists(unlinked, lists', home', before, id);
      assert home'[id := home[before]] == home[id := home[before]];
      UnlinkKeepsValues(nodes, id);
      LinkKeepsValues(unlinked, unlinked[before].prev, id, before);
      UnlinkKeepsFree(nodes, home, top, free, id);
      LinkKeepsFree(unlinked, home, top, free, unlinked[before].prev, id, before);
      SameHomes(Relink(unlinked, before, id), home, home[id := home[before]], top, free);
    }
  }

  lemma ListFreesNode<T>(nodes: seq<Node<T>>, lists: Lists, home: seq<int>, top: int, free: seq<int>, list: int)
    requires ArenaOk(nodes, lists, home, top, free) && list in lists && lists[list] == []
    ensures 0 <= list < |nodes|
    ensures var after := nodes[list := Node(-1, top, None)];
            && ArenaOk(after, lists - {list}, home[list := -1], list, free + [list])
            && ValuesOf(after) == ValuesOf(nodes)
  {
    assert ListOk(nodes, home, list, lists[list]);
    FreeIsNotListed(nodes, lists, home);
    var after := nodes[list := Node(-1, top, None)];
    FreePushed(nodes, home, top, free, list);
    var lists' := lists - {list};
    forall other | other in lists' ensures ListOk(after, home[list := -1], other, lists'[other]) {
      OtherListKept(nodes, after, home, home[list := -1], other, lists[other], list);
    }
  }

  lemma FreeIsNotListed<T>(nodes: seq<Node<T>>, lists: Lists, home: seq<int>)
    requires ListsOk(nodes, lists, home)
    ensures forall list :: list in lists ==> list != -1
  {
    forall list | list in lists ensures list != -1 {
      assert ListOk(nodes, home, list, lists[list]);
    }
  }

  /** A list that is not empty starts with an element, which leaves the others in place when it goes. */
  lemma FirstIsAtHome<T>(nodes: seq<Node<T>>, lists: Lists, home: seq<int>, top: int, free: seq<int>, list: int)
    requires ArenaOk(nodes, lists, home, top, free) && list in lists && At(list, lists[list], 0) != list
    ensures lists[list] != []
    ensures var id := lists[list][0];
            && 0 <= id < |nodes| && home[id] == list && nodes[id].data.Some? && nodes[id].prev != -1
            && Removed(lists, list, id) == lists[list := lists[list][1..]]
  {
    assert ListOk(nodes, home, list, lists[list]);
    FreeIsNotListed(nodes, lists, home);
    assert Without(lists[list], 0) == lists[list][1..];
  }

  lemma AllRemoved<T>(nodes: seq<Node<T>>, lists: Lists, home: seq<int>, top: int, free: seq<int>, list: int)
    requires ArenaOk(nodes, lists, home, top, free) && list in lists && At(list, lists[list], 0) == list
    ensures lists[list] == [] && 0 <= list < |nodes| && nodes[list].data == None
  {
    assert ListOk(nodes, home, list, lists[list]);
  }

  /** No element is on two lists, or twice on one. */
  lemma ElementIsOnOneList<T>(nodes: seq<Node<T>>, lists: Lists, home: seq<int>, top: int, free: seq<int>, id: int)
    requires ArenaOk(nodes, lists, home, top, free) && id in ValuesOf(nodes)
    ensures exists list, k :: list in lists && 0 <= k < |lists[list]| && lists[list][k] == id
    ensures forall list, k :: list in lists && 0 <= k < |lists[list]| && lists[list][k] == id ==>
              list == home[id] && k == IndexOf(lists[list], id)
  {
    assert home[id] != -1;
    assert ListOk(nodes, home, home[id], lists[home[id]]);
    assert lists[home[id]][IndexOf(lists[home[id]], id)] == id;
    forall list, k | list in lists && 0 <= k < |lists[list]| && lists[list][k] == id
      ensures list == home[id] && k == IndexOf(lists[list], id)
    {
      assert ListOk(nodes, home, list, lists[list]);
    }
  }

  lemma ListAtHome<T>(nodes: seq<Node<T>>, lists: Lists, home: seq<int>, top: int, free: seq<int>, list: int)
    requires ArenaOk(nodes, lists, home, top, free) && list in lists
    ensures 0 <= list < |nodes| && home[list] == list && nodes[list].prev != -1 && nodes[list].data == None
    ensures Distinct(list, lists[list])
  {
    FreeIsNotListed(nodes, lists, home);
    assert ListOk(nodes, home, list, lists[list]);
  }

  lemma MemberAtHome<T>(nodes: seq<Node<T>>, lists: Lists, home: seq<int>, top: int, free: seq<int>, list: int, k: int)
    requires ArenaOk(nodes, lists, home, top, free) && list in lists && 0 <= k < |lists[list]|
    ensures var id := lists[list][k];
            0 <= id < |nodes| && home[id] == list && nodes[id].prev != -1 && nodes[id].data.Some?
                && IndexOf(lists[list], id) == k
  {
    FreeIsNotListed(nodes, lists, home);
    assert ListOk(nodes, home, list, lists[list]);
  }

  class ListArena<T> {
    var nodes: seq<Node<T>>
    var freeTop: int

    ghost var lists: Lists
    ghost var home: seq<int>
    ghost var free: seq<int>

    /** Users of an arena need not look into its invariant; the members below do, by mentioning `Opened`. */
    ghost predicate Valid()
      reads this
    {
      forall key {:trigger Opened(key)} :: Opened(key) ==> ArenaOk(nodes, lists, home, freeTop, free)
    }

    predicate IsValid(id: int)
      reads this
    {
      0 <= id < |nodes| && nodes[id].prev != -1
    }

    predicate IsElement(id: int)
      reads this
    {
      IsValid(id) && nodes[id].data.Some?
    }

    predicate IsList(id: int)
      reads this
    {
      IsValid(id) && nodes[id].data == None
    }

    /** The list that a node belongs to, or -1. */
    ghost function HomeOf(id: int): int
      reads this
    {
      if 0 <= id < |home| then home[id] else -1
    }

    ghost function Values(): map<int, T>
      reads this
    {
      ValuesOf(nodes)
    }

    constructor ()
      ensures Valid() && lists == map[] && Values() == map[] && nodes == []
    {
      nodes, freeTop, lists, home, free := [], -1, map[], [], [];
    }

    /** An insertion in front of a list node appends to the list. */
    lemma InsertedAtEnd(list: int)
      requires Valid() && list in lists
      ensures IsList(list) && HomeOf(list) == list && Distinct(list, lists[list])
      ensures forall id :: Inserted(lists, list, list, id) == lists[list := lists[list] + [id]]
    {
      assert Opened(true);
      ListAtHome(nodes, lists, home, freeTop, free, list);
      forall id ensures Inserted(lists, list, list, id) == lists[list := lists[list] + [id]] {
        assert With(lists[list], |lists[list]|, id) == lists[list] + [id];
      }
    }

    /** What is known about the member at position `k` of a list, and what is left when it is removed. */
    lemma MemberAt(list: int, k: int)
      requires Valid() && list in lists && 0 <= k < |lists[list]|
      ensures var id := lists[list][k];
              && IsElement(id) && id in Values() && HomeOf(id) == list && IndexOf(lists[list], id) == k
              && Removed(lists, list, id) == lists[list := Without(lists[list], k)]
    {
      assert Opened(true);
      MemberAtHome(nodes, lists, home, freeTop, free, list, k);
    }

    /** Every element is on some list. */
    lemma ElementIsListed(id: int)
      requires Valid() && id in Values()
      ensures IsElement(id) && HomeOf(id) in lists && id in lists[HomeOf(id)]
      ensures forall list :: list in lists && list != HomeOf(id) ==> id !in lists[list]
    {
      assert Opened(true);
      ElementIsOnOneList(nodes, lists, home, freeTop, free, id);
    }

    lemma HomesAreLists(before: int, element: int)
      requires Valid() && IsValid(before) && IsElement(element)
      ensures ArenaOk(nodes, lists, home, freeTop, free) && |home| == |nodes|
      ensures home[before] in lists && home[element] in lists && home[before] != -1 && home[element] != -1
    {
      assert Opened(true);
    }

    lemma TopIsSmall()
      requires Valid()
      ensures -1 <= freeTop < |nodes|
    {
      assert Opened(true);
    }

    lemma ListIsDistinct(list: int)
      requires Valid() && list in lists
      ensures Distinct(list, lists[list])
    {
      assert Opened(true);
      ListAtHome(nodes, lists, home, freeTop, free, list);
    }

    method First(list: int) returns (id: int)
      requires Valid() && list in lists
      ensures id == At(list, lists[list], 0)
    {
      assert Opened(true);
      id := nodes[list].next;
      assert ListOk(nodes, home, list, lists[list]) && JoinedAt(nodes, list, lists[list], -1);
    }

    method Next(element: int) returns (id: int)
      requires Valid() && IsElement(element)
      ensures HomeOf(element) in lists && element in lists[HomeOf(element)]
      ensures id == At(HomeOf(element), lists[HomeOf(element)], IndexOf(lists[HomeOf(element)], element) + 1)
    {
      assert Opened(true);
      id := nodes[element].next;
      NeighboursAtHome(nodes, lists, home, element);
    }

    method AddList() returns (list: int)
      requires Valid()
      modifies this
      ensures Valid() && list !in old(lists) && lists == old(lists)[list := []]
      ensures Values() == old(Values())
      ensures list == if old(freeTop) != -1 then old(freeTop) else old(|nodes|)
      ensures |nodes| == old(|nodes|) + AsNat(old(freeTop) == -1)
    {
      assert Opened(true);
      ghost var nodes0 := nodes;
      list := freeTop;
      if list != -1 {
        ListReusesNode(nodes, lists, home, freeTop, free);
        freeTop := nodes[list].next;
        nodes := nodes[list := nodes[list].(prev := list)];
        nodes := nodes[list := nodes[list].(next := list)];
        assert nodes == nodes0[list := Node(list, list, None)];
        home, free := home[list := list], free[..|free| - 1];
      } else {
        ListAppendsNode(nodes, lists, home, free);
        list := |nodes|;
        nodes := nodes + [Node(list, list, None)];
        home := home + [list];
      }
      lists := lists[list := []];
    }

    /** Takes a node from the free stack, or appends one, and points it at its neighbours to be. */
    method NewElement(prev: int, next: int, value: T) returns (element: int)
      requires Valid() && 0 <= next < |nodes| && HomeOf(next) != -1 && prev == nodes[next].prev
      modifies this
      ensures prev != element && next != element && element !in old(Values()) && old(HomeOf(next) in lists)
      ensures 0 <= prev < |nodes| && 0 <= next < |nodes| && 0 <= element < |nodes|
      ensures nodes[element] == Node(prev, next, Some(value))
      ensures ArenaOk(Link(nodes, prev, element, next), lists, home, freeTop, free)
      ensures ValuesOf(Link(nodes, prev, element, next)) == old(Values())[element := value]
      ensures lists == Inserted(old(lists), old(HomeOf(next)), next, element)
      ensures element == if old(freeTop) != -1 then old(freeTop) else old(|nodes|)
      ensures |nodes| == old(|nodes|) + AsNat(old(freeTop) == -1)
    {
      assert Opened(true);
      element := freeTop;
      if element != -1 {
        ElementReusesNode(nodes, lists, home, freeTop, free, next, value);
        freeTop := nodes[element].next;
        nodes := nodes[element := Node(prev, next, Some(value))];
        home, free := home[element := home[next]], free[..|free| - 1];
      } else {
        ElementAppendsNode(nodes, lists, home, free, next, value);
        element := |nodes|;
        nodes := nodes + [Node(prev, next, Some(value))];
        home := home + [home[next]];
      }
      lists := Inserted(lists, old(home[next]), next, element);
    }

    method AddElementBefore(before: int, value: T) returns (element: int)
      requires Valid() && IsValid(before)
      modifies this
      ensures Valid() && element !in old(Values()) && Values() == old(Values())[element := value]
      ensures old(HomeOf(before) in lists) && lists == Inserted(old(lists), old(HomeOf(before)), before, element)
      ensures element == if old(freeTop) != -1 then old(freeTop) else old(|nodes|)
      ensures |nodes| == old(|nodes|) + AsNat(old(freeTop) == -1)
    {
      assert Opened(true);
      var prev := nodes[before].prev;
      var next := before;
      element := NewElement(prev, next, value);
      LinkOfReadyNode(nodes, prev, element, next);
      nodes := nodes[prev := nodes[prev].(next := element)];
      nodes := nodes[next := nodes[next].(prev := element)];
    }

    method MoveElementBefore(before: int, element: int)
      requires Valid() && IsValid(before) && IsElement(element)
      modifies this`nodes, this`lists, this`home
      ensures old(HomeOf(before) in lists && HomeOf(element) in lists)
      ensures Valid() && Values() == old(Values())
      ensures lists == Moved(old(lists), old(HomeOf(element)), old(HomeOf(before)), before, element)
    {
      HomesAreLists(before, element);
      ghost var moved := Moved(lists, HomeOf(element), HomeOf(before), before, element);
      ghost var settled := home[element := home[before]];
      ElementMoves(nodes, lists, home, freeTop, free, before, element);

      // unlink from the old neighbours
      var oldPrev := nodes[element].prev;
      var oldNext := nodes[element].next;
      nodes := nodes[oldPrev := nodes[oldPrev].(next := oldNext)];
      nodes := nodes[oldNext := nodes[oldNext].(prev := oldPrev)];

      // and link to the new ones; newNext is not `before` if that is the element itself
      var newPrev := nodes[before].prev;
      var newNext := nodes[newPrev].next;
      LinkInSteps(nodes, newPrev, element, newNext);
      nodes := nodes[newPrev := nodes[newPrev].(next := element)];
      nodes := nodes[element := nodes[element].(prev := newPrev)];
      nodes := nodes[element := nodes[element].(next := newNext)];
      nodes := nodes[newNext := nodes[newNext].(prev := element)];
      lists, home := moved, settled;
    }

    method RemoveElement(element: int)
      requires Valid() && IsElement(element)
      modifies this
      ensures Valid() && Values() == old(Values()) - {element}
      ensures old(HomeOf(element) in lists) && lists == Removed(old(lists), old(HomeOf(element)), element)
      ensures |nodes| == old(|nodes|)
    {
      assert Opened(true);
      ElementFreesNode(nodes, lists, home, freeTop, free, element);

      // unlink the element
      var prev := nodes[element].prev;
      var next := nodes[element].next;
      nodes := nodes[prev := nodes[prev].(next := next)];
      nodes := nodes[next := nodes[next].(prev := prev)];
      ghost var unlinked := nodes;

      // and push it on the free list
      nodes := nodes[element := nodes[element].(prev := -1)];
      nodes := nodes[element := nodes[element].(next := freeTop)];
      nodes := nodes[element := nodes[element].(data := None)];
      assert nodes == unlinked[element := Node(-1, freeTop, None)];
      lists, home, free := Removed(lists, home[element], element), home[element := -1], free + [element];
      freeTop := element;
    }

    method RemoveList(list: int)
      requires Valid() && list in lists
      modifies this
      ensures Valid() && lists == old(lists) - {list}
      ensures Values() == old(Values()) - Ids(old(lists[list]))
    {
      assert Opened(true);
      // first remove the elements of the list
      var element := First(list);
      ghost var n := 0;
      while element != list
        invariant Valid() && 0 <= n <= |old(lists[list])|
        invariant lists == old(lists)[list := old(lists[list])[n..]]
        invariant Values() == old(Values()) - Ids(old(lists[list])[..n])
        invariant element == At(list, lists[list], 0)
        decreases |old(lists[list])| - n
      {
        assert Opened(true);
        FirstIsAtHome(nodes, lists, home, freeTop, free, list);
        RemoveElement(element);
        OneMoreRemoved(old(lists), old(Values()), list, n);
        n := n + 1;
        element := First(list);
      }
      FreeEmptyList(list);
    }

    /** Pushes a list without elements on the free stack. */
    method FreeEmptyList(list: int)
      requires Valid() && list in lists && At(list, lists[list], 0) == list
      modifies this
      ensures Valid() && lists == old(lists) - {list} && old(lists[list] == []) && Values() == old(Values())
    {
      assert Opened(true);
      AllRemoved(nodes, lists, home, freeTop, free, list);
      ListFreesNode(nodes, lists, home, freeTop, free, list);
      nodes := nodes[list := nodes[list].(prev := -1)];
      nodes := nodes[list := nodes[list].(next := freeTop)];
      assert nodes == old(nodes)[list := Node(-1, freeTop, None)];
      lists, home, free := lists - {list}, home[list := -1], free + [list];
      freeTop := list;
    }
  }

  function Ids(members: seq<int>): set<int> {
    set id | id in members
  }

  lemma OneMoreRemoved<T>(lists: Lists, values: map<int, T>, list: int, n: int)
    requires list in lists && 0 <= n < |lists[list]|
    ensures var members := lists[list];
            && lists[list := members[n..]][list := members[n..][1..]] == lists[list := members[n + 1..]]
            && values - Ids(members[..n]) - {members[n]} == values - Ids(members[..n + 1])
  {
    var members := lists[list];
    assert members[n..][1..] == members[n + 1..];
    assert Ids(members[..n + 1]) == Ids(members[..n]) + {members[n]};
  }
}
