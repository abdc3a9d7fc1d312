/** Heap order on a sequence of keys, for any strict weak order; position i has children 2i+1 and 2i+2. */
module HeapOrder {

  /** Names three keys at once, so that transitivity is used only where it is asked for. */
  predicate Triple<P>(a: P, b: P, c: P) {
    true
  }

  /** A strict weak order, stated for its complement: "not less" is total and transitive. */
  ghost predicate StrictWeakOrder<P(!new)>(less: (P, P) -> bool) {
    && (forall a, b :: !less(a, b) || !less(b, a))
    && (forall a, b, c {:trigger Triple(a, b, c)} :: !less(a, b) && !less(b, c) ==> !less(a, c))
  }

  lemma Transitive<P(!new)>(less: (P, P) -> bool, a: P, b: P, c: P)
    requires StrictWeakOrder(less) && !less(a, b) && !less(b, c)
    ensures !less(a, c)
  {
    assert Triple(a, b, c);
  }

  lemma StrictlyTransitive<P(!new)>(less: (P, P) -> bool, a: P, b: P, c: P)
    requires StrictWeakOrder(less) && less(a, b) && less(b, c)
    ensures less(a, c)
  {
    if !less(a, c) { Transitive(less, a, c, b); }
  }

  function Parent(i: int): int
    requires i > 0
    ensures 0 <= Parent(i) < i
  {
    (i - 1) / 2
  }

  predicate PairOk<P>(less: (P, P) -> bool, keys: seq<P>, i: int)
    requires 0 < i < |keys|
  {
    !less(keys[Parent(i)], keys[i])
  }

  ghost predicate IsHeap<P>(less: (P, P) -> bool, keys: seq<P>) {
    forall i :: 0 < i < |keys| ==> PairOk(less, keys, i)
  }

  /** In order, except that the key at `x` may be out of place in either direction. */
  ghost predicate Near<P>(less: (P, P) -> bool, keys: seq<P>, x: int) {
    && 0 <= x < |keys|
    && (forall i :: 0 < i < |keys| && i != x && Parent(i) != x ==> PairOk(less, keys, i))
    && (forall i :: 0 < i < |keys| && Parent(i) == x && x > 0 ==> !less(keys[Parent(x)], keys[i]))
  }

  /** No child of `x` has a higher key than `x`. */
  ghost predicate ChildrenOk<P>(less: (P, P) -> bool, keys: seq<P>, x: int) {
    forall i :: 0 < i < |keys| && Parent(i) == x ==> PairOk(less, keys, i)
  }

  function Swapped<P>(keys: seq<P>, i: int, j: int): seq<P>
    requires 0 <= i < |keys| && 0 <= j < |keys|
  {
    keys[i := keys[j]][j := keys[i]]
  }

  /** Everything in its place, above and below `x`. */
  lemma NearIsHeap<P(!new)>(less: (P, P) -> bool, keys: seq<P>, x: int)
    requires Near(less, keys, x) && ChildrenOk(less, keys, x)
    requires x > 0 ==> PairOk(less, keys, x)
    ensures IsHeap(less, keys)
  {
  }

  /** Moving a key that is higher than its parent one level up moves the trouble one level up. */
  lemma SwimStep<P(!new)>(less: (P, P) -> bool, keys: seq<P>, x: int)
    requires StrictWeakOrder(less) && Near(less, keys, x) && x > 0 && !PairOk(less, keys, x)
    ensures var p := Parent(x);
            Near(less, Swapped(keys, x, p), p) && ChildrenOk(less, Swapped(keys, x, p), p)
  {
    var p := Parent(x);
    var keys' := Swapped(keys, x, p);
    if p > 0 { assert PairOk(less, keys, p); }
    forall i | 0 < i < |keys| && Parent(i) == p
      ensures PairOk(less, keys', i) && (p > 0 ==> !less(keys'[Parent(p)], keys'[i]))
    {
      if i != x {
        assert PairOk(less, keys, i);
        Transitive(less, keys[x], keys[p], keys[i]);
        if p > 0 { Transitive(less, keys[Parent(p)], keys[p], keys[i]); }
      }
    }
    forall i | 0 < i < |keys| && i != p && Parent(i) != p ensures PairOk(less, keys', i) {
      if Parent(i) != x { assert PairOk(less, keys, i); }
    }
  }

  /** Exchanging a key with its highest child, which is higher, moves the trouble one level down. */
  lemma SinkStep<P(!new)>(less: (P, P) -> bool, keys: seq<P>, x: int, c: int)
    requires StrictWeakOrder(less) && Near(less, keys, x) && (x > 0 ==> PairOk(less, keys, x))
    requires 0 < c < |keys| && Parent(c) == x && less(keys[x], keys[c])
    requires forall i :: 0 < i < |keys| && Parent(i) == x ==> !less(keys[c], keys[i])
    ensures Near(less, Swapped(keys, x, c), c) && PairOk(less, Swapped(keys, x, c), c)
  {
    var keys' := Swapped(keys, x, c);
    forall i | 0 < i < |keys| && i != c && Parent(i) != c ensures PairOk(less, keys', i) {
      if i != x && Parent(i) != x { assert PairOk(less, keys, i); }
    }
    forall i | 0 < i < |keys| && Parent(i) == c ensures !less(keys'[Parent(c)], keys'[i]) {
      assert PairOk(less, keys, i);
    }
  }

  /** In a heap, the key at the front is not below any other key. */
  lemma {:induction false} FrontIsHighest<P(!new)>(less: (P, P) -> bool, keys: seq<P>, i: int)
    requires StrictWeakOrder(less) && IsHeap(less, keys) && 0 <= i < |keys|
    ensures !less(keys[0], keys[i])
    decreases i
  {
    if i > 0 {
      FrontIsHighest(less, keys, Parent(i));
      assert PairOk(less, keys, i);
      Transitive(less, keys[0], keys[Parent(i)], keys[i]);
    }
  }

  lemma AppendedIsNear<P(!new)>(less: (P, P) -> bool, keys: seq<P>, key: P)
    requires IsHeap(less, keys)
    ensures Near(less, keys + [key], |keys|)
  {
    forall i | 0 < i < |keys| ensures PairOk(less, keys + [key], i) {
      assert PairOk(less, keys, i);
    }
  }

  /** The last item takes over position `x`. */
  function LastMovedTo<T>(s: seq<T>, x: int): seq<T>
    requires 0 <= x < |s|
  {
    s[x := s[|s| - 1]][..|s| - 1]
  }

  /** Filling a hole in a heap with the last key leaves the keys in order except at the hole. */
  lemma LastMovedIsNear<P(!new)>(less: (P, P) -> bool, keys: seq<P>, x: int)
    requires StrictWeakOrder(less) && IsHeap(less, keys) && 0 <= x < |keys|
    ensures if x < |keys| - 1 then Near(less, LastMovedTo(keys, x), x) else IsHeap(less, LastMovedTo(keys, x))
  {
    var keys' := LastMovedTo(keys, x);
    forall i | 0 < i < |keys'| && i != x && Parent(i) != x ensures PairOk(less, keys', i) {
      assert PairOk(less, keys, i);
    }
    forall i | 0 < i < |keys'| && Parent(i) == x && x > 0 ensures !less(keys'[Parent(x)], keys'[i]) {
      assert PairOk(less, keys, i) && PairOk(less, keys, x);
      Transitive(less, keys[Parent(x)], keys[x], keys[i]);
    }
  }
}

/** A priority queue whose elements are named by small, stable ids. */
module IndexedHeaps {
  import opened FreeStacks
  import opened Wrappers
  import opened DistinctSeqs
  import opened HeapOrder

  /** `index` is the position in the ordering if the slot is in use, and the next free slot otherwise. */
  datatype Slot<P, V> = Slot(index: int, pv: Option<(P, V)>)

  predicate Used<P, V>(elements: seq<Slot<P, V>>, id: int) {
    0 <= id < |elements| && elements[id].pv.Some?
  }

  /**
   The ordering lists exactly the ids in use, once each, and every such id knows its position;
   `keys` are the priorities in heap order.
   */
  ghost predicate Inverse<P, V>(elements: seq<Slot<P, V>>, ordering: seq<int>, keys: seq<P>) {
    && |keys| == |ordering|
    && (forall i :: 0 <= i < |ordering| ==>
          Used(elements, ordering[i]) && elements[ordering[i]].index == i
          && elements[ordering[i]].pv.value.0 == keys[i])
    && (forall id :: Used(elements, id) ==> 0 <= elements[id].index < |ordering| && ordering[elements[id].index] == id)
  }

  /** From `top`, the links of the free slots form one acyclic stack that holds exactly the slots not in use. */
  ghost predicate FreeStack<P, V>(elements: seq<Slot<P, V>>, top: int, free: seq<int>) {
    && top == Below(free, |free|)
    && (forall k :: 0 <= k < |free| ==> 0 <= free[k] < |elements| && elements[free[k]].pv == None)
    && LinksOk(elements, free)
    && (forall j, k :: 0 <= j < k < |free| ==> free[j] != free[k])
    && AllFree(elements, free)
  }

  ghost predicate LinksOk<P, V>(elements: seq<Slot<P, V>>, free: seq<int>)
    requires forall k :: 0 <= k < |free| ==> 0 <= free[k] < |elements|
  {
    forall k {:trigger Below(free, k)} :: 0 <= k < |free| ==> elements[free[k]].index == Below(free, k)
  }

  ghost predicate AllFree<P, V>(elements: seq<Slot<P, V>>, free: seq<int>) {
    forall id :: 0 <= id < |elements| && elements[id].pv == None ==> id in free
  }

  ghost function ContentsOf<P, V>(elements: seq<Slot<P, V>>): map<int, (P, V)> {
    map id: int | 0 <= id < |elements| && elements[id].pv.Some? :: elements[id].pv.value
  }

  /** Two arrangements of the same elements: only positions in the ordering differ. */
  ghost predicate SameSlots<P, V>(before: seq<Slot<P, V>>, after: seq<Slot<P, V>>) {
    && |before| == |after|
    && forall id :: 0 <= id < |before| ==>
       after[id].pv == before[id].pv && (before[id].pv == None ==> after[id] == before[id])
  }

  /** The ordering is a permutation of the ids of the elements. */
  lemma OrderingListsTheContents<P, V>(elements: seq<Slot<P, V>>, ordering: seq<int>, keys: seq<P>)
    requires Inverse(elements, ordering, keys)
    ensures forall i, j :: 0 <= i < j < |ordering| ==> ordering[i] != ordering[j]
    ensures ContentsOf(elements).Keys == (set id | id in ordering) && |ContentsOf(elements)| == |ordering|
  {
    assert forall id :: Used(elements, id) ==> id in ordering;
    DistinctCount(ordering);
    assert |ContentsOf(elements)| == |ContentsOf(elements).Keys|;
  }

  lemma SameSlotsKeepFreeStack<P, V>(before: seq<Slot<P, V>>, after: seq<Slot<P, V>>, top: int, free: seq<int>)
    requires SameSlots(before, after) && FreeStack(before, top, free)
    ensures FreeStack(after, top, free) && ContentsOf(after) == ContentsOf(before)
  {
  }

  lemma PopFree<P, V>(elements: seq<Slot<P, V>>, top: int, free: seq<int>, slot: Slot<P, V>)
    requires FreeStack(elements, top, free) && free != [] && slot.pv.Some?
    ensures FreeStack(elements[top := slot], elements[top].index, free[..|free| - 1])
  {
    PoppedLinks(elements, free, slot);
    PoppedAllFree(elements, free, slot);
  }

  lemma PoppedLinks<P, V>(elements: seq<Slot<P, V>>, free: seq<int>, slot: Slot<P, V>)
    requires (forall k :: 0 <= k < |free| ==> 0 <= free[k] < |elements|) && LinksOk(elements, free) && free != []
    requires forall j :: 0 <= j < |free| - 1 ==> free[j] != free[|free| - 1]
    ensures elements[free[|free| - 1]].index == Below(free[..|free| - 1], |free| - 1)
    ensures LinksOk(elements[free[|free| - 1] := slot], free[..|free| - 1])
  {
    Popped(free, free[..|free| - 1]);
  }

  lemma PoppedAllFree<P, V>(elements: seq<Slot<P, V>>, free: seq<int>, slot: Slot<P, V>)
    requires AllFree(elements, free) && free != [] && 0 <= free[|free| - 1] < |elements| && slot.pv.Some?
    ensures AllFree(elements[free[|free| - 1] := slot], free[..|free| - 1])
  {
    Popped(free, free[..|free| - 1]);
  }

  lemma PushFree<P, V>(elements: seq<Slot<P, V>>, top: int, free: seq<int>, id: int)
    requires FreeStack(elements, top, free) && Used(elements, id)
    ensures FreeStack(elements[id := Slot(top, None)], id, free + [id])
  {
    var after, free' := elements[id := Slot(top, None)], free + [id];
    Pushed(free, id, free');
    forall n | 0 <= n < |after| && after[n].pv == None ensures n in free' {
      if n != id { assert n in free; }
    }
  }

  /** A new last position of the ordering, for an id that was not in use. */
  lemma AppendedInverse<P, V>(before: seq<Slot<P, V>>, after: seq<Slot<P, V>>, ordering: seq<int>, keys: seq<P>,
                              id: int, pv: (P, V))
    requires Inverse(before, ordering, keys) && !Used(before, id)
    requires 0 <= id < |after| && after[id] == Slot(|ordering|, Some(pv))
             && |after| == (if id < |before| then |before| else id + 1)
    requires |before| <= |after| <= |before| + 1 && forall k :: 0 <= k < |before| && k != id ==> after[k] == before[k]
    ensures Inverse(after, ordering + [id], keys + [pv.0])
    ensures ContentsOf(after) == ContentsOf(before)[id := pv]
  {
  }

  /** The last position of the ordering takes over position `index`, whose id is no longer in use. */
  lemma RemovedInverse<P, V>(before: seq<Slot<P, V>>, after: seq<Slot<P, V>>, ordering: seq<int>, keys: seq<P>,
                             index: int, slot: Slot<P, V>)
    requires Inverse(before, ordering, keys) && 0 <= index < |ordering| && slot.pv == None
    requires after == (var last := ordering[|ordering| - 1];
                       before[last := before[last].(index := index)][ordering[index] := slot])
    ensures Inverse(after, LastMovedTo(ordering, index), LastMovedTo(keys, index))
    ensures ContentsOf(after) == ContentsOf(before) - {ordering[index]}
  {
  }

  class IndexedHeap<P(!new), V> {
    const less: (P, P) -> bool
    var elements: seq<Slot<P, V>>
    var freeTop: int
    var ordering: seq<int>

    ghost var keys: seq<P>
    ghost var free: seq<int>
    ghost var peak: nat // the highest number of elements that were ever in use together

    /** Users of a heap need not look into its invariant. */
    ghost predicate Valid()
      reads this
    {
      forall key {:trigger Opened(key)} :: Opened(key) ==> HeapOk()
    }

    ghost predicate HeapOk()
      reads this
    {
      && StrictWeakOrder(less)
      && Inverse(elements, ordering, keys)
      && FreeStack(elements, freeTop, free)
      && |ordering| + |free| == |elements| == peak
      && IsHeap(less, keys)
    }

    ghost function Contents(): map<int, (P, V)>
      reads this
    {
      ContentsOf(elements)
    }

    constructor (less: (P, P) -> bool)
      requires StrictWeakOrder(less)
      ensures Valid() && Contents() == map[] && this.less == less && peak == 0
    {
      this.less := less;
      elements, freeTop, ordering, keys, free, peak := [], -1, [], [], [], 0;
    }

    predicate Empty()
      reads this
    {
      ordering == []
    }

    lemma EmptyMeansNoContents()
      requires Valid()
      ensures Empty() <==> Contents() == map[]
      ensures |ordering| == |Contents()|
    {
      assert Opened(true);
      OrderingListsTheContents(elements, ordering, keys);
    }

    /** The id of an element that no other element has priority over. */
    method FrontElement() returns (id: int)
      requires Valid() && !Empty()
      ensures id in Contents() && forall other :: other in Contents() ==> !less(Contents()[id].0, Contents()[other].0)
    {
      assert Opened(true);
      id := ordering[0];
      forall other | Used(elements, other) ensures !less(elements[id].pv.value.0, elements[other].pv.value.0) {
        FrontIsHighest(less, keys, elements[other].index);
      }
    }

    function Priority(id: int): (priority: P)
      requires id in Contents()
      reads this
      ensures priority == Contents()[id].0
    {
      elements[id].pv.value.0
    }

    function Value(id: int): (value: V)
      requires id in Contents()
      reads this
      ensures value == Contents()[id].1
    {
      elements[id].pv.value.1
    }

    method AddElement(priority: P, value: V) returns (id: int)
      requires Valid()
      modifies this
      ensures Valid() && id !in old(Contents()) && Contents() == old(Contents())[id := (priority, value)]
      ensures |ordering| == old(|ordering|) + 1
      ensures peak == if |ordering| > old(peak) then |ordering| else old(peak)
    {
      assert Opened(true);
      id := AppendElement(priority, value);
      ghost var added := elements;
      var moved := Swim(id);
      if !moved { NearIsHeap(less, keys, |ordering| - 1); }
      SameSlotsKeepFreeStack(added, elements, freeTop, free);
      peak := if |ordering| > peak then |ordering| else peak;
    }

    /** Adds an element at the last position, where it may be out of order. */
    method AppendElement(priority: P, value: V) returns (id: int)
      requires Inverse(elements, ordering, keys) && FreeStack(elements, freeTop, free) && IsHeap(less, keys)
      modifies this`elements, this`freeTop, this`free, this`ordering, this`keys
      ensures Inverse(elements, ordering, keys) && FreeStack(elements, freeTop, free)
      ensures id !in old(Contents()) && Contents() == old(Contents())[id := (priority, value)]
      ensures |ordering| == old(|ordering|) + 1 && Used(elements, id) && elements[id].index == |ordering| - 1
      ensures Near(less, keys, |ordering| - 1)
      ensures |elements| == old(|elements|) + AsNat(old(free) == []) && |free| == old(|free|) - AsNat(old(free) != [])
    {
      var index := |ordering|;
      ghost var before := elements;
      id := AddToElements(index, priority, value);
      AppendedInverse(before, elements, ordering, keys, id, (priority, value));
      AppendedIsNear(less, keys, priority);
      ordering := ordering + [id];
      keys := keys + [priority];
    }

    /** Takes a slot from the free stack, or appends one; the ordering does not mention it yet. */
    method AddToElements(index: int, priority: P, value: V) returns (id: int)
      requires FreeStack(elements, freeTop, free) && index == |ordering|
      modifies this`elements, this`freeTop, this`free
      ensures 0 <= id < |elements| && !Used(old(elements), id)
      ensures |elements| == old(|elements|) + AsNat(old(free) == []) && |free| == old(|free|) - AsNat(old(free) != [])
      ensures elements[id] == Slot(index, Some((priority, value)))
      ensures forall k :: 0 <= k < old(|elements|) && k != id ==> elements[k] == old(elements)[k]
      ensures id == if old(free) == [] then old(|elements|) else old(freeTop)
      ensures FreeStack(elements, freeTop, free)
    {
      id := freeTop;
      if id == -1 {
        id := |elements|;
        elements := elements + [Slot(index, Some((priority, value)))];
      } else {
        PopFree(elements, freeTop, free, Slot(index, Some((priority, value))));
        freeTop := elements[id].index;
        elements := elements[id := Slot(index, Some((priority, value)))];
        free := free[..|free| - 1];
      }
    }

    method RemoveElement(id: int)
      requires Valid() && id in Contents()
      modifies this
      ensures Valid() && Contents() == old(Contents()) - {id}
      ensures peak == old(peak) && |ordering| == old(|ordering|) - 1
    {
      assert Opened(true);
      var lastId := ordering[|ordering| - 1];
      PutLastInPlaceOf(id);
      if lastId != id {
        MoveIntoPlace(lastId);
      }
    }

    /** Moves an element whose key may be out of order to where it belongs. */
    method MoveIntoPlace(id: int)
      requires StrictWeakOrder(less) && Inverse(elements, ordering, keys) && FreeStack(elements, freeTop, free)
      requires Used(elements, id) && Near(less, keys, elements[id].index)
      modifies this`elements, this`ordering, this`keys
      ensures Inverse(elements, ordering, keys) && FreeStack(elements, freeTop, free) && IsHeap(less, keys)
      ensures Contents() == old(Contents()) && |ordering| == old(|ordering|) && |elements| == old(|elements|)
    {
      var moved := Swim(id);
      if !moved {
        Sink(id);
      }
      SameSlotsKeepFreeStack(old(elements), elements, freeTop, free);
    }

    /** Removes an element; the last one of the ordering takes over its position, perhaps out of order. */
    method PutLastInPlaceOf(id: int)
      requires StrictWeakOrder(less) && Inverse(elements, ordering, keys) && FreeStack(elements, freeTop, free)
      requires IsHeap(less, keys) && Used(elements, id)
      modifies this`elements, this`freeTop, this`free, this`ordering, this`keys
      ensures Inverse(elements, ordering, keys) && FreeStack(elements, freeTop, free)
      ensures Contents() == old(Contents()) - {id}
      ensures |elements| == old(|elements|) && |free| == old(|free|) + 1
      ensures ordering == LastMovedTo(old(ordering), old(elements[id].index))
      ensures var last := old(ordering[|ordering| - 1]);
              if id != last then Used(elements, last) && Near(less, keys, elements[last].index) else IsHeap(less, keys)
    {
      var index := elements[id].index;
      var lastId := ordering[|ordering| - 1];
      ghost var before, orderingBefore := elements, ordering;

      // move the last element of the heap to the position of the removed one
      ordering := ordering[index := lastId];
      elements := elements[lastId := elements[lastId].(index := index)];

      // remove the element
      ordering := ordering[..|ordering| - 1];
      SameSlotsKeepFreeStack(before, elements, freeTop, free);
      RemoveFromElements(id);
      RemovedInverse(before, elements, orderingBefore, keys, index, elements[id]);
      LastMovedIsNear(less, keys, index);
      keys := LastMovedTo(keys, index);
    }

    method RemoveFromElements(id: int)
      requires Used(elements, id) && FreeStack(elements, freeTop, free)
      modifies this`elements, this`freeTop, this`free
      ensures FreeStack(elements, freeTop, free) && |free| == old(|free|) + 1
      ensures elements == old(elements[id := Slot(freeTop, None)])
    {
      PushFree(elements, freeTop, free, id);
      elements := elements[id := Slot(freeTop, None)];
      freeTop := id;
      free := free + [id];
    }

    /** Exchanges two positions of the ordering. */
    method TradePlaces(i: int, j: int)
      requires Inverse(elements, ordering, keys) && 0 <= i < |ordering| && 0 <= j < |ordering| && i != j
      modifies this`elements, this`ordering, this`keys
      ensures Inverse(elements, ordering, keys) && SameSlots(old(elements), elements)
      ensures |ordering| == old(|ordering|) && keys == Swapped(old(keys), i, j)
      ensures elements[old(ordering[i])].index == j
    {
      var a, b := ordering[i], ordering[j];
      ordering := ordering[i := b];
      ordering := ordering[j := a];
      elements := elements[a := elements[a].(index := j)];
      elements := elements[b := elements[b].(index := i)];
      keys := Swapped(keys, i, j);
    }

    /** Moves an element up as far as needed. */
    method Swim(id: int) returns (moved: bool)
      requires StrictWeakOrder(less) && Inverse(elements, ordering, keys)
      requires Used(elements, id) && Near(less, keys, elements[id].index)
      modifies this`elements, this`ordering, this`keys
      ensures Inverse(elements, ordering, keys) && SameSlots(old(elements), elements) && |ordering| == old(|ordering|)
      ensures moved ==> IsHeap(less, keys)
      ensures !moved ==> elements == old(elements) && ordering == old(ordering) && keys == old(keys)
      ensures !moved && elements[id].index > 0 ==> PairOk(less, keys, elements[id].index)
    {
      var index := elements[id].index;
      moved := false;
      while index > 0
        invariant Inverse(elements, ordering, keys) && SameSlots(old(elements), elements)
                  && |ordering| == old(|ordering|)
        invariant Used(elements, id) && index == elements[id].index && Near(less, keys, index)
        invariant moved ==> ChildrenOk(less, keys, index)
        invariant !moved ==> elements == old(elements) && ordering == old(ordering) && keys == old(keys)
        decreases index
      {
        var parentIndex := Parent(index);
        var parentId := ordering[parentIndex];
        if !less(elements[parentId].pv.value.0, elements[id].pv.value.0) {
          break;
        }
        SwimStep(less, keys, index);
        TradePlaces(index, parentIndex);
        moved := true;
        index := parentIndex;
      }
      if moved { NearIsHeap(less, keys, index); }
    }

    /** The position of the highest of `id` and its children. */
    method HighestOf(index: int) returns (highest: int)
      requires StrictWeakOrder(less) && Inverse(elements, ordering, keys) && 0 <= index < |ordering|
      ensures highest == index
              || (0 < highest < |ordering| && Parent(highest) == index && less(keys[index], keys[highest]))
      ensures forall i :: 0 < i < |ordering| && Parent(i) == index ==> !less(keys[highest], keys[i])
    {
      highest := index;
      var child := 2 * index + 1;
      while child < |ordering| && child <= 2 * index + 2
        invariant 2 * index + 1 <= child <= 2 * index + 3
        invariant highest == index
                  || (0 < highest < |ordering| && Parent(highest) == index && less(keys[index], keys[highest]))
        invariant forall i :: 2 * index + 1 <= i < child && i < |ordering| ==> !less(keys[highest], keys[i])
      {
        if less(elements[ordering[highest]].pv.value.0, elements[ordering[child]].pv.value.0) {
          forall i | 2 * index + 1 <= i < child ensures !less(keys[child], keys[i]) {
            Transitive(less, keys[child], keys[highest], keys[i]);
          }
          if highest != index { StrictlyTransitive(less, keys[index], keys[highest], keys[child]); }
          highest := child;
        }
        child := child + 1;
      }
    }

    /** Moves an element down as far as needed. */
    method Sink(id: int)
      requires StrictWeakOrder(less) && Inverse(elements, ordering, keys)
      requires Used(elements, id) && Near(less, keys, elements[id].index)
      requires elements[id].index > 0 ==> PairOk(less, keys, elements[id].index)
      modifies this`elements, this`ordering, this`keys
      ensures Inverse(elements, ordering, keys) && SameSlots(old(elements), elements) && |ordering| == old(|ordering|)
      ensures IsHeap(less, keys)
    {
      var index := elements[id].index;
      var limit := |ordering|;
      while index < limit / 2
        invariant Inverse(elements, ordering, keys) && SameSlots(old(elements), elements)
                  && |ordering| == old(|ordering|) == limit
        invariant Used(elements, id) && index == elements[id].index && Near(less, keys, index)
        invariant index > 0 ==> PairOk(less, keys, index)
        decreases limit - index
      {
        var highest := HighestOf(index);
        if highest == index {
          break;
        }
        SinkStep(less, keys, index, highest);
        TradePlaces(index, highest);
        index := highest;
      }
      NearIsHeap(less, keys, index);
    }
  }
}
