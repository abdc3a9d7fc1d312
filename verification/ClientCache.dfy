/** A cache of idle connections, newest first, in which connections expire. */
module ClientCaches {
  import opened Wrappers

  type Address = string

  datatype Client = Client(id: int, address: Address)

  datatype Entry = Entry(timestamp: int, client: Client)

  /** The entries that are younger than the maximum age: a full filter. */
  function Unexpired(entries: seq<Entry>, expiry: int): seq<Entry> {
    if entries == [] then []
    else
      var last := entries[|entries| - 1];
      Unexpired(entries[..|entries| - 1], expiry) + (if last.timestamp > expiry then [last] else [])
  }

  function Expired(entries: seq<Entry>, expiry: int): seq<Entry> {
    if entries == [] then []
    else
      var last := entries[|entries| - 1];
      Expired(entries[..|entries| - 1], expiry) + (if last.timestamp > expiry then [] else [last])
  }

  function To(entries: seq<Entry>, address: Address): seq<Entry> {
    if entries == [] then []
    else
      var last := entries[|entries| - 1];
      To(entries[..|entries| - 1], address) + (if last.client.address == address then [last] else [])
  }

  function NotTo(entries: seq<Entry>, address: Address): seq<Entry> {
    if entries == [] then []
    else
      var last := entries[|entries| - 1];
      NotTo(entries[..|entries| - 1], address) + (if last.client.address == address then [] else [last])
  }

  ghost predicate NewestFirst(entries: seq<Entry>) {
    forall i, j :: 0 <= i < j < |entries| ==> entries[i].timestamp >= entries[j].timestamp
  }

  /** What the filters make of the last entry. */
  lemma FilterLast(front: seq<Entry>, last: Entry, expiry: int, address: Address)
    ensures Unexpired(front + [last], expiry)
            == Unexpired(front, expiry) + (if last.timestamp > expiry then [last] else [])
    ensures Expired(front + [last], expiry) == Expired(front, expiry) + (if last.timestamp > expiry then [] else [last])
    ensures To(front + [last], address) == To(front, address) + (if last.client.address == address then [last] else [])
    ensures NotTo(front + [last], address) == NotTo(front, address)
            + (if last.client.address == address then [] else [last])
  {
    assert (front + [last])[..|front|] == front;
  }

  lemma FrontAndLast(entries: seq<Entry>) returns (front: seq<Entry>, last: Entry)
    requires entries != []
    ensures entries == front + [last] && |front| == |entries| - 1 && last == entries[|front|]
    ensures forall i :: 0 <= i < |front| ==> front[i] == entries[i]
    ensures multiset(entries) == multiset(front) + multiset{last}
  {
    front, last := entries[..|entries| - 1], entries[|entries| - 1];
    assert entries == front + [last];
  }

  /** What the filters let through. */
  lemma {:induction false} FilterMembers(entries: seq<Entry>, expiry: int, address: Address)
    ensures forall e :: e in Unexpired(entries, expiry) <==> e in entries && e.timestamp > expiry
    ensures forall e :: e in Expired(entries, expiry) <==> e in entries && e.timestamp <= expiry
    ensures forall e :: e in To(entries, address) <==> e in entries && e.client.address == address
    ensures forall e :: e in NotTo(entries, address) <==> e in entries && e.client.address != address
    decreases |entries|
  {
    if entries != [] {
      var front, last := FrontAndLast(entries);
      FilterMembers(front, expiry, address);
      FilterLast(front, last, expiry, address);
    }
  }

  lemma {:induction false} AllUnexpired(entries: seq<Entry>, expiry: int)
    requires forall i :: 0 <= i < |entries| ==> entries[i].timestamp > expiry
    ensures Unexpired(entries, expiry) == entries && Expired(entries, expiry) == []
    decreases |entries|
  {
    if entries != [] {
      var front, last := FrontAndLast(entries);
      AllUnexpired(front, expiry);
      FilterLast(front, last, expiry, "");
    }
  }

  /** Newest first, the scan that stops at the first expired entry finds what the full filter finds. */
  lemma {:induction false} EarlyExitIsFullFilter(entries: seq<Entry>, expiry: int, n: int)
    requires NewestFirst(entries) && 0 <= n <= |entries|
    requires forall i :: 0 <= i < n ==> entries[i].timestamp > expiry
    requires n < |entries| ==> entries[n].timestamp <= expiry
    ensures Unexpired(entries, expiry) == entries[..n] && Expired(entries, expiry) == entries[n..]
    decreases |entries|
  {
    if n == |entries| {
      AllUnexpired(entries, expiry);
    } else {
      var front, last := FrontAndLast(entries);
      FilterLast(front, last, expiry, "");
      CutFront(front, last, n);
      if n == |front| {
        AllUnexpired(front, expiry);
      } else {
        EarlyExitIsFullFilter(front, expiry, n);
      }
    }
  }

  lemma CutFront(front: seq<Entry>, last: Entry, n: int)
    requires 0 <= n <= |front|
    ensures (front + [last])[..n] == front[..n] && (front + [last])[n..] == front[n..] + [last]
  {
  }

  /** Every entry is on exactly one side of a filter. */
  lemma {:induction false} SplitByAge(entries: seq<Entry>, expiry: int)
    ensures multiset(Unexpired(entries, expiry)) + multiset(Expired(entries, expiry)) == multiset(entries)
    decreases |entries|
  {
    if entries != [] {
      var front, last := FrontAndLast(entries);
      SplitByAge(front, expiry);
      FilterLast(front, last, expiry, "");
    }
  }

  lemma {:induction false} SplitByAddress(entries: seq<Entry>, address: Address)
    ensures multiset(To(entries, address)) + multiset(NotTo(entries, address)) == multiset(entries)
    decreases |entries|
  {
    if entries != [] {
      var front, last := FrontAndLast(entries);
      SplitByAddress(front, address);
      FilterLast(front, last, 0, address);
    }
  }

  /** The filters keep the order. */
  lemma {:induction false} FilterKeepsOrder(entries: seq<Entry>, address: Address)
    requires NewestFirst(entries)
    ensures NewestFirst(NotTo(entries, address)) && |NotTo(entries, address)| <= |entries|
  {
    if entries != [] {
      var m := |entries| - 1;
      FilterKeepsOrder(entries[..m], address);
      var fewer := NotTo(entries[..m], address);
      FilterMembers(entries[..m], 0, address);
      forall i | 0 <= i < |fewer| ensures fewer[i].timestamp >= entries[m].timestamp {
        assert fewer[i] in fewer && fewer[i] in entries[..m];
      }
    }
  }

  /** The position of the newest entry for an address, or the number of entries. */
  function FirstTo(entries: seq<Entry>, address: Address): (k: nat)
    ensures k <= |entries|
    ensures forall i :: 0 <= i < k ==> entries[i].client.address != address
    ensures k < |entries| ==> entries[k].client.address == address
  {
    if entries == [] || entries[0].client.address == address then 0 else 1 + FirstTo(entries[1..], address)
  }

  lemma FirstToIs(entries: seq<Entry>, address: Address, k: nat)
    requires k <= |entries| && forall i :: 0 <= i < k ==> entries[i].client.address != address
    requires k < |entries| ==> entries[k].client.address == address
    ensures FirstTo(entries, address) == k
  {
  }

  /** Newest first, and nothing newer than `latest`; the lemmas below look into this. */
  ghost predicate Ordered(entries: seq<Entry>, latest: int) {
    forall key {:trigger Opened(key)} :: Opened(key) ==>
      NewestFirst(entries) && forall i :: 0 <= i < |entries| ==> entries[i].timestamp <= latest
  }

  lemma OrderedGrows(entries: seq<Entry>, latest: int, entry: Entry)
    requires Ordered(entries, latest) && (entries != [] ==> entry.timestamp >= latest)
    ensures Ordered([entry] + entries, entry.timestamp)
  {
    assert Opened(true);
  }

  lemma OrderedPrefix(entries: seq<Entry>, latest: int, n: nat)
    requires Ordered(entries, latest) && n <= |entries|
    ensures Ordered(entries[..n], latest)
  {
    assert Opened(true);
  }

  class ClientCache {
    const maxSize: nat
    const maxAge: int
    var entries: seq<Entry>

    ghost var latest: int // the clock when an entry was last stored

    ghost predicate Valid()
      reads this
    {
      Ordered(entries, latest) && |entries| <= maxSize
    }

    constructor (maxSize: nat, maxAge: int)
      ensures Valid() && entries == [] && this.maxSize == maxSize && this.maxAge == maxAge
    {
      this.maxSize, this.maxAge, entries, latest := maxSize, maxAge, [], 0;
    }

    /** Stores a connection; the oldest one is closed if the cache was full, which may be the new one. */
    method Store(now: int, client: Client) returns (evicted: seq<Entry>)
      requires Valid() && (entries != [] ==> now >= latest)
      modifies this
      ensures Valid() && latest == now
      ensures [Entry(now, client)] + old(entries) == entries + evicted
      ensures |evicted| == AsNat(old(|entries|) == maxSize)
    {
      var oldSize := |entries|;
      OrderedGrows(entries, latest, Entry(now, client));
      entries := [Entry(now, client)] + entries;
      latest := now;
      evicted := [];
      if oldSize == maxSize {
        OrderedPrefix(entries, latest, |entries| - 1);
        evicted := [entries[|entries| - 1]];
        entries := entries[..|entries| - 1];
      }
    }

    /** Takes the first entry for an address, unless it is expired; `next` is where the scan stopped. */
    method TakeMatch(expiry: int, address: Address) returns (result: Option<Entry>, next: nat)
      requires Valid()
      modifies this`entries
      ensures Valid() && next <= |entries| && Scanned(old(entries), expiry, address, next)
      ensures if result.Some? then next < |old(entries)| && old(entries)[next] == result.value
                                   && result.value.timestamp > expiry && result.value.client.address == address
                                   && entries == Taken(old(entries), next)
              else entries == old(entries) && (next < |entries| ==> entries[next].timestamp <= expiry)
    {
      result := None;
      next := 0;
      while next < |entries| && entries[next].timestamp > expiry && result == None
        invariant next <= |entries| && entries == old(entries) && result == None
                  && Scanned(entries, expiry, address, next)
      {
        assert Opened(true);
        if entries[next].client.address == address {
          TakenKeepsOrder(entries, latest, next);
          result := Some(entries[next]);
          entries := Taken(entries, next);
          break;
        }
        next := next + 1;
      }
    }

    /** Looks for an idle connection, and lets go of the expired ones. */
    method FindEntry(now: int, address: Address) returns (result: Option<Entry>, expired: seq<Entry>)
      requires Valid()
      modifies this`entries
      ensures Valid() && expired == Expired(old(entries), now - maxAge)
      ensures MatchTaken(Unexpired(old(entries), now - maxAge), address, result, entries)
    {
      ghost var all := entries;
      var expiry := now - maxAge;
      var next;
      result, next := TakeMatch(expiry, address);
      ghost var k, left := next, entries;
      while next < |entries| && entries[next].timestamp > expiry
        invariant k <= next <= |entries| && entries == left
        invariant forall i :: k <= i < next ==> entries[i].timestamp > expiry
      {
        next := next + 1;
      }
      if result.Some? {
        assert YoungUntil(left, k, next, expiry);
        ScanFound(all, latest, expiry, address, k, next);
      } else {
        ScanMissed(all, latest, expiry, address, k);
      }
      assert MatchTaken(Unexpired(all, expiry), address, result, left[..next]);
      OrderedPrefix(left, latest, next);
      expired := entries[next..];
      entries := entries[..next];
    }

    /** Closes every connection to an address, and every expired one. */
    method InvalidateEntries(now: int, address: Address) returns (invalidated: seq<Entry>, expired: seq<Entry>)
      requires Valid()
      modifies this`entries
      ensures Valid() && expired == Expired(old(entries), now - maxAge)
      ensures entries == NotTo(Unexpired(old(entries), now - maxAge), address)
      ensures invalidated == To(Unexpired(old(entries), now - maxAge), address)
    {
      ghost var all, m := entries, 0;
      var expiry := now - maxAge;
      invalidated := [];
      var next := 0;
      SiftStart(all, expiry, address);
      while next < |entries| && entries[next].timestamp > expiry
        invariant next <= |entries| && 0 <= m && |entries| - next == |all| - m
        invariant Sifted(all, m, expiry, address, invalidated, entries, next)
        decreases |entries| - next
      {
        SiftStep(all, m, expiry, address, invalidated, entries, next);
        if entries[next].client.address == address {
          invalidated := invalidated + [entries[next]];
          entries := Taken(entries, next);
        } else {
          next := next + 1;
        }
        m := m + 1;
      }
      SiftDone(all, latest, m, expiry, address, invalidated, entries, next);
      expired := entries[next..];
      entries := entries[..next];
    }

    /**
     Hands out the newest idle connection to a server, or else the one that is `created`; if that fails, `later`, all
     connections to the server are closed.
     */
    method Obtain(now: int, address: Address, created: Option<Client>, later: int)
      returns (result: Option<Client>, closed: seq<Entry>)
      requires Valid() && (created.Some? ==> created.value.address == address)
      modifies this`entries
      ensures Valid()
      ensures result.Some? ==> result.value.address == address && closed == Expired(old(entries), now - maxAge)
      ensures result == None ==> created == None && forall i :: 0 <= i < |entries| ==>
              entries[i].client.address != address
      ensures var young := Unexpired(old(entries), now - maxAge);
              var k := FirstTo(young, address);
              if k < |young| then result == Some(young[k].client) && entries == Taken(young, k)
              else if created.Some? then result == created && entries == young
              else result == None && entries == NotTo(Unexpired(young, later - maxAge), address)
                   && closed == Expired(old(entries), now - maxAge) + To(Unexpired(young, later - maxAge), address)
                      + Expired(young, later - maxAge)
    {
      var entry, expired := FindEntry(now, address);
      closed := expired;
      MatchTakenMeans(Unexpired(old(entries), now - maxAge), address, entry, entries);
      if entry.Some? {
        result := Some(entry.value.client);
      } else if created.Some? {
        result := created;
      } else {
        result := None;
        FilterMembers(Unexpired(entries, later - maxAge), 0, address);
        var invalidated, expiredNow := InvalidateEntries(later, address);
        closed := closed + invalidated + expiredNow;
      }
    }
  }

  function Taken(entries: seq<Entry>, k: nat): seq<Entry>
    requires k < |entries|
  {
    entries[..k] + entries[k + 1..]
  }

  /** The newest entry for an address was taken out, if there is one. */
  ghost predicate MatchTaken(entries: seq<Entry>, address: Address, result: Option<Entry>, left: seq<Entry>) {
    forall key {:trigger Opened(key)} :: Opened(key) ==>
      var k := FirstTo(entries, address);
      if k < |entries| then result == Some(entries[k]) && left == Taken(entries, k)
      else result == None && left == entries
  }

  ghost predicate AllYoung(entries: seq<Entry>, n: int, expiry: int) {
    forall i :: 0 <= i < n && i < |entries| ==> entries[i].timestamp > expiry
  }

  /**
   The first `m` entries have been sorted into those for an address and those that stay; `entries` is what stays so
   far.
   */
  ghost predicate Sifted(all: seq<Entry>, m: int, expiry: int, address: Address, out: seq<Entry>, entries: seq<Entry>,
                         n: int) {
    forall key {:trigger Opened(key)} :: Opened(key) ==>
      && 0 <= m <= |all| && 0 <= n <= |entries| && AllYoung(all, m, expiry)
      && out == To(all[..m], address) && entries[..n] == NotTo(all[..m], address) && entries[n..] == all[m..]
  }

  lemma SiftStart(all: seq<Entry>, expiry: int, address: Address)
    ensures Sifted(all, 0, expiry, address, [], all, 0)
  {
    assert all[..0] == [];
  }

  lemma SiftStep(all: seq<Entry>, m: int, expiry: int, address: Address, out: seq<Entry>, entries: seq<Entry>, n: int)
    requires Sifted(all, m, expiry, address, out, entries, n) && 0 <= n < |entries| && entries[n].timestamp > expiry
    ensures if entries[n].client.address == address
            then Sifted(all, m + 1, expiry, address, out + [entries[n]], Taken(entries, n), n)
            else Sifted(all, m + 1, expiry, address, out, entries, n + 1)
  {
    assert Opened(true);
    assert entries[n] == entries[n..][0] == all[m];
    PrefixGrows(all, m);
    PrefixGrows(entries, n);
    FilterLast(all[..m], all[m], expiry, address);
    TakenAt(entries, n);
  }

  lemma PrefixGrows(entries: seq<Entry>, n: int)
    requires 0 <= n < |entries|
    ensures entries[..n + 1] == entries[..n] + [entries[n]] && entries[n..][1..] == entries[n + 1..]
  {
  }

  lemma SiftDone(all: seq<Entry>, latest: int, m: int, expiry: int, address: Address, out: seq<Entry>,
                 entries: seq<Entry>, n: nat)
    requires Sifted(all, m, expiry, address, out, entries, n) && Ordered(all, latest) && n <= |entries|
    requires n < |entries| ==> entries[n].timestamp <= expiry
    ensures entries[n..] == Expired(all, expiry)
    ensures out == To(Unexpired(all, expiry), address) && entries[..n] == NotTo(Unexpired(all, expiry), address)
    ensures Ordered(entries[..n], latest) && n <= |all|
  {
    assert Opened(true);
    if n < |entries| { assert entries[n] == entries[n..][0] == all[m]; }
    EarlyExitIsFullFilter(all, expiry, m);
    FilterKeepsOrder(all[..m], address);
    FilterMembers(all[..m], expiry, address);
    var kept := entries[..n];
    forall i | 0 <= i < |kept| ensures kept[i].timestamp <= latest {
      assert kept[i] in kept && kept[i] in all[..m];
    }
  }

  lemma MatchTakenMeans(entries: seq<Entry>, address: Address, result: Option<Entry>, left: seq<Entry>)
    requires MatchTaken(entries, address, result, left)
    ensures var k := FirstTo(entries, address);
            if k < |entries| then result == Some(entries[k]) && left == Taken(entries, k)
            else result == None && left == entries
  {
    assert Opened(true);
  }

  /** Every entry is kept, handed out, or closed, and that once. */
  lemma NothingIsLostByObtain(entries: seq<Entry>, expiry: int, address: Address, result: Option<Entry>,
                              left: seq<Entry>)
    requires MatchTaken(Unexpired(entries, expiry), address, result, left)
    ensures multiset(entries) == multiset(left) + multiset(Expired(entries, expiry))
            + (if result.Some? then multiset{result.value} else multiset{})
  {
    var young := Unexpired(entries, expiry);
    MatchTakenMeans(young, address, result, left);
    SplitByAge(entries, expiry);
    if result.Some? { TakenCounts(young, FirstTo(young, address)); }
  }

  lemma TakenCounts(entries: seq<Entry>, k: nat)
    requires k < |entries|
    ensures multiset(entries) == multiset(Taken(entries, k)) + multiset{entries[k]}
  {
    assert entries == entries[..k] + [entries[k]] + entries[k + 1..];
  }

  lemma NothingIsLostByInvalidation(entries: seq<Entry>, expiry: int, address: Address)
    ensures var young := Unexpired(entries, expiry);
            multiset(entries) == multiset(NotTo(young, address)) + multiset(To(young, address))
                + multiset(Expired(entries, expiry))
  {
    SplitByAge(entries, expiry);
    SplitByAddress(Unexpired(entries, expiry), address);
  }

  lemma TakenKeepsOrder(entries: seq<Entry>, latest: int, k: nat)
    requires Ordered(entries, latest) && k < |entries|
    ensures Ordered(Taken(entries, k), latest)
  {
    assert Opened(true);
  }

  /** The first `n` entries are unexpired and for other addresses. */
  ghost predicate Scanned(entries: seq<Entry>, expiry: int, address: Address, n: int) {
    forall key {:trigger Opened(key)} :: Opened(key) ==>
      forall i :: 0 <= i < n && i < |entries| ==> entries[i].timestamp > expiry && entries[i].client.address != address
  }

  lemma TakenAt(entries: seq<Entry>, n: nat)
    requires n < |entries|
    ensures Taken(entries, n)[..n] == entries[..n] && Taken(entries, n)[n..] == entries[n + 1..]
  {
  }

  /** Taking an item out and cutting what is left, or cutting first. */
  lemma CutTaken(all: seq<Entry>, k: nat, n: nat)
    requires k < n <= |all|
    ensures Taken(all, k)[..n - 1] == Taken(all[..n], k) && Taken(all, k)[n - 1..] == all[n..]
  {
  }

  /** The scan that found a match, and the one that went on from there to the first expired entry. */
  lemma ScanFound(all: seq<Entry>, latest: int, expiry: int, address: Address, k: nat, next: nat)
    requires Ordered(all, latest) && Scanned(all, expiry, address, k) && k <= next < |all|
    requires all[k].timestamp > expiry && all[k].client.address == address && YoungUntil(Taken(all, k), k, next, expiry)
    ensures Expired(all, expiry) == Taken(all, k)[next..]
    ensures MatchTaken(Unexpired(all, expiry), address, Some(all[k]), Taken(all, k)[..next])
  {
    ScannedOn(all, expiry, address, k, next);
    OrderedFilter(all, latest, expiry, next + 1);
    MatchIsTaken(all, expiry, address, k, next + 1);
  }

  /** From `k` on, the entries up to `n` are unexpired, and the next one, if any, is expired. */
  ghost predicate YoungUntil(entries: seq<Entry>, k: int, n: int, expiry: int) {
    forall key {:trigger Opened(key)} :: Opened(key) ==>
      && (forall i :: k <= i < n && 0 <= i < |entries| ==> entries[i].timestamp > expiry)
      && (0 <= n < |entries| ==> entries[n].timestamp <= expiry)
  }

  lemma ScannedOn(all: seq<Entry>, expiry: int, address: Address, k: nat, next: nat)
    requires Scanned(all, expiry, address, k) && k <= next < |all| && all[k].timestamp > expiry
    requires YoungUntil(Taken(all, k), k, next, expiry)
    ensures YoungUntil(all, 0, next + 1, expiry)
  {
    assert Opened(true);
    forall i | 0 <= i < next + 1 ensures all[i].timestamp > expiry {
      if i > k { assert Taken(all, k)[i - 1] == all[i]; }
    }
    if next + 1 < |all| { assert Taken(all, k)[next] == all[next + 1]; }
  }

  lemma OrderedFilter(entries: seq<Entry>, latest: int, expiry: int, n: int)
    requires Ordered(entries, latest) && 0 <= n <= |entries|
    requires YoungUntil(entries, 0, n, expiry)
    ensures Unexpired(entries, expiry) == entries[..n] && Expired(entries, expiry) == entries[n..]
  {
    assert Opened(true);
    EarlyExitIsFullFilter(entries, expiry, n);
  }

  lemma MatchIsTaken(entries: seq<Entry>, expiry: int, address: Address, k: nat, n: nat)
    requires k < n <= |entries| && entries[k].client.address == address && Scanned(entries, expiry, address, k)
    ensures MatchTaken(entries[..n], address, Some(entries[k]), Taken(entries, k)[..n - 1])
    ensures Taken(entries, k)[n - 1..] == entries[n..]
  {
    CutTaken(entries, k, n);
    ScannedPrefix(entries, expiry, address, k, n);
    FirstToIs(entries[..n], address, k);
  }

  lemma ScannedPrefix(entries: seq<Entry>, expiry: int, address: Address, k: nat, n: nat)
    requires k < n <= |entries| && Scanned(entries, expiry, address, k)
    ensures forall i :: 0 <= i < k ==> entries[..n][i].client.address != address
  {
    assert Opened(true);
  }

  lemma ScanMissed(all: seq<Entry>, latest: int, expiry: int, address: Address, k: nat)
    requires Ordered(all, latest) && Scanned(all, expiry, address, k) && k <= |all|
    requires k < |all| ==> all[k].timestamp <= expiry
    ensures Expired(all, expiry) == all[k..]
    ensures MatchTaken(Unexpired(all, expiry), address, None, all[..k])
  {
    assert Opened(true);
    EarlyExitIsFullFilter(all, expiry, k);
    FirstToIs(all[..k], address, k);
  }
}
