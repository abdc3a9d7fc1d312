/** A fixed-capacity FIFO of bytes in one array; both the data and the slack may wrap around its end. */
module CircularBuffers {
  import opened Bytes

  /** The bytes between two positions of a ring, which is everything if the positions are the same. */
  function Around(bytes: seq<Byte>, from: int, to: int): seq<Byte>
    requires 0 <= from <= |bytes| && 0 <= to <= |bytes|
  {
    if from < to then bytes[from..to] else bytes[from..] + bytes[..to]
  }

  /** A position one past the end is the same as the first. */
  function Wrapped(position: int, capacity: int): int {
    if position != capacity then position else 0
  }

  /** Extending the data by a contiguous block of slack appends exactly that block, also when it ends at the end. */
  lemma AroundExtends(bytes: seq<Byte>, from: int, to: int, until: int)
    requires 0 <= from < |bytes| && 0 <= to < |bytes| && from != to && to < until
    requires until <= (if to > from then |bytes| else from)
    ensures Around(bytes, from, Wrapped(until, |bytes|)) == Around(bytes, from, to) + bytes[to..until]
  {
    if from < to && until == |bytes| {
      assert bytes[from..] == bytes[from..to] + bytes[to..until];
    }
  }

  /** Dropping a contiguous block from the front of the data, short of all of it. */
  lemma AroundShrinks(bytes: seq<Byte>, from: int, to: int, until: int)
    requires 0 <= from < |bytes| && 0 <= to < |bytes| && from < until
    requires until <= (if from < to then to else |bytes|) && Wrapped(until, |bytes|) != to
    ensures Around(bytes, Wrapped(until, |bytes|), to) == Around(bytes, from, to)[until - from..]
  {
  }

  /** Bytes stored in the first block of slack do not show in the data. */
  lemma SlackIsNotData(before: seq<Byte>, after: seq<Byte>, from: int, to: int, until: int)
    requires 0 <= from < |before| == |after| && 0 <= to < |before|
    requires to <= until <= (if to > from then |before| else from)
    requires forall i :: 0 <= i < |before| && !(to <= i < until) ==> after[i] == before[i]
    ensures Around(after, from, to) == Around(before, from, to)
  {
  }

  lemma BlockMoves<T>(before: seq<T>, all: seq<T>, n: nat)
    requires n <= |all|
    ensures (before + all[..n]) + all[n..] == before + all
  {
  }

  class CircularBuffer {
    var empty: bool
    var buf: array<Byte>
    var data: nat
    var slack: nat

    ghost predicate Valid()
      reads this
    {
      if empty then data == slack == 0 else data < buf.Length && slack < buf.Length
    }

    /** The data, oldest byte first. */
    ghost function Contents(): (s: seq<Byte>)
      reads this, buf
      requires Valid()
    {
      if empty then [] else Around(buf[..], data, slack)
    }

    constructor (capacity: nat)
      ensures Valid() && fresh(buf) && Capacity() == capacity && Contents() == []
    {
      empty, data, slack := true, 0, 0;
      buf := new Byte[capacity];
    }

    /** Copies the data of another buffer; the new one has its data in one piece. */
    constructor Copy(rhs: CircularBuffer)
      requires rhs.Valid()
      ensures Valid() && fresh(buf) && Capacity() == rhs.Capacity() && Contents() == rhs.Contents()
      ensures data == 0
    {
      empty, data, slack := true, 0, 0;
      buf := new Byte[rhs.buf.Length];
      new;
      if rhs.HasData() {
        if rhs.data < rhs.slack {
          var until := CopyIn(rhs.buf[rhs.data..rhs.slack]);
          PushBack(until);
        } else {
          var until := CopyIn(rhs.buf[rhs.data..]);
          PushBack(until);
          until := CopyIn(rhs.buf[..rhs.slack]);
          PushBack(until);
        }
      }
    }

    function Capacity(): nat
      reads this
    {
      buf.Length
    }

    function TotalSlackSize(): (n: int)
      requires Valid()
      reads this, buf
      ensures n == Capacity() - |Contents()|
    {
      if empty then buf.Length
      else if slack <= data then data - slack
      else (buf.Length - slack) + data
    }

    function TotalDataSize(): (n: int)
      requires Valid()
      reads this, buf
      ensures n == |Contents()|
    {
      if empty then 0
      else if data < slack then slack - data
      else (buf.Length - data) + slack
    }

    predicate HasSlack()
      requires Valid()
      reads this, buf
      ensures HasSlack() <==> |Contents()| < Capacity()
    {
      if empty then buf.Length != 0 else slack != data
    }

    /** The end of the first contiguous block of slack, which starts at `slack`. */
    function EndSlack(): (end: nat)
      requires Valid()
      reads this, buf
      ensures slack <= end <= Capacity()
      ensures slack < end <==> HasSlack()
      ensures data == 0 ==> end - slack == Capacity() - |Contents()|
    {
      if empty || slack > data then buf.Length else data
    }

    /** Moves the slack up to `until` to the end of the data. */
    method PushBack(until: nat)
      requires Valid() && slack <= until <= EndSlack()
      modifies this`empty, this`slack
      ensures Valid() && Contents() == old(Contents()) + old(buf[slack..until])
      ensures slack == (if until != old(slack) then Wrapped(until, buf.Length) else old(slack))
    {
      if until != slack {
        if !empty { AroundExtends(buf[..], data, slack, until); }
        empty := false;
        slack := Wrapped(until, buf.Length);
      }
    }

    predicate HasData()
      requires Valid()
      reads this, buf
      ensures HasData() <==> Contents() != []
    {
      !empty
    }

    /** The end of the first contiguous block of data, which starts at `data`. */
    function EndData(): (end: nat)
      requires Valid()
      reads this, buf
      ensures data <= end <= Capacity()
      ensures data < end <==> HasData()
      ensures end - data <= |Contents()| && buf[data..end] == Contents()[..end - data]
    {
      if empty || data < slack then slack else buf.Length
    }

    /** Drops the data up to `until`, and starts all over when nothing is left. */
    method PopFront(until: nat)
      requires Valid() && data <= until <= EndData()
      modifies this`empty, this`data, this`slack
      ensures Valid() && Contents() == old(Contents())[until - old(data)..]
      ensures !HasData() ==> EndSlack() == Capacity()
      ensures HasData() && until == old(EndData()) != old(data) ==> data == 0 < slack && old(data > 0)
    {
      if until != data {
        if Wrapped(until, buf.Length) != slack { AroundShrinks(buf[..], data, slack, until); }
        data := Wrapped(until, buf.Length);
        if data == slack {
          empty := true;
          data := 0;
          slack := 0;
        }
      }
    }

    /** Stores bytes at the start of the slack, which does not yet make them data. */
    method CopyIn(bytes: seq<Byte>) returns (until: nat)
      requires Valid() && |bytes| <= EndSlack() - slack
      modifies buf
      ensures until == slack + |bytes| && buf[slack..until] == bytes && Contents() == old(Contents())
    {
      forall i | 0 <= i < |bytes| {
        buf[slack + i] := bytes[i];
      }
      until := slack + |bytes|;
      if !empty { SlackIsNotData(old(buf[..]), buf[..], data, slack, until); }
    }

    /** Moves the first block of another buffer's data to the end of this one's. */
    method TakeFirstBlockOf(from: CircularBuffer)
      requires Valid() && data == 0 && from.Valid() && from.HasData() && from != this && from.buf != buf
      requires |Contents()| + |from.Contents()| <= Capacity()
      modifies this`empty, this`slack, buf, from`empty, from`data, from`slack
      ensures Valid() && from.Valid() && data == 0
      ensures buf == old(buf) && from.buf == old(from.buf)
      ensures Contents() + from.Contents() == old(Contents() + from.Contents())
      ensures |from.Contents()| < old(|from.Contents()|)
      ensures from.HasData() ==> from.data == 0 < from.slack && old(from.data > 0)
    {
      var end := from.EndData();
      ghost var block, before, all := end - from.data, Contents(), from.Contents();
      BlockMoves(before, all, block);
      var until := CopyIn(from.buf[from.data..end]);
      PushBack(until);
      from.PopFront(end);
    }

    /** Changes the capacity, unless the data would not fit. */
    method Reserve(capacity: nat) returns (ghost passes: nat)
      requires Valid()
      modifies this
      ensures Valid() && Contents() == old(Contents())
      ensures Capacity() == if capacity >= |Contents()| then capacity else old(Capacity())
      ensures passes <= 2
    {
      passes := 0;
      if capacity >= TotalDataSize() {
        var tmp := new CircularBuffer(capacity);
        while HasData()
          invariant Valid() && tmp.Valid() && fresh(tmp) && fresh(tmp.buf) && buf == old(buf)
          invariant tmp.Capacity() == capacity && tmp.data == 0 && tmp.Contents() + Contents() == old(Contents())
          invariant passes <= 2
          invariant passes > 0 && HasData() ==> passes == 1 && data == 0 < slack
          decreases TotalDataSize()
        {
          tmp.TakeFirstBlockOf(this);
          passes := passes + 1;
        }
        empty, buf, data, slack := tmp.empty, tmp.buf, tmp.data, tmp.slack;
      }
    }
  }
}
