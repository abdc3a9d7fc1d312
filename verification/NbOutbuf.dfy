/** A non-blocking output buffer between a writer and a sink. */
module NbOutbufs {
  import opened Bytes
  import opened OutbufRuns
  import opened Tickets
  import opened Wrappers

  /** The member functions that the buffer hands to its scheduler. */
  datatype Handler = SinkWritable | AlreadyWritable | NextTick

  lemma SentAndLeft(delivered: seq<Byte>, unsent: seq<Byte>, n: nat, accepted: seq<Byte>)
    requires n <= |unsent| && delivered + unsent == accepted
    ensures delivered + unsent[..n] <= accepted && (delivered + unsent[..n]) + unsent[n..] == accepted
  {
    assert unsent == unsent[..n] + unsent[n..];
  }

  class NbOutbuf {
    var checker: bool
    var writableTicket: Option<Ticket>
    var alarmTicket: Option<Ticket>
    var hasScheduler: bool
    var callback: Option<Callback>
    const buf: array<Byte>
    var rp: nat
    var wp: nat
    var limit: nat
    var errorStatus: int

    // the scheduler, as far as it concerns this buffer
    var pending: map<Ticket, Handler>
    var issued: nat

    ghost var accepted: seq<Byte>  // what put and write stored in the buffer
    ghost var delivered: seq<Byte> // what the sink took

    ghost predicate PointersOk()
      reads this
    {
      && 0 < buf.Length
      && rp <= wp <= limit <= buf.Length
      && (if wp != limit then rp == 0 && limit == buf.Length else rp < wp)
      && (errorStatus != 0 ==> rp == wp == 0)
    }

    ghost predicate BytesOk()
      reads this, buf
      requires rp <= wp <= buf.Length
    {
      && delivered <= accepted
      && (errorStatus == 0 ==> delivered + buf[rp..wp] == accepted)
    }

    /** What the scheduler should hold for this buffer. */
    function Held(): map<Ticket, Handler>
      reads this
    {
      Holding(writableTicket, SinkWritable, alarmTicket, if writableTicket.Some? then NextTick else AlreadyWritable)
    }

    ghost predicate ReferencesOk()
      reads this
    {
      && Apart(writableTicket, alarmTicket, issued)
      && (callback.Some? <==> writableTicket.Some? || alarmTicket.Some?)
      && (hasScheduler <==> callback.Some?)
      && (writableTicket.Some? ==> wp == limit && errorStatus == 0 && (alarmTicket.Some? <==> checker))
    }

    ghost predicate Valid()
      reads this, buf
    {
      PointersOk() && BytesOk() && ReferencesOk() && pending == Held()
    }

    /** The buffer as its users and the scheduler see it. */
    ghost function State(): View
      requires rp <= wp <= limit <= buf.Length
      reads this, buf
    {
      View(buf.Length, checker, writableTicket, alarmTicket, callback, issued,
           buf[rp..wp], limit - wp, errorStatus, accepted, delivered)
    }

    lemma StateIsSound()
      requires Valid()
      ensures State().Sound()
    {
    }

    constructor (bufsize: nat)
      requires bufsize != 0
      ensures Valid() && fresh(buf) && wp == 0 && limit == bufsize && errorStatus == 0 && accepted == delivered == []
              && callback == None
    {
      checker, writableTicket, alarmTicket, hasScheduler, callback := false, None, None, false, None;
      buf := new Byte[bufsize];
      rp, wp, limit, errorStatus := 0, 0, bufsize, 0;
      pending, issued, accepted, delivered := map[], 0, [], [];
    }

    predicate Writable()
      reads this
    {
      wp != limit
    }

    method Put(c: Byte)
      requires Valid() && Writable()
      modifies this`wp, this`accepted, buf
      ensures Valid() && accepted == if errorStatus == 0 then old(accepted) + [c] else old(accepted)
      ensures State() == Stored(old(State()), [c])
    {
      if errorStatus == 0 {
        ghost var before := buf[rp..wp];
        buf[wp] := c;
        wp := wp + 1;
        accepted := accepted + [c];
        assert buf[rp..wp] == before + [c];
      }
    }

    /** Stores as many bytes as fit; after an error, all of them are dropped. */
    method Write(bytes: seq<Byte>) returns (count: nat)
      requires Valid() && Writable()
      modifies this`wp, this`accepted, buf
      ensures Valid() && count <= |bytes| && (bytes != [] ==> count > 0)
      ensures count < |bytes| ==> !Writable() && errorStatus == 0
      ensures accepted == if errorStatus == 0 then old(accepted) + bytes[..count] else old(accepted)
      ensures count == Fitting(old(State()), bytes) && State() == Stored(old(State()), bytes[..count])
    {
      count := |bytes|;
      if errorStatus == 0 {
        var available := limit - wp;
        if count > available {
          count := available;
        }
        CopyIn(bytes[..count]);
      }
    }

    method CopyIn(bytes: seq<Byte>)
      requires Valid() && Writable() && errorStatus == 0 && |bytes| <= limit - wp
      modifies this`wp, this`accepted, buf
      ensures Valid() && accepted == old(accepted) + bytes && State() == Stored(old(State()), bytes)
    {
      ghost var before := buf[rp..wp];
      forall i | 0 <= i < |bytes| {
        buf[wp + i] := bytes[i];
      }
      wp := wp + |bytes|;
      accepted := accepted + bytes;
      assert buf[rp..wp] == before + bytes;
      assert delivered + (before + bytes) == (delivered + before) + bytes;
    }

    method StartFlush()
      requires Valid()
      modifies this`limit
      ensures Valid() && (Writable() <==> old(rp == wp)) && State() == Flushed(old(State()))
      ensures Writable() && errorStatus == 0 ==> delivered == accepted
    {
      if rp != wp {
        limit := wp;
      }
    }

    /** Registers a callback with the scheduler. */
    method Register(handler: Handler) returns (ticket: Ticket)
      modifies this`pending, this`issued
      ensures ticket == old(issued) && issued == old(issued) + 1 && pending == old(pending)[ticket := handler]
    {
      ticket := issued;
      issued := issued + 1;
      pending := pending[ticket := handler];
    }

    method EnableThroughputChecking()
      requires Valid()
      modifies this`checker, this`alarmTicket, this`pending, this`issued
      ensures Valid() && checker && State() == Enabled(old(State()))
    {
      DisableThroughputChecking();
      checker := true;
      if writableTicket.Some? {
        assert alarmTicket == None && hasScheduler;
        var ticket := Register(NextTick);
        alarmTicket := Some(ticket);
      }
    }

    method DisableThroughputChecking()
      requires Valid()
      modifies this`checker, this`alarmTicket, this`pending
      ensures Valid() && !checker && State() == Disabled(old(State()))
    {
      checker := false;
      if writableTicket.Some? && alarmTicket.Some? {
        assert hasScheduler;
        pending := pending - {alarmTicket.value};
        alarmTicket := None;
      }
    }

    method CancelWhenWritable()
      requires Valid()
      modifies this`writableTicket, this`alarmTicket, this`hasScheduler, this`callback, this`pending
      ensures Valid() && callback == None && pending == map[] && State() == Cancelled(old(State()))
    {
      if writableTicket.Some? {
        assert hasScheduler;
        pending := pending - {writableTicket.value};
        writableTicket := None;
      }
      if alarmTicket.Some? {
        assert hasScheduler;
        pending := pending - {alarmTicket.value};
        alarmTicket := None;
      }
      hasScheduler := false;
      callback := None;
      assert buf[rp..wp] == old(buf[rp..wp]);
    }

    method CallWhenWritable(cb: Callback)
      requires Valid()
      modifies this`writableTicket, this`alarmTicket, this`hasScheduler, this`callback, this`pending, this`issued
      ensures Valid() && callback == Some(cb) && (writableTicket.Some? <==> !Writable())
      ensures State() == Called(old(State()), cb)
    {
      CancelWhenWritable();
      Await(cb);
    }

    method Await(cb: Callback)
      requires Valid() && callback == None
      modifies this`writableTicket, this`alarmTicket, this`hasScheduler, this`callback, this`pending, this`issued
      ensures Valid() && callback == Some(cb) && (writableTicket.Some? <==> !Writable())
      ensures State() == Called(old(State()), cb)
    {
      if Writable() {
        var ticket := Register(AlreadyWritable);
        alarmTicket := Some(ticket);
      } else {
        RegisterForSink();
      }
      hasScheduler := true;
      callback := Some(cb);
      assert buf[rp..wp] == old(buf[rp..wp]);
    }

    method RegisterForSink()
      requires writableTicket == None && alarmTicket == None && pending == map[]
      modifies this`writableTicket, this`alarmTicket, this`pending, this`issued
      ensures writableTicket == Some(old(issued)) && alarmTicket == (if checker then Some(old(issued) + 1) else None)
      ensures issued == old(issued) + 1 + AsNat(checker)
      ensures pending == Holding(writableTicket, SinkWritable, alarmTicket, NextTick)
    {
      var ticket := Register(SinkWritable);
      if checker {
        var alarm := Register(NextTick);
        alarmTicket := Some(alarm);
      }
      writableTicket := Some(ticket);
    }

    /** The buffer is empty again, or gave up; the callback is handed back for its invocation. */
    method EnterWritableState() returns (cb: Callback)
      requires 0 < buf.Length && rp <= wp <= limit <= buf.Length && callback.Some? && writableTicket == None
               && alarmTicket == None && pending == map[]
      requires delivered <= accepted && (errorStatus == 0 ==> delivered == accepted)
      modifies this`rp, this`wp, this`limit, this`hasScheduler, this`callback
      ensures Valid() && Writable() && wp == 0 && callback == None && Some(cb) == old(callback)
      ensures State() == old(State().(unsent := [], room := buf.Length, callback := None))
    {
      rp := 0;
      wp := 0;
      limit := buf.Length;
      hasScheduler := false;
      cb := callback.value;
      callback := None;
    }

    method OnAlreadyWritable() returns (cb: Callback)
      requires PointersOk() && BytesOk() && ReferencesOk() && pending == map[]
      requires alarmTicket.Some? && writableTicket == None
      modifies this`alarmTicket, this`hasScheduler, this`callback
      ensures Valid() && callback == None && Some(cb) == old(callback) && State() == Cancelled(old(State()))
    {
      assert callback.Some?;
      alarmTicket := None;
      hasScheduler := false;
      cb := callback.value;
      callback := None;
    }

    /** One write to the sink, and the checker's verdict on it. */
    method PassToSink(result: SinkResult, throughput: int)
      requires Between() && rp < wp && errorStatus == 0
      modifies this`rp, this`errorStatus, this`delivered
      ensures Between()
      ensures errorStatus == if result.status == 0 && checker then throughput else result.status
      ensures errorStatus != 0 ==> rp == wp
      ensures delivered == old(delivered + State().unsent[..Sent(result, wp - rp)])
      ensures State().unsent == if errorStatus == 0 then old(State().unsent[Sent(result, wp - rp)..]) else []
      ensures State() == old(State()).(status := errorStatus, delivered := delivered, unsent := State().unsent)
    {
      var next := Taken(result, wp - rp);
      errorStatus := result.status;
      ghost var unsent, n := buf[rp..wp], Sent(result, wp - rp);
      SentAndLeft(delivered, unsent, n, accepted);
      delivered := delivered + unsent[..n];
      if errorStatus == 0 && checker {
        errorStatus := throughput;
      }

      if errorStatus != 0 {
        rp := wp;
      } else if next.Some? {
        rp := rp + next.value;
      }
      assert errorStatus == 0 ==> buf[rp..wp] == unsent[n..];
    }

    /** The sink can take more; the callback is invoked once it has taken everything, or failed. */
    method OnSinkWritable(result: SinkResult, throughput: int) returns (fired: Option<Callback>)
      requires PointersOk() && BytesOk() && ReferencesOk() && writableTicket.Some?
               && pending == Held() - {writableTicket.value}
      modifies this
      ensures Valid() && accepted == old(accepted)
      ensures State() == SinkReady(old(State()), result, throughput)
      ensures fired == if errorStatus == 0 && !Writable() then None else old(callback)
      ensures if fired == None then callback == old(callback) && rp < wp && writableTicket.Some?
              else callback == None && Writable() && wp == 0
    {
      ghost var v := State();
      ForgetTicket();
      ghost var w := State();
      PassToSink(result, throughput);
      SinkReadyInSteps(v, w, State(), result, throughput);

      if rp != wp {
        // more to write: reschedule
        WaitForMore();
        fired := None;
        return;
      }

      var cb := StopWaiting();
      fired := Some(cb);
    }

    /** What the sink's callback has in common, whether it goes on waiting or not: it no longer waits for the sink. */
    ghost predicate Between()
      reads this, buf
    {
      && 0 < buf.Length && rp <= wp == limit <= buf.Length && BytesOk()
      && writableTicket == None && Apart(None, alarmTicket, issued)
         && pending == Holding(None, SinkWritable, alarmTicket, NextTick)
      && callback.Some? && hasScheduler && (alarmTicket.Some? <==> checker)
    }

    method ForgetTicket()
      requires PointersOk() && BytesOk() && ReferencesOk() && writableTicket.Some?
               && pending == Held() - {writableTicket.value}
      modifies this`writableTicket
      ensures Between() && rp < wp && errorStatus == 0 && State() == old(State()).(io := None)
    {
      assert !Writable() && rp < wp;
      assert hasScheduler && callback.Some? && errorStatus == 0;
      WithoutIo(writableTicket.value, SinkWritable, alarmTicket, NextTick, issued);
      writableTicket := None;
    }

    method WaitForMore()
      requires Between() && rp < wp && errorStatus == 0
      modifies this`writableTicket, this`pending, this`issued
      ensures Valid() && State() == old(State().(io := Some(issued), issued := issued + 1))
    {
      var ticket := Register(SinkWritable);
      writableTicket := Some(ticket);
      assert buf[rp..wp] == old(buf[rp..wp]);
    }

    method StopWaiting() returns (cb: Callback)
      requires Between() && rp == wp
      modifies this
      ensures Valid() && State() == Emptied(old(State())) && Some(cb) == old(callback)
    {
      if alarmTicket.Some? {
        assert checker;
        pending := pending - {alarmTicket.value};
        alarmTicket := None;
      }
      cb := EnterWritableState();
    }

    /** The checker's alarm: the sink took nothing since the last tick. */
    method OnNextTick(throughput: int) returns (fired: Option<Callback>)
      requires PointersOk() && BytesOk() && ReferencesOk() && writableTicket.Some? && alarmTicket.Some?
      requires pending == Held() - {alarmTicket.value}
      modifies this
      ensures Valid() && State() == Ticked(old(State()), throughput)
      ensures if throughput == 0 then fired == None && callback == old(callback) && rp == old(rp) && wp == old(wp)
              && writableTicket.Some?
              else fired == old(callback) && callback == None && Writable() && wp == 0
    {
      assert !Writable() && checker;
      assert hasScheduler && callback.Some? && errorStatus == 0;

      alarmTicket := None;
      errorStatus := throughput;
      if errorStatus == 0 {
        // schedule next tick
        var ticket := Register(NextTick);
        alarmTicket := Some(ticket);
        fired := None;
        return;
      }

      pending := pending - {writableTicket.value};
      writableTicket := None;
      var cb := EnterWritableState();
      fired := Some(cb);
    }

    /** The scheduler fires one of the callbacks it holds, and no longer holds it. */
    method Fire(ticket: Ticket, result: SinkResult, throughput: int) returns (fired: Option<Callback>)
      requires Valid() && ticket in pending
      modifies this
      ensures Valid() && State() == After(old(State()), ticket, result, throughput)
      ensures old(errorStatus) != 0 ==> errorStatus == old(errorStatus) && delivered == old(delivered)
      ensures if fired.Some? then fired == old(callback) && callback == None else callback == old(callback)
      ensures fired.Some? ==> (Writable() <==> old(Writable() || pending[ticket] != AlreadyWritable))
      ensures fired.Some? && old(writableTicket.Some?) ==> wp == 0
      ensures errorStatus != 0 ==> Writable()
      ensures fired == None ==> old(writableTicket.Some?) && writableTicket.Some?
    {
      var handler := pending[ticket];
      pending := pending - {ticket};
      match handler
      case SinkWritable => fired := OnSinkWritable(result, throughput);
      case NextTick => fired := OnNextTick(throughput);
      case AlreadyWritable =>
        var cb := OnAlreadyWritable();
        fired := Some(cb);
    }

    method FireIfHeld(ticket: Ticket, result: SinkResult, throughput: int) returns (fired: Option<Callback>)
      requires Valid()
      modifies this
      ensures var step := Step.Fire(ticket, result, throughput);
              Valid() && State() == Next(old(State()), step) && fired == Answered(old(State()), step).fired
    {
      StateIsSound();
      fired := None;
      if ticket in pending {
        fired := Fire(ticket, result, throughput);
      }
    }

    /** One step of a user or of the scheduler; a step that is not allowed at this point is left out. */
    method Perform(step: Step) returns (answer: Answer)
      requires Valid()
      modifies this, buf
      ensures Valid() && State() == Next(old(State()), step) && answer == Answered(old(State()), step)
    {
      answer := Answer(None, 0);
      match step
      case Put(c) =>
        if Writable() {
          Put(c);
          answer := Answer(None, 1);
        }
      case Write(bytes) =>
        if Writable() {
          var count := Write(bytes);
          answer := Answer(None, count);
        }
      case Flush => StartFlush();
      case Enable => EnableThroughputChecking();
      case Disable => DisableThroughputChecking();
      case Call(cb) => CallWhenWritable(cb);
      case Cancel => CancelWhenWritable();
      case Fire(ticket, result, throughput) =>
        var fired := FireIfHeld(ticket, result, throughput);
        answer := Answer(fired, 0);
    }
  }

  /**
   Any run of a buffer is a run of its specification: so nothing that the writer was told has been taken gets lost or
   reordered on its way to the sink, and every callback that was asked for is invoked once, unless the user makes the
   buffer forget it, or it still waits.
   */
  method Play(buf: NbOutbuf, script: seq<Step>) returns (answers: seq<Answer>)
    requires buf.Valid()
    modifies buf, buf.buf
    ensures buf.Valid() && buf.State() == Final(old(buf.State()), script)
            && answers == Answers(old(buf.State()), script)
    ensures old(buf.callback) == None ==>
              Balanced(Requested(script), Invoked(answers), Forgotten(old(buf.State()), script), buf.callback)
    ensures |buf.delivered| == old(|buf.delivered|) + TookInRun(old(buf.State()), script)
    ensures old(buf.errorStatus) == 0 ==> Conveys(buf.State(), old(buf.accepted) + Written(script, answers))
  {
    buf.StateIsSound();
    ghost var before := buf.State();
    answers := [];
    var i := 0;
    assert script[..0] == [];
    while i < |script|
      invariant 0 <= i <= |script| && buf.Valid()
      invariant buf.State() == Final(before, script[..i]) && answers == Answers(before, script[..i])
    {
      OneMore(before, script, i);
      var answer := buf.Perform(script[i]);
      answers := answers + [answer];
      i := i + 1;
    }
    assert script[..i] == script;
    RunIsFaithful(before, script);
  }

  lemma RunIsFaithful(v: View, script: seq<Step>)
    requires v.Sound()
    ensures v.callback == None ==>
              Balanced(Requested(script), Invoked(Answers(v, script)), Forgotten(v, script), Final(v, script).callback)
    ensures |Final(v, script).delivered| == |v.delivered| + TookInRun(v, script)
    ensures v.status == 0 ==> Conveys(Final(v, script), v.accepted + Written(script, Answers(v, script)))
  {
    DeliveredIsTaken(v, script);
    if v.callback == None { CallbacksBalance(v, script); }
    if v.status == 0 { NothingGetsLost(v, script); }
  }

  /** Waits until everything that was written before has left the buffer. */
  class Flusher {
    const buf: NbOutbuf
    const self: Callback
    var submitted: bool

    constructor (buf: NbOutbuf, self: Callback)
      ensures this.buf == buf && this.self == self && !submitted
    {
      this.buf, this.self, submitted := buf, self, false;
    }

    /**
     Either done, and then everything was delivered unless there was an error; or waiting for a full buffer to drain.
     */
    ghost predicate Ok()
      reads this, buf, buf.buf
    {
      && buf.Valid()
      && (submitted ==> buf.Writable() && (buf.errorStatus == 0 ==> buf.delivered == buf.accepted))
      && (!submitted ==> buf.callback == Some(self) && buf.writableTicket.Some?)
    }

    method Start()
      requires buf.Valid()
      modifies this, buf
      ensures Ok() && buf.accepted == old(buf.accepted) && buf.errorStatus == old(buf.errorStatus)
      ensures submitted <==> old(buf.rp == buf.wp)
    {
      buf.StartFlush();
      CheckFlushed();
    }

    method CheckFlushed()
      requires buf.Valid() && (buf.Writable() && buf.errorStatus == 0 ==> buf.delivered == buf.accepted)
      modifies this`submitted, buf
      ensures Ok() && buf.accepted == old(buf.accepted) && buf.errorStatus == old(buf.errorStatus)
      ensures submitted <==> old(buf.Writable())
      ensures buf.rp == old(buf.rp) && buf.wp == old(buf.wp) && buf.delivered == old(buf.delivered)
    {
      if !buf.Writable() {
        buf.CallWhenWritable(self);
        submitted := false;
        return;
      }
      submitted := true;
    }

    /** The scheduler fires one of the callbacks of the buffer. */
    method OnEvent(ticket: Ticket, result: SinkResult, throughput: int)
      requires Ok() && !submitted && ticket in buf.pending
      modifies this, buf
      ensures Ok() && buf.accepted == old(buf.accepted)
      ensures submitted ==> buf.errorStatus != 0 || buf.delivered == old(buf.accepted)
    {
      var fired := buf.Fire(ticket, result, throughput);
      if fired.Some? {
        CheckFlushed();
      }
    }
  }
}
