/** A non-blocking input buffer between a source and a reader. */
module NbInbufs {
  import opened Bytes
  import opened InbufRuns
  import opened Tickets
  import opened Wrappers

  /** The member functions that the buffer hands to its scheduler. */
  datatype Handler = SourceReadable | AlreadyReadable | NextTick

  lemma TakenAndLeft(consumed: seq<Byte>, unread: seq<Byte>, n: nat, obtained: seq<Byte>)
    requires n <= |unread| && consumed + unread == obtained
    ensures (consumed + unread[..n]) + unread[n..] == obtained
  {
    assert unread == unread[..n] + unread[n..];
  }

  class NbInbuf {
    var checker: bool
    var readableTicket: Option<Ticket>
    var alarmTicket: Option<Ticket>
    var hasScheduler: bool
    var callback: Option<Callback>
    const buf: array<Byte>
    var rp: nat
    var ep: nat
    var atEof: bool
    var errorStatus: int

    // the scheduler, as far as it concerns this buffer
    var pending: map<Ticket, Handler>
    var issued: nat

    ghost var obtained: seq<Byte> // what came from the source, without a chunk that the checker rejected
    ghost var consumed: seq<Byte> // what the reader skipped or read
    ghost var sourceReads: nat    // how often the source was asked

    ghost predicate PointersOk()
      reads this
    {
      && 0 < buf.Length
      && rp <= ep <= buf.Length
      && (atEof ==> rp == ep)
      && (errorStatus != 0 ==> atEof)
    }

    ghost predicate BytesOk()
      reads this, buf
      requires rp <= ep <= buf.Length
    {
      consumed + buf[rp..ep] == obtained
    }

    /** What the scheduler should hold for this buffer. */
    function Held(): map<Ticket, Handler>
      reads this
    {
      Holding(readableTicket, SourceReadable, alarmTicket, if readableTicket.Some? then NextTick else AlreadyReadable)
    }

    ghost predicate ReferencesOk()
      reads this
    {
      && Apart(readableTicket, alarmTicket, issued)
      && (callback.Some? <==> readableTicket.Some? || alarmTicket.Some?)
      && (hasScheduler <==> callback.Some?)
      && (readableTicket.Some? ==> rp == ep && !atEof && errorStatus == 0 && (alarmTicket.Some? <==> checker))
    }

    ghost predicate Valid()
      reads this, buf
    {
      PointersOk() && BytesOk() && ReferencesOk() && pending == Held()
    }

    /** The buffer as its users and the scheduler see it. */
    ghost function State(): View
      requires rp <= ep <= buf.Length
      reads this, buf
    {
      View(buf.Length, checker, readableTicket, alarmTicket, callback, issued,
           buf[rp..ep], atEof, errorStatus, obtained, consumed, sourceReads)
    }

    lemma StateIsSound()
      requires Valid()
      ensures State().Sound()
    {
    }

    constructor (bufsize: nat)
      requires bufsize != 0
      ensures Valid() && fresh(buf) && !Readable() && errorStatus == 0 && obtained == consumed == [] && callback == None
      ensures sourceReads == 0
    {
      checker, readableTicket, alarmTicket, hasScheduler, callback := false, None, None, false, None;
      buf := new Byte[bufsize];
      rp, ep, atEof, errorStatus := 0, 0, false, 0;
      pending, issued, obtained, consumed, sourceReads := map[], 0, [], [], 0;
    }

    predicate Readable()
      reads this
    {
      rp != ep || atEof
    }

    /** The next byte of what was obtained, if it is not all consumed; otherwise the input has ended. */
    method Peek() returns (c: int)
      requires Valid() && Readable()
      ensures |consumed| <= |obtained|
      ensures c == if |consumed| < |obtained| then obtained[|consumed|] else EOF
      ensures c == EOF ==> atEof
    {
      c := if rp != ep then buf[rp] else EOF;
    }

    method Skip()
      requires Valid() && Readable()
      modifies this`rp, this`consumed
      ensures Valid()
      ensures consumed == if |old(consumed)| < |obtained| then obtained[..|old(consumed)| + 1] else obtained
      ensures State() == Consumed(old(State()), There(old(State()), 1))
    {
      if rp != ep {
        ghost var unread := buf[rp..ep];
        TakenAndLeft(consumed, unread, 1, obtained);
        consumed := consumed + [buf[rp]];
        rp := rp + 1;
        assert unread[..1] == [unread[0]] && buf[rp..ep] == unread[1..];
      }
    }

    method Read(count: nat) returns (bytes: seq<Byte>)
      requires Valid() && Readable()
      modifies this`rp, this`consumed
      ensures Valid() && consumed == old(consumed) + bytes
      ensures |bytes| == if count > |obtained| - |old(consumed)| then |obtained| - |old(consumed)| else count
      ensures bytes == [] && count > 0 ==> atEof && consumed == obtained
      ensures State() == Consumed(old(State()), There(old(State()), count))
              && bytes == old(State().unread[..There(State(), count)])
    {
      var n := count;
      var available := ep - rp;
      if n > available {
        n := available;
      }
      ghost var unread := buf[rp..ep];
      bytes := buf[rp..rp + n];
      assert bytes == unread[..n];
      TakenAndLeft(consumed, unread, n, obtained);
      consumed := consumed + bytes;
      rp := rp + n;
      assert buf[rp..ep] == unread[n..];
    }

    /** Registers a callback with the scheduler. */
    method Register(handler: Handler) returns (ticket: Ticket)
      modifies this`pending, this`issued
      ensures ticket == old(issued) && issued == old(issued) + 1 && pending == old(pending)[ticket := handler]
    {
      ticket := issued;
      issued := issued + 1;
      pending := pending[ticket := handler];
    }

    method EnableThroughputChecking()
      requires Valid()
      modifies this`checker, this`alarmTicket, this`pending, this`issued
      ensures Valid() && checker && State() == Enabled(old(State()))
    {
      DisableThroughputChecking();
      checker := true;
      if readableTicket.Some? {
        assert alarmTicket == None && hasScheduler;
        var ticket := Register(NextTick);
        alarmTicket := Some(ticket);
      }
    }

    method DisableThroughputChecking()
      requires Valid()
      modifies this`checker, this`alarmTicket, this`pending
      ensures Valid() && !checker && State() == Disabled(old(State()))
    {
      checker := false;
      if readableTicket.Some? && alarmTicket.Some? {
        assert hasScheduler;
        pending := pending - {alarmTicket.value};
        alarmTicket := None;
      }
    }

    method CancelWhenReadable()
      requires Valid()
      modifies this`readableTicket, this`alarmTicket, this`hasScheduler, this`callback, this`pending
      ensures Valid() && callback == None && pending == map[] && State() == Cancelled(old(State()))
    {
      if readableTicket.Some? {
        assert hasScheduler;
        pending := pending - {readableTicket.value};
        readableTicket := None;
      }
      if alarmTicket.Some? {
        assert hasScheduler;
        pending := pending - {alarmTicket.value};
        alarmTicket := None;
      }
      hasScheduler := false;
      callback := None;
      assert buf[rp..ep] == old(buf[rp..ep]);
    }

    method CallWhenReadable(cb: Callback)
      requires Valid()
      modifies this`readableTicket, this`alarmTicket, this`hasScheduler, this`callback, this`pending, this`issued
      ensures Valid() && callback == Some(cb) && (readableTicket.Some? <==> !Readable())
      ensures State() == Called(old(State()), cb)
    {
      CancelWhenReadable();
      Await(cb);
    }

    method Await(cb: Callback)
      requires Valid() && callback == None
      modifies this`readableTicket, this`alarmTicket, this`hasScheduler, this`callback, this`pending, this`issued
      ensures Valid() && callback == Some(cb) && (readableTicket.Some? <==> !Readable())
      ensures State() == Called(old(State()), cb)
    {
      assert Readable() == State().Readable();
      if Readable() {
        var ticket := Register(AlreadyReadable);
        alarmTicket := Some(ticket);
      } else {
        RegisterForSource();
      }
      hasScheduler := true;
      callback := Some(cb);
      assert buf[rp..ep] == old(buf[rp..ep]);
    }

    method RegisterForSource()
      requires readableTicket == None && alarmTicket == None && pending == map[]
      modifies this`readableTicket, this`alarmTicket, this`pending, this`issued
      ensures readableTicket == Some(old(issued)) && alarmTicket == (if checker then Some(old(issued) + 1) else None)
      ensures issued == old(issued) + 1 + AsNat(checker)
      ensures pending == Holding(readableTicket, SourceReadable, alarmTicket, NextTick)
    {
      var ticket := Register(SourceReadable);
      if checker {
        var alarm := Register(NextTick);
        alarmTicket := Some(alarm);
      }
      readableTicket := Some(ticket);
    }

    method OnAlreadyReadable() returns (cb: Callback)
      requires PointersOk() && BytesOk() && ReferencesOk() && pending == map[]
      requires alarmTicket.Some? && readableTicket == None
      modifies this`alarmTicket, this`hasScheduler, this`callback
      ensures Valid() && callback == None && Some(cb) == old(callback) && State() == Cancelled(old(State()))
    {
      assert callback.Some?;
      alarmTicket := None;
      hasScheduler := false;
      cb := callback.value;
      callback := None;
    }

    /** Input arrived, or ended; the callback is handed back for its invocation. */
    method EnterReadableState(next: nat) returns (cb: Callback)
      requires 0 < buf.Length && rp <= ep <= buf.Length && next <= buf.Length && (errorStatus != 0 ==> next == 0)
      requires callback.Some? && readableTicket == None && alarmTicket == None && pending == map[]
      requires consumed + buf[..next] == obtained
      modifies this`rp, this`ep, this`atEof, this`hasScheduler, this`callback
      ensures Valid() && Readable() && (atEof <==> next == 0) && callback == None && Some(cb) == old(callback)
      ensures State() == old(State().(unread := buf[..next], atEof := next == 0, callback := None))
    {
      rp := 0;
      ep := next;
      atEof := rp == ep;
      hasScheduler := false;
      cb := callback.value;
      callback := None;
    }

    /** One read from the source, and the checker's verdict on it; a chunk that comes with an error is not used. */
    method ReadSource(result: SourceResult, throughput: int) returns (next: Option<nat>)
      requires errorStatus == 0 && consumed == obtained && rp == ep <= buf.Length
      modifies this`errorStatus, this`obtained, this`sourceReads, buf
      ensures errorStatus == if result.status == 0 && checker then throughput else result.status
      ensures errorStatus != 0 ==> next == Some(0)
      ensures next == None <==> errorStatus == 0 && result.bytes == None
      ensures next.Some? ==>
              next.value <= buf.Length
              && buf[..next.value] == (if errorStatus != 0 then [] else Obtained(result, buf.Length).value)
      ensures obtained == old(obtained) + if next.Some? then buf[..next.value] else []
      ensures State() == old(State()).(status := errorStatus, obtained := obtained, sourceReads := old(sourceReads) + 1)
    {
      sourceReads := sourceReads + 1;
      errorStatus := result.status;
      var bytes := Obtained(result, buf.Length);
      if bytes.Some? {
        forall i | 0 <= i < |bytes.value| {
          buf[i] := bytes.value[i];
        }
        next := Some(|bytes.value|);
        assert buf[..|bytes.value|] == bytes.value;
      } else {
        next := None;
      }
      if errorStatus == 0 && checker {
        errorStatus := throughput;
      }
      if errorStatus != 0 {
        next := Some(0);
      }
      obtained := obtained + if next.Some? then buf[..next.value] else [];
    }

    method OnSourceReadable(result: SourceResult, throughput: int) returns (fired: Option<Callback>)
      requires PointersOk() && BytesOk() && ReferencesOk() && readableTicket.Some?
               && pending == Held() - {readableTicket.value}
      modifies this, buf
      ensures Valid() && State() == SourceReady(old(State()), result, throughput)
      ensures errorStatus == if result.status == 0 && old(checker) then throughput else result.status
      ensures fired == if errorStatus == 0 && result.bytes == None then None else old(callback)
    {
      ForgetTicket();
      var next := ReadSource(result, throughput);
      if next == None {
        // spurious wakeup: reschedule
        WaitForMore();
        fired := None;
        return;
      }

      var cb := StopWaiting(next.value);
      fired := Some(cb);
    }

    /**
     What the source's callback has in common, whether it goes on waiting or not: it no longer waits for the source.
     */
    ghost predicate Between()
      reads this
    {
      && 0 < buf.Length && rp == ep <= buf.Length && !atEof
      && readableTicket == None && Apart(None, alarmTicket, issued)
         && pending == Holding(None, SourceReadable, alarmTicket, NextTick)
      && callback.Some? && hasScheduler && (alarmTicket.Some? <==> checker)
    }

    method ForgetTicket()
      requires PointersOk() && BytesOk() && ReferencesOk() && readableTicket.Some?
               && pending == Held() - {readableTicket.value}
      modifies this`readableTicket
      ensures Between() && errorStatus == 0 && consumed == obtained && State() == old(State()).(io := None)
    {
      assert !Readable();
      assert hasScheduler && callback.Some? && errorStatus == 0;
      assert consumed == obtained by { assert buf[rp..ep] == []; }
      WithoutIo(readableTicket.value, SourceReadable, alarmTicket, NextTick, issued);
      readableTicket := None;
    }

    method WaitForMore()
      requires Between() && errorStatus == 0 && consumed == obtained
      modifies this`readableTicket, this`pending, this`issued
      ensures Valid() && State() == old(State().(io := Some(issued), issued := issued + 1))
    {
      var ticket := Register(SourceReadable);
      readableTicket := Some(ticket);
      assert buf[rp..ep] == old(buf[rp..ep]) == [];
    }

    method StopWaiting(next: nat) returns (cb: Callback)
      requires Between() && next <= buf.Length && (errorStatus != 0 ==> next == 0) && consumed + buf[..next] == obtained
      modifies this
      ensures Valid() && State() == Cancelled(old(State())).(unread := old(buf[..next]), atEof := next == 0)
              && Some(cb) == old(callback)
    {
      if alarmTicket.Some? {
        assert checker;
        pending := pending - {alarmTicket.value};
        alarmTicket := None;
      }
      assert buf[..next] == old(buf[..next]);
      cb := EnterReadableState(next);
    }

    /** The checker's alarm: nothing came in since the last tick. */
    method OnNextTick(throughput: int) returns (fired: Option<Callback>)
      requires PointersOk() && BytesOk() && ReferencesOk() && readableTicket.Some? && alarmTicket.Some?
      requires pending == Held() - {alarmTicket.value}
      modifies this
      ensures Valid() && State() == Ticked(old(State()), throughput)
      ensures if throughput == 0 then fired == None && callback == old(callback)
              && readableTicket == old(readableTicket)
              else fired == old(callback) && callback == None && atEof
    {
      assert !Readable() && checker;
      assert hasScheduler && callback.Some? && errorStatus == 0;

      alarmTicket := None;
      errorStatus := throughput;
      if errorStatus == 0 {
        // schedule next tick
        var ticket := Register(NextTick);
        alarmTicket := Some(ticket);
        fired := None;
        return;
      }

      pending := pending - {readableTicket.value};
      readableTicket := None;
      assert buf[rp..ep] == [] && buf[..0] == [];
      var cb := EnterReadableState(0);
      fired := Some(cb);
    }

    /** The scheduler fires one of the callbacks it holds, and no longer holds it. */
    method Fire(ticket: Ticket, result: SourceResult, throughput: int) returns (fired: Option<Callback>)
      requires Valid() && ticket in pending
      modifies this, buf
      ensures Valid() && State() == After(old(State()), ticket, result, throughput)
      ensures if fired.Some? then fired == old(callback) && callback == None else callback == old(callback)
      ensures fired.Some? ==> (Readable() <==> old(Readable() || pending[ticket] != AlreadyReadable))
      ensures fired == None ==> old(readableTicket.Some?) && readableTicket.Some?
    {
      var handler := pending[ticket];
      pending := pending - {ticket};
      match handler
      case SourceReadable => fired := OnSourceReadable(result, throughput);
      case NextTick => fired := OnNextTick(throughput);
      case AlreadyReadable =>
        var cb := OnAlreadyReadable();
        fired := Some(cb);
    }

    method FireIfHeld(ticket: Ticket, result: SourceResult, throughput: int) returns (fired: Option<Callback>)
      requires Valid()
      modifies this, buf
      ensures var step := Step.Fire(ticket, result, throughput);
              Valid() && State() == Next(old(State()), step) && fired == Answered(old(State()), step).fired
    {
      StateIsSound();
      fired := None;
      if ticket in pending {
        fired := Fire(ticket, result, throughput);
      }
    }

    /** One step of a user or of the scheduler; a step that is not allowed at this point is left out. */
    method Perform(step: Step) returns (answer: Answer)
      requires Valid()
      modifies this, buf
      ensures Valid() && State() == Next(old(State()), step) && answer == Answered(old(State()), step)
    {
      answer := Answer(None, []);
      match step
      case Skip =>
        if Readable() {
          var c := Peek();
          Skip();
          answer := Answer(None, if c == EOF then [] else [c]);
        }
      case Read(count) =>
        if Readable() {
          var bytes := Read(count);
          answer := Answer(None, bytes);
        }
      case Enable => EnableThroughputChecking();
      case Disable => DisableThroughputChecking();
      case Call(cb) => CallWhenReadable(cb);
      case Cancel => CancelWhenReadable();
      case Fire(ticket, result, throughput) =>
        var fired := FireIfHeld(ticket, result, throughput);
        answer := Answer(fired, []);
    }
  }

  /**
   Any run of a buffer is a run of its specification: so the reader gets what came from the source, in order; once the
   input has ended or failed, the source is not asked again; and every callback that was asked for is invoked once,
   unless the user makes the buffer forget it, or it still waits.
   */
  method Play(buf: NbInbuf, script: seq<Step>) returns (answers: seq<Answer>)
    requires buf.Valid()
    modifies buf, buf.buf
    ensures buf.Valid() && buf.State() == Final(old(buf.State()), script)
            && answers == Answers(old(buf.State()), script)
    ensures old(buf.callback) == None ==>
              Balanced(Requested(script), Invoked(answers), Forgotten(old(buf.State()), script), buf.callback)
    ensures buf.obtained == old(buf.obtained) + GaveInRun(old(buf.State()), script)
    ensures Conveys(buf.State(), old(buf.consumed) + Got(answers))
    ensures old(buf.atEof) ==>
            buf.atEof && buf.sourceReads == old(buf.sourceReads) && buf.errorStatus == old(buf.errorStatus)
  {
    buf.StateIsSound();
    ghost var before := buf.State();
    answers := [];
    var i := 0;
    assert script[..0] == [];
    while i < |script|
      invariant 0 <= i <= |script| && buf.Valid()
      invariant buf.State() == Final(before, script[..i]) && answers == Answers(before, script[..i])
    {
      OneMore(before, script, i);
      var answer := buf.Perform(script[i]);
      answers := answers + [answer];
      i := i + 1;
    }
    assert script[..i] == script;
    RunIsFaithful(before, script);
  }

  lemma RunIsFaithful(v: View, script: seq<Step>)
    requires v.Sound()
    ensures v.callback == None ==>
              Balanced(Requested(script), Invoked(Answers(v, script)), Forgotten(v, script), Final(v, script).callback)
    ensures Final(v, script).obtained == v.obtained + GaveInRun(v, script)
    ensures Conveys(Final(v, script), v.consumed + Got(Answers(v, script)))
    ensures v.atEof ==>
              Final(v, script).atEof && Final(v, script).sourceReads == v.sourceReads
                  && Final(v, script).status == v.status
  {
    ObtainedIsGiven(v, script);
    if v.callback == None { CallbacksBalance(v, script); }
    if v.atEof { EndIsFinal(v, script); }
    NothingGetsLost(v, script);
  }
}
