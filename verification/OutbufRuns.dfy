/**
 What an output buffer does, as a function of its steps: without pointers, and without the book-keeping of references.
 */
module OutbufRuns {
  import opened Bytes
  import opened Tickets
  import opened Wrappers

  /** What the sink answers: a status, and how many bytes it took unless it would block. */
  datatype SinkResult = SinkResult(status: int, taken: Option<nat>)

  /** The sink cannot take more than it is offered. */
  function Taken(result: SinkResult, offered: nat): (taken: Option<nat>)
    ensures taken.GetOrElse(0) <= offered
  {
    if result.taken.Some? && result.taken.value > offered then Some(offered) else result.taken
  }

  /** How many of the bytes are sent if the sink answers like this. */
  function Sent(result: SinkResult, offered: nat): (count: nat)
    ensures count <= offered
  {
    if result.status == 0 then Taken(result, offered).GetOrElse(0) else 0
  }

  /** What users and the scheduler may do to a buffer. */
  datatype Step =
    | Put(c: Byte)
    | Write(bytes: seq<Byte>)
    | Flush
    | Enable
    | Disable
    | Call(cb: Callback)
    | Cancel
    | Fire(ticket: Ticket, result: SinkResult, throughput: int)
  {
    function Request(): Option<Callback> {
      if Call? then Some(cb) else None
    }

    /** A step that makes the buffer forget the callback it waits to call. */
    predicate Forgets() {
      Call? || Cancel?
    }

    function Offered(): seq<Byte> {
      if Put? then [c] else if Write? then bytes else []
    }
  }

  /** What a step answers: the callback to be invoked, and how many bytes were taken off the writer's hands. */
  datatype Answer = Answer(fired: Option<Callback>, count: nat)

  /**
   `unsent` waits to be sent, and there is `room` for more bytes, unless the buffer is being flushed; `io` and `alarm`
   are the tickets of what is registered with the scheduler; `accepted` was put into the buffer, and `delivered` taken
   by the sink.
   */
  datatype View = View(size: nat, checker: bool, io: Option<Ticket>, alarm: Option<Ticket>,
                       callback: Option<Callback>, issued: nat,
                       unsent: seq<Byte>, room: nat, status: int, accepted: seq<Byte>, delivered: seq<Byte>)
  {
    predicate Writable() {
      room > 0
    }

    ghost predicate Sound() {
      && 0 < size && room <= size && (room == 0 ==> unsent != [])
      && delivered <= accepted && (status == 0 ==> delivered + unsent == accepted) && (status != 0 ==> unsent == [])
      && (callback.Some? <==> io.Some? || alarm.Some?)
      && (io.Some? ==> room == 0 && (alarm.Some? <==> checker))
      && Apart(io, alarm, issued)
    }
  }

  function Stored(v: View, bytes: seq<Byte>): View {
    if v.status != 0 || |bytes| > v.room then v
    else v.(unsent := v.unsent + bytes, accepted := v.accepted + bytes, room := v.room - |bytes|)
  }

  /** How many of the bytes fit; after an error, all are dropped. */
  function Fitting(v: View, bytes: seq<Byte>): nat {
    if v.status == 0 && |bytes| > v.room then v.room else |bytes|
  }

  function Flushed(v: View): View {
    if v.unsent != [] then v.(room := 0) else v
  }

  function Disabled(v: View): View {
    v.(checker := false, alarm := if v.io.Some? then None else v.alarm)
  }

  function Enabled(v: View): View {
    var d := Disabled(v).(checker := true);
    if v.io.Some? then d.(alarm := Some(v.issued), issued := v.issued + 1) else d
  }

  function Cancelled(v: View): View {
    v.(io := None, alarm := None, callback := None)
  }

  /** Waits for the next tick if the buffer is writable, and for the sink otherwise. */
  function Called(v: View, cb: Callback): View {
    var w := Cancelled(v).(callback := Some(cb));
    if v.Writable() then w.(alarm := Some(v.issued), issued := v.issued + 1)
    else w.(io := Some(v.issued), alarm := if v.checker then Some(v.issued + 1) else None,
            issued := v.issued + 1 + AsNat(v.checker))
  }

  /** The buffer is empty again, or gave up. */
  function Emptied(v: View): View {
    Cancelled(v).(unsent := [], room := v.size)
  }

  /** The sink can take more: the status afterwards is its own, or the checker's verdict. */
  function SinkReady(v: View, result: SinkResult, throughput: int): View {
    var n := Sent(result, |v.unsent|);
    var w := v.(status := if result.status == 0 && v.checker then throughput else result.status,
                delivered := v.delivered + v.unsent[..n], unsent := v.unsent[n..]);
    if w.status == 0 && w.unsent != [] then w.(io := Some(v.issued), issued := v.issued + 1) else Emptied(w)
  }

  /** The same in steps: `v` waits, `w` no longer waits for the sink, and `sent` has passed bytes to it. */
  lemma SinkReadyInSteps(v: View, w: View, sent: View, result: SinkResult, throughput: int)
    requires w == v.(io := None)
             && sent == w.(status := sent.status, delivered := sent.delivered, unsent := sent.unsent)
    requires sent.status == if result.status == 0 && v.checker then throughput else result.status
    requires sent.delivered == v.delivered + v.unsent[..Sent(result, |v.unsent|)]
    requires sent.unsent == if sent.status == 0 then v.unsent[Sent(result, |v.unsent|)..] else []
    ensures SinkReady(v, result, throughput) ==
            if sent.unsent != [] then sent.(io := Some(sent.issued), issued := sent.issued + 1) else Emptied(sent)
  {
  }

  function Ticked(v: View, throughput: int): View {
    if throughput == 0 then v.(alarm := Some(v.issued), issued := v.issued + 1) else Emptied(v.(status := throughput))
  }

  /** What is registered under the ticket is due; nothing happens if nothing is. */
  function After(v: View, ticket: Ticket, result: SinkResult, throughput: int): View {
    if v.io == Some(ticket) then SinkReady(v, result, throughput)
    else if v.alarm == Some(ticket) then if v.io.Some? then Ticked(v, throughput) else Cancelled(v)
    else v
  }

  /** A step that is not allowed at this point is left out. */
  function Next(v: View, step: Step): View {
    match step
    case Put(c) => if v.Writable() then Stored(v, [c]) else v
    case Write(bytes) => if v.Writable() then Stored(v, bytes[..Fitting(v, bytes)]) else v
    case Flush => Flushed(v)
    case Enable => Enabled(v)
    case Disable => Disabled(v)
    case Call(cb) => Called(v, cb)
    case Cancel => Cancelled(v)
    case Fire(ticket, result, throughput) => After(v, ticket, result, throughput)
  }

  function Answered(v: View, step: Step): Answer {
    Answer(if step.Fire? && v.callback.Some? && Next(v, step).callback == None then v.callback else None,
           if v.Writable() then Fitting(v, step.Offered()) else 0)
  }

  // ---- runs ----

  function Final(v: View, script: seq<Step>): View {
    if script == [] then v else Next(Final(v, script[..|script| - 1]), script[|script| - 1])
  }

  /** The answers of a run. */
  function Answers(v: View, script: seq<Step>): (answers: seq<Answer>)
    ensures |answers| == |script|
  {
    if script == [] then []
    else Answers(v, script[..|script| - 1]) + [Answered(Final(v, script[..|script| - 1]), script[|script| - 1])]
  }

  lemma OneMore(v: View, script: seq<Step>, i: nat)
    requires i < |script|
    ensures Final(v, script[..i + 1]) == Next(Final(v, script[..i]), script[i])
    ensures Answers(v, script[..i + 1]) == Answers(v, script[..i]) + [Answered(Final(v, script[..i]), script[i])]
  {
    assert script[..i + 1][..i] == script[..i];
  }

  /** The callbacks that were asked for. */
  function Requested(script: seq<Step>): multiset<Callback> {
    if script == [] then multiset{} else Add(Requested(script[..|script| - 1]), script[|script| - 1].Request())
  }

  /** The callbacks that were invoked. */
  function Invoked(answers: seq<Answer>): multiset<Callback> {
    if answers == [] then multiset{} else Add(Invoked(answers[..|answers| - 1]), answers[|answers| - 1].fired)
  }

  /** The callbacks that were waiting when the user asked for another one, or cancelled. */
  function Forgotten(v: View, script: seq<Step>): multiset<Callback> {
    if script == [] then multiset{}
    else
      var n := |script| - 1;
      Add(Forgotten(v, script[..n]), if script[n].Forgets() then Final(v, script[..n]).callback else None)
  }

  /** The bytes of a step that were taken off the writer's hands. */
  function Kept(step: Step, count: nat): seq<Byte> {
    var offered := step.Offered();
    if count <= |offered| then offered[..count] else offered
  }

  /** What the writer was told has been taken. */
  function Written(script: seq<Step>, answers: seq<Answer>): seq<Byte>
    requires |script| == |answers|
  {
    if script == [] then []
    else var n := |script| - 1; Written(script[..n], answers[..n]) + Kept(script[n], answers[n].count)
  }

  lemma StoredIsSound(v: View, bytes: seq<Byte>)
    requires v.Sound() && v.Writable()
    ensures Stored(v, bytes).Sound()
  {
  }

  lemma AfterIsSound(v: View, ticket: Ticket, result: SinkResult, throughput: int)
    requires v.Sound()
    ensures After(v, ticket, result, throughput).Sound()
    ensures v.delivered <= After(v, ticket, result, throughput).delivered
  {
    if v.io == Some(ticket) {
      var n := Sent(result, |v.unsent|);
      assert v.unsent == v.unsent[..n] + v.unsent[n..];
    }
  }

  lemma NextIsSound(v: View, step: Step)
    requires v.Sound()
    ensures Next(v, step).Sound() && v.delivered <= Next(v, step).delivered
  {
    match step
    case Put(c) => if v.Writable() { StoredIsSound(v, [c]); }
    case Write(bytes) => if v.Writable() { StoredIsSound(v, bytes[..Fitting(v, bytes)]); }
    case Fire(ticket, result, throughput) => AfterIsSound(v, ticket, result, throughput);
    case _ =>
  }

  lemma NextSettles(v: View, step: Step)
    requires v.Sound()
    ensures Settled(step.Request(), step.Forgets(), v.callback, Answered(v, step).fired, Next(v, step).callback)
    ensures v.status != 0 ==> Next(v, step).status == v.status && Next(v, step).delivered == v.delivered
  {
  }

  lemma {:induction false} FinalIsSound(v: View, script: seq<Step>)
    requires v.Sound()
    ensures Final(v, script).Sound()
  {
    if script != [] {
      FinalIsSound(v, script[..|script| - 1]);
      NextIsSound(Final(v, script[..|script| - 1]), script[|script| - 1]);
    }
  }

  /**
   In every run, every callback that was asked for is invoked once, unless the user asks for another one or cancels
   while it waits, or the run ends while it waits.
   */
  lemma {:induction false} CallbacksBalance(v: View, script: seq<Step>)
    requires v.Sound() && v.callback == None
    ensures Balanced(Requested(script), Invoked(Answers(v, script)), Forgotten(v, script), Final(v, script).callback)
  {
    if script != [] {
      var n := |script| - 1;
      var w := Final(v, script[..n]);
      CallbacksBalance(v, script[..n]);
      FinalIsSound(v, script[..n]);
      NextSettles(w, script[n]);
      var answers := Answers(v, script);
      assert answers[..n] == Answers(v, script[..n]);
      SettledKeepsBalance(Requested(script[..n]), Invoked(answers[..n]), Forgotten(v, script[..n]), w.callback,
                          script[n].Request(), script[n].Forgets(), answers[n].fired, Next(w, script[n]).callback);
    }
  }

  /** The sink gets the text: all but what is still unsent, in order, and after an error nothing more. */
  predicate Conveys(v: View, text: seq<Byte>) {
    if v.status == 0 then v.delivered + v.unsent == v.accepted == text else v.delivered <= text
  }

  lemma NextConveys(v: View, step: Step, text: seq<Byte>)
    requires v.Sound() && Conveys(v, text)
    ensures Conveys(Next(v, step), text + Kept(step, Answered(v, step).count))
  {
    NextIsSound(v, step);
    NextSettles(v, step);
    var w, kept := Next(v, step), Kept(step, Answered(v, step).count);
    if v.status == 0 && w.status == 0 {
      assert w.accepted == v.accepted + kept;
    } else if v.status == 0 {
      assert w.accepted == v.accepted && kept == [];
    }
  }

  /** In every run, the sink gets what the writer was told has been taken. */
  lemma {:induction false} NothingGetsLost(v: View, script: seq<Step>)
    requires v.Sound() && v.status == 0
    ensures Conveys(Final(v, script), v.accepted + Written(script, Answers(v, script)))
  {
    if script != [] {
      var n := |script| - 1;
      var answers := Answers(v, script);
      NothingGetsLost(v, script[..n]);
      FinalIsSound(v, script[..n]);
      assert answers[..n] == Answers(v, script[..n]);
      var written := Written(script[..n], answers[..n]);
      NextConveys(Final(v, script[..n]), script[n], v.accepted + written);
      assert (v.accepted + written) + Kept(script[n], answers[n].count) == v.accepted + Written(script, answers);
    }
  }

  /** In every run, an error stays, and nothing is delivered after it. */
  lemma {:induction false} ErrorsAreSticky(v: View, script: seq<Step>)
    requires v.Sound() && v.status != 0
    ensures Final(v, script).status == v.status && Final(v, script).delivered == v.delivered
  {
    if script != [] {
      var n := |script| - 1;
      ErrorsAreSticky(v, script[..n]);
      FinalIsSound(v, script[..n]);
      NextSettles(Final(v, script[..n]), script[n]);
    }
  }

  // ---- what the sink has answered ----

  /** How many bytes the sink took in a step: what it says, but not more than it was offered. */
  function TookInStep(v: View, step: Step): nat {
    if step.Fire? && v.io == Some(step.ticket) && step.result.status == 0 && step.result.taken.Some?
    then (if step.result.taken.value < |v.unsent| then step.result.taken.value else |v.unsent|)
    else 0
  }

  function TookInRun(v: View, script: seq<Step>): nat {
    if script == [] then 0
    else
      var n := |script| - 1;
      TookInRun(v, script[..n]) + TookInStep(Final(v, script[..n]), script[n])
  }

  /** The first bytes that are unsent are delivered, as many as the sink took. */
  lemma DeliveredInStep(v: View, step: Step)
    requires v.Sound()
    ensures TookInStep(v, step) <= |v.unsent|
    ensures Next(v, step).delivered == v.delivered + v.unsent[..TookInStep(v, step)]
  {
    if !step.Fire? { assert v.unsent[..0] == [] && v.delivered + [] == v.delivered; }
  }

  /** In every run, as many bytes are delivered as the sink took. */
  lemma {:induction false} DeliveredIsTaken(v: View, script: seq<Step>)
    requires v.Sound()
    ensures |Final(v, script).delivered| == |v.delivered| + TookInRun(v, script)
  {
    if script != [] {
      var n := |script| - 1;
      DeliveredIsTaken(v, script[..n]);
      FinalIsSound(v, script[..n]);
      DeliveredInStep(Final(v, script[..n]), script[n]);
    }
  }

  /**
   When the sink has answered, the buffer goes on waiting exactly if there is no error and some bytes are left, and they
   are; otherwise it is empty, waits for nothing, and the callback comes.
   */
  lemma SinkAnswered(v: View, result: SinkResult, throughput: int)
    requires v.Sound() && v.io.Some?
    ensures var step := Fire(v.io.value, result, throughput);
            var w, left := Next(v, step), v.unsent[TookInStep(v, step)..];
            && w.status == (if result.status != 0 then result.status else if v.checker then throughput else 0)
            && if w.status == 0 && left != []
               then w.unsent == left && w.io.Some? && w.io.value >= v.issued && !w.Writable()
                   && w.callback == v.callback
                    && w.alarm == v.alarm && Answered(v, step).fired == None
               else w.unsent == [] && w.room == w.size && w.io == None && w.alarm == None && w.callback == None
                    && Answered(v, step).fired == v.callback
  {
  }

  /** A step takes as many bytes off the writer's hands as there is room for, and all of them after an error. */
  lemma WriterIsTold(v: View, step: Step)
    requires v.Sound()
    ensures var offered, count := |step.Offered()|, Answered(v, step).count;
            && count <= offered
            && (count < offered ==> !Next(v, step).Writable() && v.status == 0)
            && (count == 0 && offered > 0 ==> !v.Writable())
            && (v.status == 0 ==> |Next(v, step).accepted| == |v.accepted| + count)
  {
  }

  /** At the checker's alarm, the buffer goes on waiting exactly if the checker has no objection. */
  lemma TickAnswered(v: View, result: SinkResult, throughput: int)
    requires v.Sound() && v.io.Some? && v.alarm.Some?
    ensures var step := Fire(v.alarm.value, result, throughput);
            var w := Next(v, step);
            if throughput == 0
            then w == v.(alarm := Some(v.issued), issued := v.issued + 1) && Answered(v, step).fired == None
            else w.status == throughput && w.unsent == [] && w.room == w.size && w.io == None && w.alarm == None
                 && w.callback == None && Answered(v, step).fired == v.callback
  {
  }

  // ---- what users ask for ----

  /** After a flush the buffer is writable exactly if it was, and there is nothing to send; nothing else changes. */
  lemma FlushMeans(v: View)
    ensures var w := Next(v, Flush);
            && (w.Writable() <==> v.Writable() && v.unsent == []) && w == v.(room := w.room)
            && (w.Writable() ==> w.room == v.room)
  {
  }

  /**
   Checking is on or off as was asked for last; it changes nothing but the alarm of a buffer that waits for its sink.
   */
  lemma CheckingMeans(v: View)
    ensures var w := Next(v, Enable);
            && w.checker && w == v.(checker := true, alarm := w.alarm, issued := w.issued)
            && (if v.io.Some? then w.alarm == Some(v.issued) && w.issued == v.issued + 1
                else w.alarm == v.alarm && w.issued == v.issued)
    ensures var w := Next(v, Disable);
            && !w.checker && w == v.(checker := false, alarm := w.alarm)
            && w.alarm == if v.io.Some? then None else v.alarm
  {
  }

  /** The last callback that was asked for is the one that waits, for the sink exactly if the buffer is not writable. */
  lemma CallMeans(v: View, cb: Callback)
    requires v.Sound()
    ensures var w := Next(v, Call(cb));
            && w.callback == Some(cb) && (w.io.Some? <==> !v.Writable()) && (v.Writable() ==> w.alarm.Some?)
            && w == v.(callback := w.callback, io := w.io, alarm := w.alarm, issued := w.issued)
            && (w.io.Some? ==> w.io.value >= v.issued) && (w.alarm.Some? ==> w.alarm.value >= v.issued)
    ensures Next(v, Cancel) == v.(callback := None, io := None, alarm := None)
  {
  }

  // ---- a callback that comes too late ----

  /**
   A callback that is asked for while the buffer is writable comes on the next tick, whatever happens in between: if the
   buffer is filled up before that, the callback finds it full.
   */
  lemma CallbackOfFullBuffer(v: View, cb: Callback, bytes: seq<Byte>, result: SinkResult, throughput: int)
    requires v.Sound() && v.Writable() && v.status == 0 && |bytes| >= v.room
    ensures var script := [Call(cb), Write(bytes), Fire(v.issued, result, throughput)];
            Answers(v, script)[2].fired == Some(cb) && !Final(v, script).Writable()
  {
    var script := [Call(cb), Write(bytes), Fire(v.issued, result, throughput)];
    ThreeSteps(v, script);
    var filled := Next(Called(v, cb), script[1]);
    assert filled.io == None && filled.alarm == Some(v.issued) && filled.callback == Some(cb) && filled.room == 0;
  }

  lemma ThreeSteps(v: View, script: seq<Step>)
    requires |script| == 3
    ensures Final(v, script) == Next(Next(Next(v, script[0]), script[1]), script[2])
    ensures Answers(v, script)[2] == Answered(Next(Next(v, script[0]), script[1]), script[2])
  {
    assert script[..0] == [] && script[..3] == script;
    OneMore(v, script, 0);
    OneMore(v, script, 1);
    OneMore(v, script, 2);
  }

  /** If nothing is written in between, the callback finds the buffer writable. */
  lemma CallbackOfWritableBuffer(v: View, cb: Callback, result: SinkResult, throughput: int)
    requires v.Sound() && v.Writable()
    ensures var script := [Call(cb), Fire(v.issued, result, throughput)];
            Answers(v, script)[1].fired == Some(cb) && Final(v, script).Writable()
  {
    var script := [Call(cb), Fire(v.issued, result, throughput)];
    assert script[..1][..0] == [];
    assert Final(v, script[..1]) == Called(v, cb);
  }
}
