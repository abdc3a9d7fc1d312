/**
 What an input buffer does, as a function of its steps: without pointers, and without the book-keeping of references.
 */
module InbufRuns {
  import opened Bytes
  import opened Tickets
  import opened Wrappers

  /** What the source answers: a status, and the bytes it stored unless it would block; no bytes mean the end. */
  datatype SourceResult = SourceResult(status: int, bytes: Option<seq<Byte>>)

  /** The source cannot store more than there is room for, and stores nothing if it fails. */
  function Obtained(result: SourceResult, room: nat): Option<seq<Byte>> {
    if result.status != 0 then Some([])
    else if result.bytes.Some? && |result.bytes.value| > room then Some(result.bytes.value[..room])
    else result.bytes
  }

  /** What users and the scheduler may do to a buffer. */
  datatype Step =
    | Skip
    | Read(count: nat)
    | Enable
    | Disable
    | Call(cb: Callback)
    | Cancel
    | Fire(ticket: Ticket, result: SourceResult, throughput: int)
  {
    function Request(): Option<Callback> {
      if Call? then Some(cb) else None
    }

    /** A step that makes the buffer forget the callback it waits to call. */
    predicate Forgets() {
      Call? || Cancel?
    }

    /** How many bytes the reader asks for. */
    function Wanted(): nat {
      if Skip? then 1 else if Read? then count else 0
    }
  }

  /** What a step answers: the callback to be invoked, and the bytes that the reader has got. */
  datatype Answer = Answer(fired: Option<Callback>, bytes: seq<Byte>)

  /**
   `unread` waits to be read; `io` and `alarm` are the tickets of what is registered with the scheduler; `obtained` came
   from the source, without a chunk that the checker rejected, and `consumed` was skipped or read.
   */
  datatype View = View(size: nat, checker: bool, io: Option<Ticket>, alarm: Option<Ticket>,
                       callback: Option<Callback>, issued: nat,
                       unread: seq<Byte>, atEof: bool, status: int,
                       obtained: seq<Byte>, consumed: seq<Byte>, sourceReads: nat)
  {
    predicate Readable() {
      unread != [] || atEof
    }

    predicate Sound() {
      && 0 < size && |unread| <= size && consumed + unread == obtained
      && (atEof ==> unread == []) && (status != 0 ==> atEof)
      && (callback.Some? <==> io.Some? || alarm.Some?)
      && (io.Some? ==> !Readable() && (alarm.Some? <==> checker))
      && Apart(io, alarm, issued)
    }
  }

  /** How many of the bytes that the reader asks for are there. */
  function There(v: View, count: nat): nat {
    if count > |v.unread| then |v.unread| else count
  }

  function Consumed(v: View, count: nat): View {
    if count > |v.unread| then v else v.(consumed := v.consumed + v.unread[..count], unread := v.unread[count..])
  }

  function Disabled(v: View): View {
    v.(checker := false, alarm := if v.io.Some? then None else v.alarm)
  }

  function Enabled(v: View): View {
    var d := Disabled(v).(checker := true);
    if v.io.Some? then d.(alarm := Some(v.issued), issued := v.issued + 1) else d
  }

  function Cancelled(v: View): View {
    v.(io := None, alarm := None, callback := None)
  }

  /** Waits for the next tick if the buffer is readable, and for the source otherwise. */
  function Called(v: View, cb: Callback): View {
    var w := Cancelled(v).(callback := Some(cb));
    if v.Readable() then w.(alarm := Some(v.issued), issued := v.issued + 1)
    else w.(io := Some(v.issued), alarm := if v.checker then Some(v.issued + 1) else None,
            issued := v.issued + 1 + AsNat(v.checker))
  }

  /** The source has more, or has ended; the status afterwards is its own, or the checker's verdict. */
  function SourceReady(v: View, result: SourceResult, throughput: int): View {
    var w := v.(status := if result.status == 0 && v.checker then throughput else result.status,
                sourceReads := v.sourceReads + 1);
    var chunk := if w.status != 0 then Some([]) else Obtained(result, v.size);
    if chunk == None then w.(io := Some(v.issued), issued := v.issued + 1)
    else Cancelled(w).(unread := chunk.value, atEof := chunk.value == [], obtained := v.obtained + chunk.value)
  }

  function Ticked(v: View, throughput: int): View {
    if throughput == 0 then v.(alarm := Some(v.issued), issued := v.issued + 1)
    else Cancelled(v).(status := throughput, atEof := true)
  }

  /** What is registered under the ticket is due; nothing happens if nothing is. */
  function After(v: View, ticket: Ticket, result: SourceResult, throughput: int): View {
    if v.io == Some(ticket) then SourceReady(v, result, throughput)
    else if v.alarm == Some(ticket) then if v.io.Some? then Ticked(v, throughput) else Cancelled(v)
    else v
  }

  /** A step that is not allowed at this point is left out. */
  function Next(v: View, step: Step): View {
    match step
    case Skip => if v.Readable() then Consumed(v, There(v, 1)) else v
    case Read(count) => if v.Readable() then Consumed(v, There(v, count)) else v
    case Enable => Enabled(v)
    case Disable => Disabled(v)
    case Call(cb) => Called(v, cb)
    case Cancel => Cancelled(v)
    case Fire(ticket, result, throughput) => After(v, ticket, result, throughput)
  }

  function Answered(v: View, step: Step): Answer {
    Answer(if step.Fire? && v.callback.Some? && Next(v, step).callback == None then v.callback else None,
           v.unread[..There(v, step.Wanted())])
  }

  // ---- runs ----

  function Final(v: View, script: seq<Step>): View {
    if script == [] then v else Next(Final(v, script[..|script| - 1]), script[|script| - 1])
  }

  /** The answers of a run. */
  function Answers(v: View, script: seq<Step>): (answers: seq<Answer>)
    ensures |answers| == |script|
  {
    if script == [] then []
    else Answers(v, script[..|script| - 1]) + [Answered(Final(v, script[..|script| - 1]), script[|script| - 1])]
  }

  lemma OneMore(v: View, script: seq<Step>, i: nat)
    requires i < |script|
    ensures Final(v, script[..i + 1]) == Next(Final(v, script[..i]), script[i])
    ensures Answers(v, script[..i + 1]) == Answers(v, script[..i]) + [Answered(Final(v, script[..i]), script[i])]
  {
    assert script[..i + 1][..i] == script[..i];
  }

  /** The callbacks that were asked for. */
  function Requested(script: seq<Step>): multiset<Callback> {
    if script == [] then multiset{} else Add(Requested(script[..|script| - 1]), script[|script| - 1].Request())
  }

  /** The callbacks that were invoked. */
  function Invoked(answers: seq<Answer>): multiset<Callback> {
    if answers == [] then multiset{} else Add(Invoked(answers[..|answers| - 1]), answers[|answers| - 1].fired)
  }

  /** The callbacks that were waiting when the user asked for another one, or cancelled. */
  function Forgotten(v: View, script: seq<Step>): multiset<Callback> {
    if script == [] then multiset{}
    else
      var n := |script| - 1;
      Add(Forgotten(v, script[..n]), if script[n].Forgets() then Final(v, script[..n]).callback else None)
  }

  /** What the reader has got. */
  function Got(answers: seq<Answer>): seq<Byte> {
    if answers == [] then [] else Got(answers[..|answers| - 1]) + answers[|answers| - 1].bytes
  }

  lemma ConsumedIsSound(v: View, count: nat)
    requires v.Sound()
    ensures Consumed(v, There(v, count)).Sound()
  {
    var n := There(v, count);
    assert v.unread == v.unread[..n] + v.unread[n..];
  }

  lemma AfterIsSound(v: View, ticket: Ticket, result: SourceResult, throughput: int)
    requires v.Sound()
    ensures After(v, ticket, result, throughput).Sound()
  {
  }

  lemma NextIsSound(v: View, step: Step)
    requires v.Sound()
    ensures Next(v, step).Sound() && Next(v, step).consumed == v.consumed + Answered(v, step).bytes
  {
    match step
    case Skip => ConsumedIsSound(v, 1);
    case Read(count) => ConsumedIsSound(v, count);
    case Fire(ticket, result, throughput) => AfterIsSound(v, ticket, result, throughput);
    case _ =>
  }

  lemma NextSettles(v: View, step: Step)
    requires v.Sound()
    ensures Settled(step.Request(), step.Forgets(), v.callback, Answered(v, step).fired, Next(v, step).callback)
  {
  }

  lemma NextKeepsEnd(v: View, step: Step)
    requires v.Sound() && v.atEof
    ensures var w := Next(v, step);
            w.atEof && w.status == v.status && w.obtained == v.obtained && w.sourceReads == v.sourceReads
  {
  }

  lemma {:induction false} FinalIsSound(v: View, script: seq<Step>)
    requires v.Sound()
    ensures Final(v, script).Sound()
  {
    if script != [] {
      FinalIsSound(v, script[..|script| - 1]);
      NextIsSound(Final(v, script[..|script| - 1]), script[|script| - 1]);
    }
  }

  /**
   In every run, every callback that was asked for is invoked once, unless the user asks for another one or cancels
   while it waits, or the run ends while it waits.
   */
  lemma {:induction false} CallbacksBalance(v: View, script: seq<Step>)
    requires v.Sound() && v.callback == None
    ensures Balanced(Requested(script), Invoked(Answers(v, script)), Forgotten(v, script), Final(v, script).callback)
  {
    if script != [] {
      var n := |script| - 1;
      var w := Final(v, script[..n]);
      CallbacksBalance(v, script[..n]);
      FinalIsSound(v, script[..n]);
      NextSettles(w, script[n]);
      var answers := Answers(v, script);
      assert answers[..n] == Answers(v, script[..n]);
      SettledKeepsBalance(Requested(script[..n]), Invoked(answers[..n]), Forgotten(v, script[..n]), w.callback,
                          script[n].Request(), script[n].Forgets(), answers[n].fired, Next(w, script[n]).callback);
    }
  }

  /** The reader has got the text: what came from the source, in order, but for what is still unread. */
  predicate Conveys(v: View, text: seq<Byte>) {
    v.consumed == text && text + v.unread == v.obtained
  }

  /** In every run, the reader gets what came from the source. */
  lemma {:induction false} NothingGetsLost(v: View, script: seq<Step>)
    requires v.Sound()
    ensures Conveys(Final(v, script), v.consumed + Got(Answers(v, script)))
  {
    if script != [] {
      var n := |script| - 1;
      var w, answers := Final(v, script[..n]), Answers(v, script[..n]);
      NothingGetsLost(v, script[..n]);
      FinalIsSound(v, script[..n]);
      NextConveys(w, script[n], v.consumed + Got(answers));
      MoreGot(v.consumed, answers, Answered(w, script[n]));
      assert Answers(v, script) == answers + [Answered(w, script[n])];
    }
  }

  lemma MoreGot(before: seq<Byte>, answers: seq<Answer>, answer: Answer)
    ensures before + Got(answers + [answer]) == (before + Got(answers)) + answer.bytes
  {
    assert (answers + [answer])[..|answers|] == answers;
  }

  lemma NextConveys(v: View, step: Step, text: seq<Byte>)
    requires v.Sound() && Conveys(v, text)
    ensures Conveys(Next(v, step), text + Answered(v, step).bytes)
  {
    NextIsSound(v, step);
  }

  /** In every run, once the input has ended or failed the source is not asked again, and the error stays. */
  lemma {:induction false} EndIsFinal(v: View, script: seq<Step>)
    requires v.Sound() && v.atEof
    ensures var w := Final(v, script);
            w.atEof && w.status == v.status && w.obtained == v.obtained && w.sourceReads == v.sourceReads
  {
    if script != [] {
      var n := |script| - 1;
      EndIsFinal(v, script[..n]);
      FinalIsSound(v, script[..n]);
      NextKeepsEnd(Final(v, script[..n]), script[n]);
    }
  }

  // ---- what the source has answered ----

  /** What the source gave in a step: nothing if it failed, or if the checker rejected it, and not more than fits. */
  function GaveInStep(v: View, step: Step): seq<Byte> {
    if step.Fire? && v.io == Some(step.ticket) && step.result.status == 0 && (v.checker ==> step.throughput == 0)
       && step.result.bytes.Some?
    then
      var bytes := step.result.bytes.value;
      if |bytes| <= v.size then bytes else bytes[..v.size]
    else []
  }

  function GaveInRun(v: View, script: seq<Step>): seq<Byte> {
    if script == [] then []
    else
      var n := |script| - 1;
      GaveInRun(v, script[..n]) + GaveInStep(Final(v, script[..n]), script[n])
  }

  lemma ObtainedInStep(v: View, step: Step)
    requires v.Sound()
    ensures Next(v, step).obtained == v.obtained + GaveInStep(v, step)
    ensures Next(v, step).sourceReads == v.sourceReads + AsNat(step.Fire? && v.io == Some(step.ticket))
  {
    assert v.obtained + [] == v.obtained;
  }

  /** In every run, what is obtained is what the source gave, in order. */
  lemma {:induction false} ObtainedIsGiven(v: View, script: seq<Step>)
    requires v.Sound()
    ensures Final(v, script).obtained == v.obtained + GaveInRun(v, script)
  {
    if script == [] {
      assert v.obtained + [] == v.obtained;
    } else {
      var n := |script| - 1;
      ObtainedIsGiven(v, script[..n]);
      FinalIsSound(v, script[..n]);
      ObtainedInStep(Final(v, script[..n]), script[n]);
      LongerInput(v.obtained, GaveInRun(v, script[..n]), GaveInStep(Final(v, script[..n]), script[n]));
    }
  }

  lemma LongerInput(before: seq<Byte>, given: seq<Byte>, more: seq<Byte>)
    ensures (before + given) + more == before + (given + more)
  {
  }

  /**
   When the source has answered, the buffer goes on waiting exactly if there is no error and the source would block;
   otherwise the callback comes, and the input has ended exactly if nothing was obtained.
   */
  lemma SourceAnswered(v: View, result: SourceResult, throughput: int)
    requires v.Sound() && v.io.Some?
    ensures var step := Fire(v.io.value, result, throughput);
            var w := Next(v, step);
            && w.status == (if result.status != 0 then result.status else if v.checker then throughput else 0)
            && if w.status == 0 && result.bytes == None
               then w.io.Some? && w.io.value >= v.issued && w.alarm == v.alarm && !w.Readable()
                   && w.callback == v.callback && Answered(v, step).fired == None
               else w.unread == GaveInStep(v, step) && (w.atEof <==> w.unread == []) && w.io == None && w.alarm == None
                    && w.callback == None && Answered(v, step).fired == v.callback
  {
  }

  /** At the checker's alarm, the buffer goes on waiting exactly if the checker has no objection. */
  lemma TickAnswered(v: View, result: SourceResult, throughput: int)
    requires v.Sound() && v.io.Some? && v.alarm.Some?
    ensures var step := Fire(v.alarm.value, result, throughput);
            var w := Next(v, step);
            if throughput == 0
            then w == v.(alarm := Some(v.issued), issued := v.issued + 1) && Answered(v, step).fired == None
            else w.status == throughput && w.atEof && w.unread == [] && w.io == None && w.alarm == None
                 && w.callback == None && Answered(v, step).fired == v.callback
  {
  }

  // ---- what users ask for ----

  /**
   Checking is on or off as was asked for last; it changes nothing but the alarm of a buffer that waits for its
   source.
   */
  lemma CheckingMeans(v: View)
    ensures var w := Next(v, Enable);
            && w.checker && w == v.(checker := true, alarm := w.alarm, issued := w.issued)
            && (if v.io.Some? then w.alarm == Some(v.issued) && w.issued == v.issued + 1
                else w.alarm == v.alarm && w.issued == v.issued)
    ensures var w := Next(v, Disable);
            && !w.checker && w == v.(checker := false, alarm := w.alarm)
            && w.alarm == if v.io.Some? then None else v.alarm
  {
  }

  /**
   The last callback that was asked for is the one that waits, for the source exactly if the buffer is not readable.
   */
  lemma CallMeans(v: View, cb: Callback)
    requires v.Sound()
    ensures var w := Next(v, Call(cb));
            && w.callback == Some(cb) && (w.io.Some? <==> !v.Readable()) && (v.Readable() ==> w.alarm.Some?)
            && w == v.(callback := w.callback, io := w.io, alarm := w.alarm, issued := w.issued)
            && (w.io.Some? ==> w.io.value >= v.issued) && (w.alarm.Some? ==> w.alarm.value >= v.issued)
    ensures Next(v, Cancel) == v.(callback := None, io := None, alarm := None)
  {
  }

  // ---- a callback that comes too late ----

  /**
   A callback that is asked for while there are bytes to read comes on the next tick, whatever happens in between: if
   they are all read before that, the callback finds the buffer empty.
   */
  lemma CallbackOfEmptyBuffer(v: View, cb: Callback, count: nat, result: SourceResult, throughput: int)
    requires v.Sound() && v.unread != [] && count >= |v.unread|
    ensures var script := [Call(cb), Read(count), Fire(v.issued, result, throughput)];
            Answers(v, script)[2].fired == Some(cb) && !Final(v, script).Readable()
  {
    var script := [Call(cb), Read(count), Fire(v.issued, result, throughput)];
    ThreeSteps(v, script);
    var empty := Next(Called(v, cb), script[1]);
    assert empty.io == None && empty.alarm == Some(v.issued) && empty.callback == Some(cb) && empty.unread == [];
  }

  lemma ThreeSteps(v: View, script: seq<Step>)
    requires |script| == 3
    ensures Final(v, script) == Next(Next(Next(v, script[0]), script[1]), script[2])
    ensures Answers(v, script)[2] == Answered(Next(Next(v, script[0]), script[1]), script[2])
  {
    assert script[..0] == [] && script[..3] == script;
    OneMore(v, script, 0);
    OneMore(v, script, 1);
    OneMore(v, script, 2);
  }
}
