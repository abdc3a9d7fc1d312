/**
 The client's state machine for one remote call: a track that reads the reply and a track that
 writes the request, each of which may fail at any time and cut the other one short.

 A subroutine that has been started may complete at once, inside `start`, or later, from the
 event loop; every choice the environment makes is a nondeterministic choice here.
 */
module RpcEngines {
  import opened Wrappers

  type Exception = int
  type ErrorStatus = int // zero means no error

  datatype InputState = InputNotStarted | ReadingReply | DrainingMessage | InputDone
  datatype OutputState = OutputNotStarted | WritingRequest | WritingEom | OutputDone

  datatype Result = Success | OutputError(status: ErrorStatus) | InputError(status: ErrorStatus) | Thrown(ex: Exception)

  /** What the caller is told: an I/O error first, then the first exception that was recorded. */
  function Report(outStatus: ErrorStatus, inStatus: ErrorStatus, failures: seq<Exception>): (r: Result)
    ensures r == Success <==> outStatus == 0 && inStatus == 0 && failures == []
    ensures r.OutputError? <==> outStatus != 0
    ensures r.InputError? <==> outStatus == 0 && inStatus != 0
    ensures match r
            case OutputError(status) => status == outStatus
            case InputError(status) => status == inStatus
            case Thrown(ex) => failures != [] && ex == failures[0]
            case Success => true
  {
    if outStatus != 0 then OutputError(outStatus)
    else if inStatus != 0 then InputError(inStatus)
    else if failures != [] then Thrown(failures[0])
    else Success
  }

  function Recorded(failure: Option<Exception>): seq<Exception> {
    if failure.Some? then [failure.value] else []
  }

  class RpcEngine {
    var inputState: InputState
    var outputState: OutputState
    var ex: Option<Exception>

    // which subroutines are running
    var replyReader: bool
    var drainer: bool
    var requestWriter: bool
    var eomWriter: bool

    // the error statuses of the two buffers
    var inStatus: ErrorStatus
    var outStatus: ErrorStatus

    // history of the current call
    ghost var failures: seq<Exception>
    ghost var repliesRead: nat
    ghost var requestsWritten: nat
    ghost var eomsWritten: nat
    ghost var drains: nat
    ghost var results: seq<Result>

    constructor ()
      ensures Quiet() && results == []
    {
      inputState, outputState, ex := InputNotStarted, OutputNotStarted, None;
      replyReader, drainer, requestWriter, eomWriter := false, false, false, false;
      inStatus, outStatus := 0, 0;
      failures, eomsWritten, drains, results := [], 0, 0, [];
      repliesRead, requestsWritten := 0, 0;
    }

    predicate Quiet()
      reads this
    {
      !replyReader && !drainer && !requestWriter && !eomWriter
    }

    /** The input track is consistent with its state. */
    ghost predicate InputOk()
      reads this
    {
      && inputState != InputNotStarted
      && (replyReader <==> inputState == ReadingReply)
      && (drainer <==> inputState == DrainingMessage)
      && drains == AsNat(inputState == InputDone)
      && (inputState == ReadingReply ==> repliesRead == 0) && ReadOrFailed()
    }

    /** The reply was read, once, unless the call has failed. */
    ghost predicate ReadOrFailed()
      reads this
    {
      repliesRead <= 1
          && (inputState == DrainingMessage || inputState == InputDone ==> repliesRead == 1 || failures != [])
    }

    /** The request was written, once, unless the call has failed. */
    ghost predicate WrittenOrFailed()
      reads this
    {
      requestsWritten <= 1
          && (outputState == WritingEom || outputState == OutputDone ==> requestsWritten == 1 || failures != [])
    }

    ghost predicate OutputOk()
      reads this
    {
      && outputState != OutputNotStarted
      && (requestWriter <==> outputState == WritingRequest)
      && (eomWriter <==> outputState == WritingEom)
      && eomsWritten == AsNat(outputState == OutputDone)
      && (outputState == WritingRequest ==> requestsWritten == 0) && WrittenOrFailed()
    }

    /** The recorded exception is the only failure: the track that fails first cuts the other one short. */
    ghost predicate FailuresOk()
      reads this
    {
      && ex == (if failures == [] then None else Some(failures[0]))
      && |failures| <= 1
      && (replyReader || requestWriter ==> failures == [])
    }

    /** Exactly one result once both tracks are done, and none before. */
    ghost predicate ResultOk()
      reads this
    {
      results == if inputState == InputDone && outputState == OutputDone then [Report(outStatus, inStatus, failures)]
                 else []
    }

    /** What holds between two callbacks. */
    ghost predicate Valid()
      reads this
    {
      InputOk() && OutputOk() && FailuresOk() && ResultOk()
    }

    /** The number of callbacks that are still to come. */
    function Phases(): nat
      reads this
    {
      (match inputState case InputNotStarted => 3 case ReadingReply => 2 case DrainingMessage => 1 case InputDone => 0)
      + (match outputState
         case OutputNotStarted => 3 case WritingRequest => 2 case WritingEom => 1 case OutputDone => 0)
    }

    /** I/O may run into an error at any time; error statuses are sticky. */
    method PerformIo()
      modifies this`inStatus, this`outStatus
      ensures old(inStatus) != 0 ==> inStatus == old(inStatus)
      ensures old(outStatus) != 0 ==> outStatus == old(outStatus)
    {
      if inStatus == 0 { inStatus := *; }
      if outStatus == 0 { outStatus := *; }
    }

    /** Starts a call, and returns with both tracks under way, or already further. */
    method Start()
      requires Quiet()
      modifies this
      ensures Valid() && Phases() <= 4
    {
      failures, eomsWritten, drains, results := [], 0, 0, [];
      repliesRead, requestsWritten := 0, 0;
      inputState, outputState, ex := InputNotStarted, OutputNotStarted, None;
      if inputState == InputNotStarted {
        inputState := ReadingReply;
        StartReplyReader();
      }
      if outputState == OutputNotStarted {
        outputState := WritingRequest;
        StartRequestWriter();
      }
    }

    /** The output track may not be started yet when the reply reader is. */
    method StartReplyReader()
      requires inputState == ReadingReply && outputState == OutputNotStarted && Quiet()
      requires FailuresOk() && ex == None && eomsWritten == 0 && drains == 0 && results == []
      requires repliesRead == 0 && requestsWritten == 0
      modifies this
      ensures InputOk() && FailuresOk() && ResultOk()
      ensures outputState == OutputNotStarted || OutputOk()
      ensures outputState == OutputNotStarted ==>
              !requestWriter && !eomWriter && eomsWritten == 0 && requestsWritten == 0 && failures == []
    {
      replyReader := true;
      var completes: bool := *;
      if completes {
        var failure := AnyFailure();
        CompleteReplyReader(failure);
      }
    }

    /** The environment decides whether a subroutine fails, and with what exception. */
    method AnyFailure() returns (failure: Option<Exception>)
    {
      var fails: bool := *;
      var e: Exception := *;
      failure := if fails then Some(e) else None;
    }

    /** The reply reader submits, or fails; either is recorded before the engine learns of it. */
    method CompleteReplyReader(failure: Option<Exception>)
      requires InputOk() && FailuresOk() && ResultOk() && inputState == ReadingReply
      requires OutputOk() || (outputState == OutputNotStarted && !requestWriter && !eomWriter && eomsWritten == 0
               && requestsWritten == 0)
      modifies this
      ensures InputOk() && FailuresOk() && ResultOk() && Phases() < old(Phases())
      ensures OutputOk() || (outputState == old(outputState) == OutputNotStarted && !requestWriter && !eomWriter
              && eomsWritten == 0 && requestsWritten == 0)
      ensures outputState == OutputNotStarted ==> failures == []
      ensures failures == old(failures) + Recorded(failure)
    {
      PerformIo();
      replyReader := false;
      failures, repliesRead := failures + Recorded(failure), repliesRead + AsNat(failure == None);
      match failure
      case Some(e) => OnReplyError(e);
      case None => OnReplyRead();
    }

    method OnReplyRead()
      requires inputState == ReadingReply && !replyReader && !drainer && drains == 0 && results == [] && FailuresOk()
      requires repliesRead == 1
      modifies this
      ensures InputOk() && FailuresOk() && ResultOk() && inputState in {DrainingMessage, InputDone}
      ensures outputState == old(outputState) && requestWriter == old(requestWriter) && eomWriter == old(eomWriter)
              && eomsWritten == old(eomsWritten)
      ensures failures == old(failures) && requestsWritten == old(requestsWritten)
    {
      inputState := DrainingMessage;
      StartMessageDrainer();
    }

    method OnReplyError(e: Exception)
      requires inputState == ReadingReply && !replyReader && !drainer && drains == 0 && results == []
      requires ex == None && failures == [e] && repliesRead == 0
      requires OutputOk() || (outputState == OutputNotStarted && !requestWriter && !eomWriter && eomsWritten == 0
               && requestsWritten == 0)
      modifies this
      ensures InputOk() && OutputOk() && FailuresOk() && ResultOk() && Phases() < old(Phases())
      ensures failures == old(failures)
    {
      if ex == None {
        ex := Some(e);
      }
      if outputState == OutputNotStarted || outputState == WritingRequest {
        // skip or cancel request writing
        requestWriter := false;
        outputState := WritingEom;
        StartEomWriter();
      }
      assert inputState == ReadingReply;
      inputState := DrainingMessage;
      StartMessageDrainer();
    }

    method StartMessageDrainer()
      requires inputState == DrainingMessage && !replyReader && !drainer && drains == 0 && results == []
      requires FailuresOk() && ReadOrFailed()
      modifies this`inputState, this`drainer, this`drains, this`results, this`inStatus, this`outStatus
      ensures InputOk() && inputState in {DrainingMessage, InputDone}
      ensures ResultOk()
    {
      drainer := true;
      var completes: bool := *;
      if completes {
        CompleteDrainer();
      }
    }

    method CompleteDrainer()
      requires inputState == DrainingMessage && !replyReader && drainer && drains == 0 && results == []
      requires FailuresOk() && ReadOrFailed()
      modifies this`inputState, this`drainer, this`drains, this`results, this`inStatus, this`outStatus
      ensures InputOk() && inputState == InputDone
      ensures ResultOk()
    {
      PerformIo();
      drainer, drains := false, drains + 1;
      OnMessageDrained();
    }

    method OnMessageDrained()
      requires inputState == DrainingMessage && results == []
      requires FailuresOk()
      modifies this`inputState, this`results
      ensures inputState == InputDone
      ensures ResultOk()
    {
      assert inputState == DrainingMessage;
      inputState := InputDone;
      if outputState == OutputDone {
        OnDone();
      }
    }

    method StartRequestWriter()
      requires outputState == WritingRequest && InputOk() && FailuresOk() && ResultOk() && failures == []
      requires !requestWriter && !eomWriter && eomsWritten == 0 && requestsWritten == 0
      modifies this
      ensures Valid()
    {
      requestWriter := true;
      var completes: bool := *;
      if completes {
        var failure := AnyFailure();
        CompleteRequestWriter(failure);
      }
    }

    /** The request writer submits, or fails; either is recorded before the engine learns of it. */
    method CompleteRequestWriter(failure: Option<Exception>)
      requires Valid() && outputState == WritingRequest
      modifies this
      ensures Valid() && Phases() < old(Phases()) && failures == old(failures) + Recorded(failure)
    {
      PerformIo();
      requestWriter := false;
      failures, requestsWritten := failures + Recorded(failure), requestsWritten + AsNat(failure == None);
      match failure
      case Some(e) => OnRequestError(e);
      case None => OnRequestWritten();
    }

    method OnRequestWritten()
      requires outputState == WritingRequest && InputOk() && FailuresOk() && results == []
      requires !requestWriter && !eomWriter && eomsWritten == 0 && requestsWritten == 1
      modifies this
      ensures Valid() && Phases() < old(Phases()) && failures == old(failures)
    {
      outputState := WritingEom;
      StartEomWriter();
    }

    method OnRequestError(e: Exception)
      requires outputState == WritingRequest && InputOk() && ex == None && failures == [e] && results == []
      requires !requestWriter && !eomWriter && eomsWritten == 0 && requestsWritten == 0
      modifies this
      ensures Valid() && Phases() < old(Phases())
      ensures failures == old(failures)
    {
      if ex == None {
        ex := Some(e);
      }
      if inputState == InputNotStarted || inputState == ReadingReply {
        // skip or cancel reply reading
        replyReader := false;
        inputState := DrainingMessage;
        StartMessageDrainer();
      }
      assert outputState == WritingRequest;
      outputState := WritingEom;
      StartEomWriter();
    }

    method StartEomWriter()
      requires outputState == WritingEom && !requestWriter && !eomWriter && eomsWritten == 0 && results == []
      requires FailuresOk() && WrittenOrFailed()
      modifies this`outputState, this`eomWriter, this`eomsWritten, this`results, this`inStatus, this`outStatus
      ensures OutputOk() && outputState in {WritingEom, OutputDone}
      ensures ResultOk()
    {
      eomWriter := true;
      var completes: bool := *;
      if completes {
        CompleteEomWriter();
      }
    }

    method CompleteEomWriter()
      requires outputState == WritingEom && !requestWriter && eomWriter && eomsWritten == 0 && results == []
      requires FailuresOk() && WrittenOrFailed()
      modifies this`outputState, this`eomWriter, this`eomsWritten, this`results, this`inStatus, this`outStatus
      ensures OutputOk() && outputState == OutputDone
      ensures ResultOk()
    {
      PerformIo();
      eomWriter, eomsWritten := false, eomsWritten + 1;
      OnEomWritten();
    }

    method OnEomWritten()
      requires outputState == WritingEom && results == []
      requires FailuresOk()
      modifies this`outputState, this`results
      ensures outputState == OutputDone
      ensures ResultOk()
    {
      assert outputState == WritingEom;
      outputState := OutputDone;
      if inputState == InputDone {
        OnDone();
      }
    }

    method OnDone()
      requires inputState == InputDone && outputState == OutputDone && results == []
      requires FailuresOk()
      modifies this`results
      ensures ResultOk()
    {
      var result;
      if outStatus != 0 {
        result := OutputError(outStatus);
      } else if inStatus != 0 {
        result := InputError(inStatus);
      } else if ex.Some? {
        result := Thrown(ex.value);
      } else {
        result := Success;
      }
      results := results + [result];
    }

    /** One of the subroutines that are running completes. */
    method SomeCallback()
      requires Valid() && !Quiet()
      modifies this
      ensures Valid() && Phases() < old(Phases())
    {
      var input: bool := *;
      var failure := AnyFailure();
      if (replyReader || drainer) && (input || !(requestWriter || eomWriter)) {
        if replyReader {
          CompleteReplyReader(failure);
        } else {
          CompleteDrainer();
        }
      } else {
        if requestWriter {
          CompleteRequestWriter(failure);
        } else {
          CompleteEomWriter();
        }
      }
    }

    /**
     A whole call, with the callbacks in any order: it reports exactly one result, after one end
     of message has been written and the reply has been drained.
     */
    method Call()
      requires Quiet()
      modifies this
      ensures Valid() && Quiet() && inputState == InputDone && outputState == OutputDone
      ensures results == [Report(outStatus, inStatus, failures)]
      ensures eomsWritten == 1 && drains == 1 && repliesRead <= 1 && requestsWritten <= 1
      ensures failures == [] ==> repliesRead == 1 && requestsWritten == 1
    {
      Start();
      while !Quiet()
        invariant Valid()
        decreases Phases()
      {
        SomeCallback();
      }
    }
  }
}
