/**
 One remote call: the server's request handler, the client's reply reader, and what they
 achieve together.

 The readers and writers that the handler starts are used here by what they compute, which is what `AsyncReaders` and
 `AsyncWriters` prove of them for every pattern of suspension.
 */
module RequestHandling {
  import opened Wrappers
  import opened Bytes
  import opened Wire
  import opened WireRoundTrip
  import opened WireExceptions
  import opened WireFraming

  /** What a method does on one occasion: it reads arguments, writes results, and then returns or throws. */
  datatype Op = ReadArg(t: Type) | WriteResult(v: Value, t: Type)
  datatype Method = Method(ops: seq<Op>, thrown: Option<seq<Byte>>, within: Within)

  /** A method may throw between two results, or when `k` tokens of a result are written. */
  datatype Within = Between | Inside(v: Value, t: Type, k: nat)

  /** How a method ended; `written` are the results it has written so far, and `cut` the start of one more. */
  datatype Ran = Ran(failure: Option<seq<Byte>>, rest: seq<Byte>, written: seq<Value>, cut: seq<Byte>)

  /** The reply to one request, and the input that is left. */
  datatype Reply = Reply(written: seq<Value>, cut: seq<Byte>, failure: Option<Error>, rest: seq<Byte>)

  predicate ProperOp(op: Op) {
    op.WriteResult? ==> HasType(op.v, op.t)
  }

  predicate ProperWithin(within: Within) {
    within.Inside? ==> HasType(within.v, within.t) && within.k < |Tokens(within.v)|
  }

  ghost predicate ProperMethod(m: Method) {
    (forall k :: 0 <= k < |m.ops| ==> ProperOp(m.ops[k])) && ProperWithin(m.within)
  }

  /** The tokens that are written of a result when a method throws. */
  function CutText(within: Within): seq<Byte> {
    if within.Inside? && within.k <= |Tokens(within.v)| then Flatten(Tokens(within.v)[..within.k]) else []
  }

  ghost predicate ProperMap(methods: map<seq<Byte>, Method>) {
    forall name :: name in methods ==> ProperMethod(methods[name])
  }

  const BAD_REQUEST: seq<Byte> := Ascii("bad_request")
  const METHOD_FAILED: seq<Byte> := Ascii("method_failed")
  const COLON: Byte := 58

  /** `what` stands for the texts of the exceptions, which are arbitrary. */
  type Texts = Error -> seq<Byte>

  function Run(what: Texts, m: Method, s: seq<Byte>, written: seq<Value>): (r: Ran)
    decreases |m.ops|
  {
    if m.ops == [] then Ran(m.thrown, s, written, if m.thrown.Some? then CutText(m.within) else [])
    else
      var others := m.(ops := m.ops[1..]);
      match m.ops[0]
      case WriteResult(v, _) => Run(what, others, s, written + [v])
      case ReadArg(t) =>
        match Parse(t, s)
        case Ok(_, rest) => Run(what, others, rest, written)
        case Err(e, rest) => Ran(Some(what(e)), rest, written, [])
  }

  function Describe(name: Option<seq<Byte>>, text: seq<Byte>): seq<Byte> {
    (if name.Some? then name.value + [COLON, SPACE] else []) + text
  }

  /** The method, or the failure that is reported when there is no such method. */
  function Dispatch(what: Texts, methods: map<seq<Byte>, Method>, name: seq<Byte>): Method {
    if name in methods then methods[name] else Method([], Some(what(ParseError(MethodNotFound))), Between)
  }

  /** What the request handler does with the request at the front of `s`. */
  function Handle(what: Texts, methods: map<seq<Byte>, Method>, s: seq<Byte>): Reply {
    match Parse(TIdent, s)
    case Err(e, rest) => Reply([], [], Some(Remote(BAD_REQUEST, Describe(None, what(e)))), Drain(rest))
    case Ok(v, rest) =>
      var name := if v.VIdent? then v.name else [];
      Concluded(what, name, Run(what, Dispatch(what, methods, name), rest, []))
  }

  /** The reply when the method has ended. */
  function Concluded(what: Texts, name: seq<Byte>, ran: Ran): Reply {
    if ran.failure.Some? then
      Reply(ran.written, ran.cut, Some(Remote(METHOD_FAILED, Describe(Some(name), ran.failure.value))), Drain(ran.rest))
    else
      match CheckEndOfMessage(ran.rest)
      case Ok(_, rest) => Reply(ran.written, [], None, Drain(rest))
      case Err(e, rest) => Reply(ran.written, [], Some(Remote(BAD_REQUEST, Describe(Some(name), what(e)))), Drain(rest))
  }

  /** The bytes of a reply. */
  function ReplyText(reply: Reply): seq<Byte> {
    PrintAll(reply.written) + reply.cut
      + (if reply.failure.Some? && reply.failure.value.Remote?
         then PrintException(reply.failure.value.kind, reply.failure.value.description) else [])
      + [NEWLINE]
  }

  // ---- the request handler as an object ----

  class RequestHandler {
    const what: Texts
    const methods: map<seq<Byte>, Method>
    var input: seq<Byte>
    var output: seq<Byte>
    var methodName: Option<seq<Byte>>
    var submissions: nat

    constructor (what: Texts, methods: map<seq<Byte>, Method>, input: seq<Byte>)
      ensures this.what == what && this.methods == methods && this.input == input && output == [] && submissions == 0
    {
      this.what, this.methods, this.input := what, methods, input;
      output, methodName, submissions := [], None, 0;
    }

    /** Handles one request, whatever goes wrong, and submits exactly once. */
    method Start()
      modifies this
      ensures var reply := old(Handle(what, methods, input));
              output == old(output) + ReplyText(reply) && input == reply.rest
      ensures submissions == old(submissions) + 1
    {
      methodName := None;
      match Parse(TIdent, input)
      case Ok(v, rest) =>
        input := rest;
        StartMethod(if v.VIdent? then v.name else []);
      case Err(e, rest) =>
        input := rest;
        assert output == output + (PrintAll([]) + []);
        ReportFailure(BAD_REQUEST, what(e));
        Associate(old(output), PrintAll([]) + [], PrintException(BAD_REQUEST, Describe(None, what(e))), [NEWLINE]);
    }

    method StartMethod(name: seq<Byte>)
      modifies this
      ensures var ran := old(Run(what, Dispatch(what, methods, name), input, []));
              Finished(old(output), ran.written, Concluded(what, name, ran), output, input)
      ensures submissions == old(submissions) + 1
    {
      methodName := Some(name);
      var ran := Run(what, Dispatch(what, methods, name), input, []);
      input, output := ran.rest, output + (PrintAll(ran.written) + ran.cut);
      if ran.failure.Some? {
        ReportFailure(METHOD_FAILED, ran.failure.value);
        Associate(old(output), PrintAll(ran.written) + ran.cut,
                  PrintException(METHOD_FAILED, Describe(Some(name), ran.failure.value)), [NEWLINE]);
      } else {
        RanWhole(what, Dispatch(what, methods, name), old(input), []);
        assert PrintAll(ran.written) + ran.cut == PrintAll(ran.written) + [];
        OnMethodSucceeded(name);
        match CheckEndOfMessage(ran.rest)
        case Ok(_, _) => Associate(old(output), PrintAll(ran.written) + [], [], [NEWLINE]);
        case Err(e, _) =>
          Associate(old(output), PrintAll(ran.written) + [],
                    PrintException(BAD_REQUEST, Describe(Some(name), what(e))), [NEWLINE]);
      }
    }

    ghost predicate Finished(before: seq<Byte>, written: seq<Value>, reply: Reply, after: seq<Byte>, rest: seq<Byte>) {
      after == before + ReplyText(reply) && rest == reply.rest
    }

    method OnMethodSucceeded(name: seq<Byte>)
      requires methodName == Some(name)
      modifies this
      ensures match old(CheckEndOfMessage(input))
              case Ok(_, rest) => output == old(output) + [NEWLINE] && input == Drain(rest)
              case Err(e, rest) =>
                output == old(output) + PrintException(BAD_REQUEST, Describe(Some(name), what(e))) + [NEWLINE]
                    && input == Drain(rest)
      ensures submissions == old(submissions) + 1
    {
      match CheckEndOfMessage(input)
      case Ok(_, rest) =>
        input := rest;
        WriteEndOfMessage();
      case Err(e, rest) =>
        input := rest;
        ReportFailure(BAD_REQUEST, what(e));
    }

    method ReportFailure(kind: seq<Byte>, text: seq<Byte>)
      modifies this
      ensures output == old(output) + PrintException(kind, Describe(old(methodName), text)) + [NEWLINE]
      ensures input == Drain(old(input)) && submissions == old(submissions) + 1
    {
      output := output + PrintException(kind, Describe(methodName, text));
      WriteEndOfMessage();
    }

    method WriteEndOfMessage()
      modifies this
      ensures output == old(output) + [NEWLINE] && input == Drain(old(input)) && submissions == old(submissions) + 1
    {
      output := output + [NEWLINE];
      DrainRequest();
    }

    method DrainRequest()
      modifies this`input, this`submissions
      ensures input == Drain(old(input)) && submissions == old(submissions) + 1
    {
      while input != [] && input[0] != NEWLINE
        invariant Drain(input) == Drain(old(input)) && submissions == old(submissions)
        decreases |input|
      {
        input := input[1..];
      }
      assert Drain(input) == if input == [] then [] else input[1..];
      if input != [] {
        input := input[1..];
      }
      submissions := submissions + 1;
    }
  }

  lemma Associate(a: seq<Byte>, b: seq<Byte>, c: seq<Byte>, d: seq<Byte>)
    ensures a + b + c + d == a + (b + c + d)
    ensures c == [] ==> a + b + d == a + (b + c + d)
  {
  }

  /** Only a method that fails leaves a result that is not complete. */
  lemma {:induction false} RanWhole(what: Texts, m: Method, s: seq<Byte>, written: seq<Value>)
    ensures Run(what, m, s, written).failure == None ==> Run(what, m, s, written).cut == []
    decreases |m.ops|
  {
    if m.ops != [] {
      var others := m.(ops := m.ops[1..]);
      match m.ops[0]
      case WriteResult(v, _) => RanWhole(what, others, s, written + [v]);
      case ReadArg(t) => if Parse(t, s).Ok? { RanWhole(what, others, Parse(t, s).rest, written); }
    }
  }

  // ---- framing of requests and replies ----

  lemma {:induction false} RunFramed(what: Texts, m: Method, s: seq<Byte>, written: seq<Value>, more: seq<Byte>)
    ensures var ran := Run(what, m, s, written);
            && Leaves(s, ran.rest)
            && (OneLine(s) ==> Run(what, m, s + more, written) == ran.(rest := ran.rest + more))
    decreases |m.ops|
  {
    OneStep(s, more);
    if m.ops != [] {
      var others := m.(ops := m.ops[1..]);
      match m.ops[0]
      case WriteResult(v, _) => RunFramed(what, others, s, written + [v], more);
      case ReadArg(t) =>
        ParseFramed(t, s, more);
        match Parse(t, s)
        case Err(_, _) =>
        case Ok(_, rest) =>
          if OneLine(s) { LineStaysOpen(s, rest); }
          RunFramed(what, others, rest, written, more);
          LeavesTransitive(s, rest, Run(what, others, rest, written).rest);
    }
  }

  lemma DrainAfter(s: seq<Byte>, rest: seq<Byte>, more: seq<Byte>)
    requires Leaves(s, rest)
    ensures OneLine(s) ==> Drain(rest + more) == more
    ensures NEWLINE !in s ==> Drain(rest) == []
  {
    if OneLine(s) { LineStaysOpen(s, rest); }
    assert Opened(true);
    DrainEndsMessage(rest, more);
  }

  /** The part of the handler that runs once the method name has been read. */
  lemma AfterNameFramed(what: Texts, m: Method, s: seq<Byte>, more: seq<Byte>)
    requires OneLine(s)
    ensures var ran, ran' := Run(what, m, s, []), Run(what, m, s + more, []);
            && ran' == ran.(rest := ran.rest + more)
            && Drain(ran'.rest) == more
            && CheckEndOfMessage(ran'.rest) == Extend(CheckEndOfMessage(ran.rest), more)
            && Drain(CheckEndOfMessage(ran'.rest).rest) == more
  {
    var ran := Run(what, m, s, []);
    RunFramed(what, m, s, [], more);
    DrainAfter(s, ran.rest, more);
    LineStaysOpen(s, ran.rest);
    EndOfMessageFramed(ran.rest, more);
    DrainAfter(ran.rest, CheckEndOfMessage(ran.rest).rest, more);
  }

  /**
   Requests are independent: the reply to a request depends on its own line only, and the
   handler leaves exactly what follows that line, whatever failure route it takes.
   */
  lemma HandlerStaysInStep(what: Texts, methods: map<seq<Byte>, Method>, line: seq<Byte>, more: seq<Byte>)
    requires OneLine(line)
    ensures Handle(what, methods, line + more) == Handle(what, methods, line).(rest := more)
    ensures Handle(what, methods, line).rest == []
  {
    AtLine(what, methods, line, more);
    AtLine(what, methods, line, []);
    assert line + [] == line;
  }

  lemma AtLine(what: Texts, methods: map<seq<Byte>, Method>, line: seq<Byte>, more: seq<Byte>)
    requires OneLine(line)
    ensures Handle(what, methods, line + more).rest == more
    ensures Handle(what, methods, line + more).(rest := []) == Handle(what, methods, line).(rest := [])
  {
    ParseFramed(TIdent, line, more);
    match Parse(TIdent, line)
    case Err(_, rest) => DrainAfter(line, rest, more);
    case Ok(v, rest) =>
      LineStaysOpen(line, rest);
      AfterNameFramed(what, Dispatch(what, methods, if v.VIdent? then v.name else []), rest, more);
  }

  lemma EndsAtEof(s: seq<Byte>, rest: seq<Byte>)
    requires NEWLINE !in s && Leaves(s, rest)
    ensures Drain(rest) == [] && NEWLINE !in rest
  {
    DrainAfter(s, rest, []);
    assert Opened(true);
  }

  /** If the input ends in the middle of a request, the handler consumes all of it. */
  lemma HandlerStopsAtEof(what: Texts, methods: map<seq<Byte>, Method>, s: seq<Byte>)
    requires NEWLINE !in s
    ensures Handle(what, methods, s).rest == []
  {
    ParseFramed(TIdent, s, []);
    EndsAtEof(s, Parse(TIdent, s).rest);
    match Parse(TIdent, s)
    case Err(_, _) =>
    case Ok(v, rest) =>
      var name := if v.VIdent? then v.name else [];
      MethodStopsAtEof(what, name, Dispatch(what, methods, name), rest);
  }

  lemma MethodStopsAtEof(what: Texts, name: seq<Byte>, m: Method, s: seq<Byte>)
    requires NEWLINE !in s
    ensures Concluded(what, name, Run(what, m, s, [])).rest == []
  {
    var rest := Run(what, m, s, []).rest;
    RunFramed(what, m, s, [], []);
    EndsAtEof(s, rest);
    EndOfMessageFramed(rest, []);
    EndsAtEof(rest, CheckEndOfMessage(rest).rest);
  }

  ghost predicate Printable(v: Value) {
    exists t :: HasType(v, t)
  }

  ghost predicate AllPrintable(vs: seq<Value>) {
    forall k :: 0 <= k < |vs| ==> Printable(vs[k])
  }

  lemma CutHasNoNewline(within: Within)
    requires ProperWithin(within)
    ensures NEWLINE !in CutText(within)
  {
    if within.Inside? {
      var tokens, k := Tokens(within.v), within.k;
      assert tokens == tokens[..k] + tokens[k..];
      FlattenAppend(tokens[..k], tokens[k..]);
      FlattenTokens(within.v);
      PrintHasNoNewline(within.v, within.t);
    }
  }

  lemma {:induction false} RunWritesValues(what: Texts, m: Method, s: seq<Byte>, written: seq<Value>)
    requires ProperMethod(m) && AllPrintable(written)
    ensures AllPrintable(Run(what, m, s, written).written) && NEWLINE !in Run(what, m, s, written).cut
    decreases |m.ops|
  {
    CutHasNoNewline(m.within);
    if m.ops != [] {
      var others := m.(ops := m.ops[1..]);
      match m.ops[0]
      case WriteResult(v, t) =>
        assert ProperOp(m.ops[0]) && Printable(v);
        RunWritesValues(what, others, s, written + [v]);
      case ReadArg(t) =>
        if Parse(t, s).Ok? { RunWritesValues(what, others, Parse(t, s).rest, written); }
    }
  }

  lemma {:induction false} PrintableHasNoNewline(vs: seq<Value>)
    requires AllPrintable(vs)
    ensures NEWLINE !in PrintAll(vs)
  {
    if vs != [] {
      assert Printable(vs[0]);
      var t :| HasType(vs[0], t);
      PrintHasNoNewline(vs[0], t);
      PrintableHasNoNewline(vs[1..]);
    }
  }

  lemma KindsAreIdentifiers()
    ensures IsIdentifier(BAD_REQUEST) && IsIdentifier(METHOD_FAILED)
  {
  }

  /** Every reply is one line: the handler emits exactly one newline, at the end. */
  lemma ReplyIsOneLine(what: Texts, methods: map<seq<Byte>, Method>, s: seq<Byte>)
    requires ProperMap(methods)
    ensures OneLine(ReplyText(Handle(what, methods, s)))
  {
    var reply := Handle(what, methods, s);
    match Parse(TIdent, s) {
      case Err(_, _) =>
      case Ok(v, rest) =>
        RunWritesValues(what, Dispatch(what, methods, if v.VIdent? then v.name else []), rest, []);
    }
    PrintableHasNoNewline(reply.written);
    KindsAreIdentifiers();
    if reply.failure.Some? {
      ExceptionHasNoNewline(reply.failure.value.kind, reply.failure.value.description);
    }
    EndsLine(PrintAll(reply.written) + reply.cut, if reply.failure.Some?
               then PrintException(reply.failure.value.kind, reply.failure.value.description) else []);
  }

  lemma EndsLine(a: seq<Byte>, b: seq<Byte>)
    requires NEWLINE !in a && NEWLINE !in b
    ensures OneLine(a + b + [NEWLINE])
  {
    var text := a + b + [NEWLINE];
    assert text[..|text| - 1] == a + b;
  }

  function JoinLines(lines: seq<seq<Byte>>): seq<Byte> {
    if lines == [] then [] else lines[0] + JoinLines(lines[1..])
  }

  /**
   The replies to the requests on a connection, handled one after the other; `occasions` is what the methods do on each
   of them, which may depend on anything.
   */
  function Serve(what: Texts, occasions: seq<map<seq<Byte>, Method>>, s: seq<Byte>): (replies: seq<seq<Byte>>)
    ensures |replies| == |occasions|
  {
    if occasions == [] then []
    else
      var reply := Handle(what, occasions[0], s);
      [ReplyText(reply)] + Serve(what, occasions[1..], reply.rest)
  }

  ghost predicate AllOneLine(lines: seq<seq<Byte>>) {
    forall i :: 0 <= i < |lines| ==> OneLine(lines[i])
  }

  lemma ServeOne(what: Texts, occasions: seq<map<seq<Byte>, Method>>, line: seq<Byte>, more: seq<Byte>)
    requires OneLine(line) && occasions != []
    ensures Serve(what, occasions, line + more)
            == [ReplyText(Handle(what, occasions[0], line))] + Serve(what, occasions[1..], more)
  {
    HandlerStaysInStep(what, occasions[0], line, more);
  }

  /**
   On one connection, the k-th reply is the reply to the k-th request, and depends on nothing but its line and what
   the method does on that occasion.
   */
  lemma {:induction false} RepliesMatchRequests(what: Texts, occasions: seq<map<seq<Byte>, Method>>,
                                                lines: seq<seq<Byte>>, k: nat)
    requires AllOneLine(lines) && |occasions| == |lines| && k < |lines|
    ensures Serve(what, occasions, JoinLines(lines))[k] == ReplyText(Handle(what, occasions[k], lines[k]))
    decreases |lines|
  {
    var others, later := lines[1..], occasions[1..];
    ServeOne(what, occasions, lines[0], JoinLines(others));
    if k > 0 {
      RepliesMatchRequests(what, later, others, k - 1);
      LaterReply(ReplyText(Handle(what, occasions[0], lines[0])), Serve(what, later, JoinLines(others)), k);
    }
  }

  lemma LaterReply(first: seq<Byte>, replies: seq<seq<Byte>>, k: nat)
    requires 0 < k <= |replies|
    ensures ([first] + replies)[k] == replies[k - 1]
  {
  }

  // ---- the client, and the whole call ----

  /** The request that the client's request writer emits. */
  function RequestText(name: seq<Byte>, args: seq<Value>): seq<Byte> {
    Print(VIdent(name)) + PrintAll(args) + [NEWLINE]
  }

  /** The client's reply reader: the results, one after the other, and then the end of the message. */
  function ReadReply(types: seq<Type>, acc: seq<Value>, s: seq<Byte>): Parsed<seq<Value>>
    decreases |types|
  {
    if types == [] then
      match CheckEndOfMessage(s)
      case Ok(_, rest) => Ok(acc, rest)
      case Err(e, rest) => Err(e, rest)
    else
      match Parse(types[0], s)
      case Ok(v, rest) => ReadReply(types[1..], acc + [v], rest)
      case Err(e, rest) => Err(e, rest)
  }

  lemma ReplySkipsSpace(types: seq<Type>, acc: seq<Value>, s: seq<Byte>)
    ensures ReadReply(types, acc, [SPACE] + s) == ReadReply(types, acc, s)
  {
    SpaceIsSkipped(TBool, s);
    if types != [] { SpaceIsSkipped(types[0], s); }
  }

  /** The results that were written are read, and the reader goes on with what follows them. */
  lemma {:induction false} ReplyPrefix(types: seq<Type>, acc: seq<Value>, vs: seq<Value>, tail: seq<Byte>)
    requires |vs| <= |types| && HaveTypes(vs, types[..|vs|])
    ensures ReadReply(types, acc, PrintAll(vs) + tail) == ReadReply(types[|vs|..], acc + vs, tail)
    decreases |types|
  {
    if vs == [] {
      assert PrintAll(vs) + tail == tail && acc + vs == acc && types[0..] == types;
    } else {
      var after := PrintAll(vs[1..]) + tail;
      assert PrintAll(vs) + tail == Print(vs[0]) + after;
      assert types[..|vs|][1..] == types[1..][..|vs| - 1];
      RoundTrip(vs[0], types[0], after);
      ReplySkipsSpace(types[1..], acc + [vs[0]], after);
      ReplyPrefix(types[1..], acc + [vs[0]], vs[1..], tail);
      assert acc + [vs[0]] + vs[1..] == acc + vs && types[1..][|vs| - 1..] == types[|vs|..];
    }
  }

  /** The client expects `types`, and the results are of these types as far as they go. */
  ghost predicate Expected(written: seq<Value>, within: Within, failed: bool, types: seq<Type>) {
    && |written| <= |types| && HaveTypes(written, types[..|written|])
    && ProperWithin(within) && (within.Inside? ==> failed && |written| < |types| && within.t == types[|written|])
    && (!failed ==> |written| == |types|)
  }

  /**
   The outcome of a call reaches the client: a complete reply yields exactly the results, and a failure, reported after
   any number of results, or after any token of one, yields exactly that remote error.
   */
  lemma ClientSeesOutcome(reply: Reply, within: Within, types: seq<Type>)
    requires Expected(reply.written, within, reply.failure.Some?, types) && reply.cut == CutText(within)
    requires reply.failure.Some? ==> reply.failure.value.Remote? && IsIdentifier(reply.failure.value.kind)
    ensures reply.failure == None ==> ReadReply(types, [], ReplyText(reply)) == Ok(reply.written, [NEWLINE])
    ensures reply.failure.Some? ==> ReadReply(types, [], ReplyText(reply)) == Err(reply.failure.value, [SPACE, NEWLINE])
  {
    if reply.failure == None {
      CompleteReply(reply, types);
    } else {
      FailedReply(reply.written, within, types, reply.failure.value.kind, reply.failure.value.description);
      var exception := PrintException(reply.failure.value.kind, reply.failure.value.description);
      assert ReplyText(reply) == PrintAll(reply.written) + (reply.cut + (exception + [NEWLINE]));
    }
  }

  lemma CompleteReply(reply: Reply, types: seq<Type>)
    requires Expected(reply.written, Between, false, types) && reply.failure == None && reply.cut == []
    ensures ReadReply(types, [], ReplyText(reply)) == Ok(reply.written, [NEWLINE])
  {
    var written := reply.written;
    assert ReplyText(reply) == PrintAll(written) + [NEWLINE];
    ReplyPrefix(types, [], written, [NEWLINE]);
    assert [] + written == written && ToToken([NEWLINE]) == Ok((), [NEWLINE]);
  }

  lemma FailedReply(written: seq<Value>, within: Within, types: seq<Type>, kind: seq<Byte>, description: seq<Byte>)
    requires Expected(written, within, true, types) && IsIdentifier(kind)
    ensures ReadReply(types, [],
                      PrintAll(written) + (CutText(within) + (PrintException(kind, description) + [NEWLINE])))
            == Err(Remote(kind, description), [SPACE, NEWLINE])
  {
    var exception, n := PrintException(kind, description) + [NEWLINE], |written|;
    ReplyPrefix(types, [], written, CutText(within) + exception);
    match within
    case Between =>
      assert CutText(within) + exception == exception;
      MarkerRaises(kind, description, [NEWLINE]);
    case Inside(v, t, k) =>
      ExceptionReachesReader(v, t, k, kind, description, [NEWLINE]);
      assert CutText(within) + exception == CutOff(Tokens(v), k, exception);
      assert types[n..][0] == t;
  }

  function ArgTypes(ops: seq<Op>): seq<Type> {
    if ops == [] then [] else (if ops[0].ReadArg? then [ops[0].t] else []) + ArgTypes(ops[1..])
  }

  function Results(ops: seq<Op>): seq<Value> {
    if ops == [] then [] else (if ops[0].WriteResult? then [ops[0].v] else []) + Results(ops[1..])
  }

  function ResultTypes(ops: seq<Op>): seq<Type> {
    if ops == [] then [] else (if ops[0].WriteResult? then [ops[0].t] else []) + ResultTypes(ops[1..])
  }

  lemma {:induction false} ResultsHaveTypes(ops: seq<Op>)
    requires forall k :: 0 <= k < |ops| ==> ProperOp(ops[k])
    ensures HaveTypes(Results(ops), ResultTypes(ops)) && |Results(ops)| == |ResultTypes(ops)|
  {
    if ops != [] {
      ResultsHaveTypes(ops[1..]);
      assert ProperOp(ops[0]);
      if ops[0].WriteResult? {
        assert Results(ops)[1..] == Results(ops[1..]) && ResultTypes(ops)[1..] == ResultTypes(ops[1..]);
      } else {
        assert Results(ops) == Results(ops[1..]) && ResultTypes(ops) == ResultTypes(ops[1..]);
      }
    }
  }

  /** What is left of a request: arguments, and what follows them, maybe behind the space of the previous argument. */
  predicate IsRest(args: seq<Value>, tail: seq<Byte>, s: seq<Byte>) {
    s == PrintAll(args) + tail || s == [SPACE] + (PrintAll(args) + tail)
  }

  lemma ArgumentRead(what: Texts, m: Method, args: seq<Value>, ts: seq<Type>, tail: seq<Byte>, written: seq<Value>,
                     s: seq<Byte>)
    requires m.ops != [] && m.ops[0].ReadArg? && HaveTypes(args, [m.ops[0].t] + ts) && IsRest(args, tail, s)
    ensures args != [] && HaveTypes(args[1..], ts)
    ensures Run(what, m, s, written) == Run(what, m.(ops := m.ops[1..]), [SPACE]
            + (PrintAll(args[1..]) + tail), written)
  {
    var t, rest := m.ops[0].t, PrintAll(args[1..]) + tail;
    assert ([t] + ts)[1..] == ts;
    assert PrintAll(args) + tail == Print(args[0]) + rest;
    SpaceIsSkipped(t, PrintAll(args) + tail);
    RoundTrip(args[0], t, rest);
  }

  /**
   A method that is given well-typed arguments for its first `n` operations reads them all, in whatever order it
   interleaves reading and writing, and goes on with what follows them.
   */
  lemma {:induction false} RunReadsArguments(what: Texts, m: Method, n: nat, args: seq<Value>, tail: seq<Byte>,
                                             written: seq<Value>, s: seq<Byte>) returns (rest: seq<Byte>)
    requires n <= |m.ops| && HaveTypes(args, ArgTypes(m.ops[..n])) && IsRest(args, tail, s)
    ensures rest == tail || rest == [SPACE] + tail
    ensures Run(what, m, s, written) == Run(what, m.(ops := m.ops[n..]), rest, written + Results(m.ops[..n]))
    decreases n
  {
    if n == 0 {
      assert PrintAll(args) + tail == tail && written + [] == written && m.ops[0..] == m.ops && m.ops[..0] == [];
      rest := s;
    } else {
      var others := m.(ops := m.ops[1..]);
      FirstOfPrefix(m.ops, n);
      match m.ops[0]
      case WriteResult(v, t) =>
        rest := RunReadsArguments(what, others, n - 1, args, tail, written + [v], s);
        assert (written + [v]) + Results(others.ops[..n - 1]) == written + Results(m.ops[..n]);
      case ReadArg(t) =>
        ArgumentRead(what, m, args, ArgTypes(others.ops[..n - 1]), tail, written, s);
        rest := RunReadsArguments(what, others, n - 1, args[1..], tail, written, [SPACE]
            + (PrintAll(args[1..]) + tail));
    }
  }

  lemma FirstOfPrefix(ops: seq<Op>, n: nat)
    requires 0 < n <= |ops|
    ensures ops[1..][n - 1..] == ops[n..]
    ensures var fewer := ops[1..][..n - 1];
            if ops[0].ReadArg? then ArgTypes(ops[..n]) == [ops[0].t] + ArgTypes(fewer)
                && Results(ops[..n]) == Results(fewer)
            else ArgTypes(ops[..n]) == ArgTypes(fewer) && Results(ops[..n]) == [ops[0].v] + Results(fewer)
  {
    assert ops[..n][1..] == ops[1..][..n - 1];
  }

  /** How a method ends that is given all its arguments: what follows them is left, behind a space or not. */
  lemma RunEnds(what: Texts, m: Method, args: seq<Value>, tail: seq<Byte>) returns (rest: seq<Byte>)
    requires HaveTypes(args, ArgTypes(m.ops))
    ensures rest == tail || rest == [SPACE] + tail
    ensures Run(what, m, [SPACE] + (PrintAll(args) + tail), [])
            == Ran(m.thrown, rest, Results(m.ops), if m.thrown.Some? then CutText(m.within) else [])
  {
    assert m.ops[..|m.ops|] == m.ops;
    rest := RunReadsArguments(what, m, |m.ops|, args, tail, [], [SPACE] + (PrintAll(args) + tail));
    assert [] + Results(m.ops) == Results(m.ops);
  }

  /** What the handler makes of a method that has read all its arguments. */
  lemma MethodConcludes(what: Texts, name: seq<Byte>, m: Method, args: seq<Value>)
    requires HaveTypes(args, ArgTypes(m.ops))
    ensures var reply := Concluded(what, name, Run(what, m, [SPACE] + (PrintAll(args) + [NEWLINE]), []));
            && reply.written == Results(m.ops) && reply.cut == (if m.thrown.Some? then CutText(m.within) else [])
            && reply.failure == if m.thrown == None then None
               else Some(Remote(METHOD_FAILED, Describe(Some(name), m.thrown.value)))
  {
    var rest := RunEnds(what, m, args, [NEWLINE]);
    assert CheckEndOfMessage(rest) == Ok((), [NEWLINE]) by {
      assert ToToken([NEWLINE]) == Ok((), [NEWLINE]);
      SpaceIsSkipped(TBool, [NEWLINE]);
    }
  }

  /**
   The remote call: for every method that the server knows and every well-typed argument list, what the client reads
   from the server's reply to its request is exactly what the method wrote, or, if the method throws, wherever it does
   so, exactly the remote error with the method's name and text. A client of a method that throws may expect more
   results.
   */
  lemma CallWorks(what: Texts, methods: map<seq<Byte>, Method>, name: seq<Byte>, args: seq<Value>, types: seq<Type>)
    requires IsIdentifier(name) && name in methods && ProperMethod(methods[name])
    requires HaveTypes(args, ArgTypes(methods[name].ops)) && Expects(types, methods[name])
    ensures var m := methods[name];
            ReadReply(types, [], ReplyText(Handle(what, methods, RequestText(name, args))))
            == match m.thrown
               case None => Ok(Results(m.ops), [NEWLINE])
               case Some(text) => Err(Remote(METHOD_FAILED, name + [COLON, SPACE] + text), [SPACE, NEWLINE])
  {
    var m := methods[name];
    var request := RequestText(name, args);
    var tail := PrintAll(args) + [NEWLINE];
    assert request == Print(VIdent(name)) + tail;
    RoundTrip(VIdent(name), TIdent, tail);
    MethodConcludes(what, name, m, args);
    var reply := Handle(what, methods, request);
    assert reply == Concluded(what, name, Run(what, m, [SPACE] + tail, []));
    ExpectedResults(types, m);
    KindsAreIdentifiers();
    ClientSeesOutcome(reply, if m.thrown.Some? then m.within else Between, types);
  }

  /** The client expects what the method writes; only if the method throws it may expect more. */
  ghost predicate Expects(types: seq<Type>, m: Method) {
    if m.thrown == None then types == ResultTypes(m.ops)
    else ResultTypes(m.ops) + (if m.within.Inside? then [m.within.t] else []) <= types
  }

  lemma ExpectedResults(types: seq<Type>, m: Method)
    requires ProperMethod(m) && Expects(types, m)
    ensures Expected(Results(m.ops), if m.thrown.Some? then m.within else Between, m.thrown.Some?, types)
  {
    ResultsHaveTypes(m.ops);
    var all := ResultTypes(m.ops);
    assert types[..|all|] == all;
    if m.thrown.Some? && m.within.Inside? {
      assert types[|all|] == (all + [m.within.t])[|all|];
    }
  }
}
