/** What the client reads when a request is in error: the other half of the remote call. */
module RequestFailures {
  import opened Bytes
  import opened Wire
  import opened WireRoundTrip
  import opened WireGrammar
  import opened RequestHandling
  import opened Wrappers

  /** What the client makes of the server's reply, when it expects results of these types. */
  function Answer(what: Texts, methods: map<seq<Byte>, Method>, types: seq<Type>, request: seq<Byte>)
    : Parsed<seq<Value>>
  {
    ReadReply(types, [], ReplyText(Handle(what, methods, request)))
  }

  function Fails(kind: seq<Byte>, text: seq<Byte>): Parsed<seq<Value>> {
    Err(Remote(kind, text), [SPACE, NEWLINE])
  }

  /** A reply without results, or with those that were written before the failure. */
  ghost predicate FailsWith(reply: Reply, types: seq<Type>, kind: seq<Byte>, text: seq<Byte>) {
    && reply.failure == Some(Remote(kind, text)) && reply.cut == [] && IsIdentifier(kind)
    && |reply.written| <= |types| && HaveTypes(reply.written, types[..|reply.written|])
  }

  lemma FailureIsRead(reply: Reply, types: seq<Type>, kind: seq<Byte>, text: seq<Byte>)
    requires FailsWith(reply, types, kind, text)
    ensures ReadReply(types, [], ReplyText(reply)) == Fails(kind, text)
  {
    ClientSeesOutcome(reply, Between, types);
  }

  /** What the handler makes of a request that starts with a name. */
  lemma NamedRequest(what: Texts, methods: map<seq<Byte>, Method>, name: seq<Byte>, rest: seq<Byte>)
    requires IsIdentifier(name)
    ensures Handle(what, methods, Print(VIdent(name)) + rest)
            == Concluded(what, name, Run(what, Dispatch(what, methods, name), [SPACE] + rest, []))
  {
    RoundTrip(VIdent(name), TIdent, rest);
  }

  lemma Named(name: seq<Byte>, text: seq<Byte>)
    ensures Describe(Some(name), text) == name + Ascii(": ") + text && Describe(None, text) == text
  {
    assert [COLON, SPACE] == Ascii(": ");
  }

  /** A request for a method that the server does not know fails, whatever its arguments. */
  lemma UnknownMethodFails(what: Texts, methods: map<seq<Byte>, Method>, name: seq<Byte>, rest: seq<Byte>,
                           types: seq<Type>)
    requires IsIdentifier(name) && name !in methods
    ensures Answer(what, methods, types, Print(VIdent(name)) + rest)
            == Fails(Ascii("method_failed"), name + Ascii(": ") + what(ParseError(MethodNotFound)))
  {
    var text := name + Ascii(": ") + what(ParseError(MethodNotFound));
    UnknownMethodReply(what, methods, name, rest, types, text);
    FailureIsRead(Handle(what, methods, Print(VIdent(name)) + rest), types, Ascii("method_failed"), text);
  }

  lemma UnknownMethodReply(what: Texts, methods: map<seq<Byte>, Method>, name: seq<Byte>, rest: seq<Byte>,
                           types: seq<Type>, text: seq<Byte>)
    requires IsIdentifier(name) && name !in methods && text == name + Ascii(": ") + what(ParseError(MethodNotFound))
    ensures FailsWith(Handle(what, methods, Print(VIdent(name)) + rest), types, Ascii("method_failed"), text)
  {
    NamedRequest(what, methods, name, rest);
    Named(name, what(ParseError(MethodNotFound)));
    KindsAreIdentifiers();
    assert types[..0] == [];
  }

  /** A line that does not start with the name of a method is a bad request. */
  lemma NamelessRequestFails(what: Texts, methods: map<seq<Byte>, Method>, s: seq<Byte>, types: seq<Type>)
    requires Parse(TIdent, s).Err?
    ensures Answer(what, methods, types, s) == Fails(Ascii("bad_request"), what(Parse(TIdent, s).error))
  {
    NamelessReply(what, methods, s, types);
    FailureIsRead(Handle(what, methods, s), types, Ascii("bad_request"), what(Parse(TIdent, s).error));
  }

  lemma NamelessReply(what: Texts, methods: map<seq<Byte>, Method>, s: seq<Byte>, types: seq<Type>)
    requires Parse(TIdent, s).Err?
    ensures FailsWith(Handle(what, methods, s), types, Ascii("bad_request"), what(Parse(TIdent, s).error))
  {
    Named([], what(Parse(TIdent, s).error));
    KindsAreIdentifiers();
    assert types[..0] == [];
  }

  lemma WrittenSoFar(m: Method, n: nat, types: seq<Type>)
    requires ProperMethod(m) && n <= |m.ops| && ResultTypes(m.ops[..n]) <= types
    ensures |Results(m.ops[..n])| <= |types| && HaveTypes(Results(m.ops[..n]), types[..|Results(m.ops[..n])|])
  {
    ResultsHaveTypes(m.ops[..n]);
    assert types[..|ResultTypes(m.ops[..n])|] == ResultTypes(m.ops[..n]);
  }

  /** If an argument cannot be read, the method fails with the reader's error, behind the results written so far. */
  lemma BadArgumentFails(what: Texts, methods: map<seq<Byte>, Method>, name: seq<Byte>, m: Method, n: nat,
                         args: seq<Value>, tail: seq<Byte>, error: Error, types: seq<Type>)
    requires IsIdentifier(name) && name in methods && m == methods[name] && ProperMethod(m)
    requires n < |m.ops| && m.ops[n].ReadArg? && HaveTypes(args, ArgTypes(m.ops[..n]))
             && ResultTypes(m.ops[..n]) <= types
    requires Parse(m.ops[n].t, tail).Err? && Parse(m.ops[n].t, tail).error == error
    ensures Answer(what, methods, types, Print(VIdent(name)) + (PrintAll(args) + tail))
            == Fails(Ascii("method_failed"), name + Ascii(": ") + what(error))
  {
    var request, text := Print(VIdent(name)) + (PrintAll(args) + tail), name + Ascii(": ") + what(error);
    assert FailsWith(Handle(what, methods, request), types, Ascii("method_failed"), text) by {
      NamedRequest(what, methods, name, PrintAll(args) + tail);
      BadArgumentReply(what, name, m, n, args, tail, types, error);
    }
    FailureIsRead(Handle(what, methods, request), types, Ascii("method_failed"), text);
  }

  lemma BadArgumentReply(what: Texts, name: seq<Byte>, m: Method, n: nat, args: seq<Value>, tail: seq<Byte>,
                         types: seq<Type>, error: Error)
    requires ProperMethod(m) && n < |m.ops| && m.ops[n].ReadArg? && HaveTypes(args, ArgTypes(m.ops[..n]))
    requires ResultTypes(m.ops[..n]) <= types && Parse(m.ops[n].t, tail).Err? && Parse(m.ops[n].t, tail).error == error
    ensures FailsWith(Concluded(what, name, Run(what, m, [SPACE] + (PrintAll(args) + tail), [])), types,
                      Ascii("method_failed"), name + Ascii(": ") + what(error))
  {
    BadArgumentStops(what, m, n, args, tail);
    WrittenSoFar(m, n, types);
    Named(name, what(error));
    KindsAreIdentifiers();
  }

  lemma BadArgumentStops(what: Texts, m: Method, n: nat, args: seq<Value>, tail: seq<Byte>)
    requires n < |m.ops| && m.ops[n].ReadArg? && HaveTypes(args, ArgTypes(m.ops[..n])) && Parse(m.ops[n].t, tail).Err?
    ensures var ran := Run(what, m, [SPACE] + (PrintAll(args) + tail), []);
            && ran.failure == Some(what(Parse(m.ops[n].t, tail).error))
            && ran.written == Results(m.ops[..n]) && ran.cut == []
  {
    var rest := RunReadsArguments(what, m, n, args, tail, [], [SPACE] + (PrintAll(args) + tail));
    SpaceIsSkipped(m.ops[n].t, tail);
    assert m.ops[n..][0] == m.ops[n] && [] + Results(m.ops[..n]) == Results(m.ops[..n]);
  }

  /** What goes on behind the last argument, if it does not go on with an exception. */
  predicate GoesOn(tail: seq<Byte>) {
    !Blank(Peek(tail)) && Peek(tail) != '!' as int && Peek(tail) != '\n' as int
  }

  /** A request that goes on behind the last argument is a bad request, although the method has succeeded. */
  lemma TrailingInputFails(what: Texts, methods: map<seq<Byte>, Method>, name: seq<Byte>, args: seq<Value>,
                           tail: seq<Byte>, types: seq<Type>)
    requires IsIdentifier(name) && name in methods && ProperMethod(methods[name]) && methods[name].thrown == None
    requires HaveTypes(args, ArgTypes(methods[name].ops)) && types == ResultTypes(methods[name].ops) && GoesOn(tail)
    ensures Answer(what, methods, types, Print(VIdent(name)) + (PrintAll(args) + tail))
            == Fails(Ascii("bad_request"), name + Ascii(": ") + what(ParseError(EndOfMessageExpected(Peek(tail)))))
  {
    var request, error := Print(VIdent(name)) + (PrintAll(args) + tail), ParseError(EndOfMessageExpected(Peek(tail)));
    var text := name + Ascii(": ") + what(error);
    assert FailsWith(Handle(what, methods, request), types, Ascii("bad_request"), text) by {
      NamedRequest(what, methods, name, PrintAll(args) + tail);
      TrailingInputReply(what, name, methods[name], args, tail, types, error);
    }
    FailureIsRead(Handle(what, methods, request), types, Ascii("bad_request"), text);
  }

  lemma TrailingInputReply(what: Texts, name: seq<Byte>, m: Method, args: seq<Value>, tail: seq<Byte>,
                           types: seq<Type>, error: Error)
    requires ProperMethod(m) && HaveTypes(args, ArgTypes(m.ops)) && m.thrown == None && types == ResultTypes(m.ops)
    requires GoesOn(tail) && error == ParseError(EndOfMessageExpected(Peek(tail)))
    ensures FailsWith(Concluded(what, name, Run(what, m, [SPACE] + (PrintAll(args) + tail), [])), types,
                      Ascii("bad_request"), name + Ascii(": ") + what(error))
  {
    var rest := RunEnds(what, m, args, tail);
    SpaceIsSkipped(TBool, tail);
    assert ToToken(tail) == Ok((), tail);
    assert m.ops[..|m.ops|] == m.ops;
    WrittenSoFar(m, |m.ops|, types);
    Named(name, what(error));
    KindsAreIdentifiers();
  }

  /** So a known method with one argument too many is a bad request. */
  lemma ExtraArgumentFails(what: Texts, methods: map<seq<Byte>, Method>, name: seq<Byte>, args: seq<Value>,
                           extra: Value, t: Type, types: seq<Type>)
    requires IsIdentifier(name) && name in methods && ProperMethod(methods[name]) && methods[name].thrown == None
    requires HaveTypes(args, ArgTypes(methods[name].ops)) && types == ResultTypes(methods[name].ops)
    requires HasType(extra, t) && Print(extra) != []
    ensures Answer(what, methods, types, RequestText(name, args + [extra]))
            == Fails(Ascii("bad_request"), name + Ascii(": ") + what(ParseError(EndOfMessageExpected(Print(extra)[0]))))
  {
    var tail := Print(extra) + [NEWLINE];
    ExtraGoesOn(name, args, extra, t, tail);
    TrailingInputFails(what, methods, name, args, tail, types);
  }

  lemma ExtraGoesOn(name: seq<Byte>, args: seq<Value>, extra: Value, t: Type, tail: seq<Byte>)
    requires HasType(extra, t) && tail == Print(extra) + [NEWLINE]
    ensures GoesOn(tail) && Print(extra) != [] && Peek(tail) == Print(extra)[0]
    ensures RequestText(name, args + [extra]) == Print(VIdent(name)) + (PrintAll(args) + tail)
  {
    FirstByte(extra, t);
    if extra.VUnsigned? { DecimalIsDigits(extra.n); }
    if extra.VSigned? && extra.i >= 0 { DecimalIsDigits(extra.i); }
    PrintOneMore(args, extra);
  }

  lemma {:induction false} PrintOneMore(vs: seq<Value>, v: Value)
    ensures PrintAll(vs + [v]) == PrintAll(vs) + Print(v)
  {
    if vs == [] {
      assert vs + [v] == [v] && [v][1..] == [] && PrintAll([v]) == Print(v) + PrintAll([]);
    } else {
      var first, others := vs[0], vs[1..];
      PrintOneMore(others, v);
      assert vs + [v] == [first] + (others + [v]);
      PrintFirst(first, others + [v]);
    }
  }

  lemma PrintFirst(v: Value, others: seq<Value>)
    ensures PrintAll([v] + others) == Print(v) + PrintAll(others)
  {
    assert ([v] + others)[1..] == others;
  }
}
