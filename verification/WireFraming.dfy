/**
 Framing: no reader consumes a newline, whether it succeeds or fails, and no reader looks beyond
 the first newline; no writer of a value emits one.
 */
module WireFraming {
  import opened Bytes
  import opened Wrappers
  import opened Wire
  import opened WireRoundTrip
  import opened WireExceptions

  /** `rest` is what is left of `s` after consuming something without a newline. */
  ghost predicate Leaves(s: seq<Byte>, rest: seq<Byte>) {
    forall key {:trigger Opened(key)} :: Opened(key) ==>
      && |rest| <= |s|
      && rest == s[|s| - |rest|..]
      && NEWLINE !in s[..|s| - |rest|]
  }

  /** The input of one message: a newline at the end, and none before. */
  ghost predicate OneLine(s: seq<Byte>) {
    forall key {:trigger Opened(key)} :: Opened(key) ==>
      s != [] && s[|s| - 1] == NEWLINE && NEWLINE !in s[..|s| - 1]
  }

  function Extend<T>(r: Parsed<T>, more: seq<Byte>): Parsed<T> {
    match r
    case Ok(v, rest) => Ok(v, rest + more)
    case Err(e, rest) => Err(e, rest + more)
  }

  /** `r` and `r'` are what a reader makes of `s` and of `s + more`. */
  ghost predicate Framed<T(!new)>(s: seq<Byte>, more: seq<Byte>, r: Parsed<T>, r': Parsed<T>) {
    Leaves(s, r.rest) && (OneLine(s) ==> r' == Extend(r, more))
  }

  lemma LeavesStep(s: seq<Byte>, rest: seq<Byte>)
    requires s != [] && s[0] != NEWLINE && Leaves(s[1..], rest)
    ensures Leaves(s, rest)
  {
    assert Opened(true);
    var n := |s| - |rest|;
    assert s[..n] == [s[0]] + s[1..][..n - 1];
  }

  lemma LeavesTransitive(s: seq<Byte>, middle: seq<Byte>, rest: seq<Byte>)
    requires Leaves(s, middle) && Leaves(middle, rest)
    ensures Leaves(s, rest)
  {
    assert Opened(true);
    var m, n := |s| - |middle|, |middle| - |rest|;
    assert s[..m + n] == s[..m] + middle[..n];
  }

  lemma NotInPrefix(s: seq<Byte>, n: nat)
    requires n <= |s| && NEWLINE !in s[..n]
    ensures forall k :: 0 <= k < n ==> s[k] != NEWLINE
  {
    forall k | 0 <= k < n ensures s[k] != NEWLINE {
      assert s[..n][k] in s[..n];
    }
  }

  /** Between two readers, a message that is still open stays open. */
  lemma LineStaysOpen(s: seq<Byte>, rest: seq<Byte>)
    requires OneLine(s) && Leaves(s, rest)
    ensures OneLine(rest)
  {
    assert Opened(true);
    var n := |s| - |rest|;
    NotInPrefix(s, n);
    assert forall k :: 0 <= k < |rest| - 1 ==> rest[k] == s[..|s| - 1][n + k];
  }

  lemma OneStep(s: seq<Byte>, more: seq<Byte>)
    ensures Leaves(s, s)
    ensures s != [] && s[0] != NEWLINE ==> Leaves(s, s[1..])
    ensures s != [] && s[0] != NEWLINE && OneLine(s) ==> OneLine(s[1..]) && (s + more)[1..] == s[1..] + more
    ensures OneLine(s) ==> Peek(s + more) == Peek(s)
  {
    assert Opened(true);
    if s != [] && s[0] != NEWLINE && OneLine(s) {
      assert Leaves(s, s[1..]);
      LineStaysOpen(s, s[1..]);
    }
  }

  lemma {:induction false} SpacesFramed(s: seq<Byte>, more: seq<Byte>)
    ensures Leaves(s, SkipSpaces(s)) && (OneLine(s) ==> SkipSpaces(s + more) == SkipSpaces(s) + more)
  {
    OneStep(s, more);
    if IsWhitespace(Peek(s)) {
      SpacesFramed(s[1..], more);
      LeavesStep(s, SkipSpaces(s));
    }
  }

  lemma {:induction false} DigitsFramed(max: nat, seen: bool, value: nat, s: seq<Byte>, more: seq<Byte>)
    ensures Framed(s, more, ReadDigits(max, seen, value, s), ReadDigits(max, seen, value, s + more))
    decreases |s|
  {
    OneStep(s, more);
    if IsDigit(Peek(s)) {
      var d := s[0] - ZERO;
      if !(value > max / 10 || d > max - 10 * value) {
        var value' := 10 * value + d;
        DigitsFramed(max, true, value', s[1..], more);
        assert ReadDigits(max, seen, value, s) == ReadDigits(max, true, value', s[1..]);
        LeavesStep(s, ReadDigits(max, true, value', s[1..]).rest);
      }
    }
  }

  lemma {:induction false} HexDigitsFramed(shift: nat, value: nat, s: seq<Byte>, more: seq<Byte>)
    requires HexRoom(shift, value) && value % (if shift == 4 then 16 else 1) == 0
    ensures Framed(s, more, ReadHexDigits(shift, value, s), ReadHexDigits(shift, value, s + more))
    decreases |s|
  {
    OneStep(s, more);
    if shift != 0 && HexDigitValue(Peek(s)) >= 0 {
      HexDigitsFramed(shift - 4, HexStep(shift, value, HexDigitValue(s[0])), s[1..], more);
      LeavesStep(s, ReadHexDigits(shift, value, s).rest);
    }
  }

  lemma {:induction false} ContentsFramed(acc: seq<Byte>, s: seq<Byte>, more: seq<Byte>)
    ensures Framed(s, more, ReadContents(acc, s), ReadContents(acc, s + more))
    decreases |s|
  {
    OneStep(s, more);
    if s != [] && s[0] != NEWLINE && s[0] != QUOTE {
      if s[0] == BACKSLASH {
        EscapedFramed(acc, s[1..], more);
      } else {
        ContentsFramed(acc + [s[0]], s[1..], more);
      }
      LeavesStep(s, ReadContents(acc, s).rest);
    }
  }

  lemma {:induction false} EscapedFramed(acc: seq<Byte>, s: seq<Byte>, more: seq<Byte>)
    ensures Framed(s, more, ReadEscaped(acc, s), ReadEscaped(acc, s + more))
    decreases |s|
  {
    OneStep(s, more);
    if Unescaped(Peek(s)) >= 0 {
      ContentsFramed(acc + [Unescaped(s[0])], s[1..], more);
      LeavesStep(s, ReadEscaped(acc, s).rest);
    } else if Peek(s) == LOWER_X {
      HexEscapeFramed(acc, s[1..], more);
      LeavesStep(s, ReadEscaped(acc, s).rest);
    }
  }

  /** What is read behind the "x" of an escape. */
  function ReadHexEscape(acc: seq<Byte>, s: seq<Byte>): Parsed<Value> {
    match ReadHexDigits(8, 0, s)
    case Ok(v, rest) => ReadContents(acc + [v.n], rest)
    case Err(e, rest) => Err(e, rest)
  }

  lemma {:induction false} HexEscapeFramed(acc: seq<Byte>, s: seq<Byte>, more: seq<Byte>)
    ensures Framed(s, more, ReadHexEscape(acc, s), ReadHexEscape(acc, s + more))
    decreases |s|, 1
  {
    HexDigitsFramed(8, 0, s, more);
    match ReadHexDigits(8, 0, s)
    case Err(_, _) =>
    case Ok(v, rest) =>
      if OneLine(s) { LineStaysOpen(s, rest); }
      ContentsFramed(acc + [v.n], rest, more);
      LeavesTransitive(s, rest, ReadContents(acc + [v.n], rest).rest);
  }

  lemma {:induction false} FollowersFramed(acc: seq<Byte>, s: seq<Byte>, more: seq<Byte>)
    ensures Framed(s, more, ReadFollowers(acc, s), ReadFollowers(acc, s + more))
    decreases |s|
  {
    OneStep(s, more);
    if IsFollower(Peek(s)) {
      FollowersFramed(acc + [s[0]], s[1..], more);
      LeavesStep(s, ReadFollowers(acc, s).rest);
    }
  }

  lemma {:induction false} ToTokenFramed(s: seq<Byte>, more: seq<Byte>)
    ensures Framed(s, more, ToToken(s), ToToken(s + more))
    decreases |s|, 0
  {
    SpacesFramed(s, more);
    var start := SkipSpaces(s);
    if OneLine(s) { LineStaysOpen(s, start); }
    OneStep(start, more);
    if Peek(start) == BANG {
      ParseFramed(ErrorType, start[1..], more);
      LeavesStep(start, Parse(ErrorType, start[1..]).rest);
      LeavesTransitive(s, start, ToToken(s).rest);
    }
  }

  /** The framing law for values of every type. */
  lemma {:induction false} ParseFramed(t: Type, s: seq<Byte>, more: seq<Byte>)
    ensures Framed(s, more, Parse(t, s), Parse(t, s + more))
    decreases |s|, 2
  {
    ToTokenFramed(s, more);
    match ToToken(s)
    case Err(_, _) =>
    case Ok(_, start) =>
      if OneLine(s) { LineStaysOpen(s, start); }
      ParseTokenFramed(t, start, more);
      LeavesTransitive(s, start, Parse(t, s).rest);
  }

  lemma {:induction false} ParseTokenFramed(t: Type, s: seq<Byte>, more: seq<Byte>)
    ensures Framed(s, more, ParseToken(t, s), ParseToken(t, s + more))
    decreases |s|, 1
  {
    OneStep(s, more);
    match t
    case TBool =>
    case TUnsigned(max) => DigitsFramed(max, false, 0, s, more);
    case TSigned(max) => SignedFramed(max, s, more);
    case TBlob =>
      if Peek(s) == QUOTE { ContentsFramed([], s[1..], more); LeavesStep(s, ParseToken(t, s).rest); }
    case TIdent =>
      if IsLeader(Peek(s)) { FollowersFramed([s[0]], s[1..], more); LeavesStep(s, ParseToken(t, s).rest); }
    case TOptional(e) =>
      if Peek(s) == OPEN_BRACKET { ElementsFramed(true, e, [], s[1..], more); LeavesStep(s, ParseToken(t, s).rest); }
    case TVector(e) =>
      if Peek(s) == OPEN_BRACKET { ElementsFramed(false, e, [], s[1..], more); LeavesStep(s, ParseToken(t, s).rest); }
    case TTuple(ts) =>
      if Peek(s) == OPEN_BRACE { FieldsFramed(ts, [], s[1..], more); LeavesStep(s, ParseToken(t, s).rest); }
  }

  lemma SignedFramed(max: nat, s: seq<Byte>, more: seq<Byte>)
    ensures Framed(s, more, ParseToken(TSigned(max), s), ParseToken(TSigned(max), s + more))
  {
    OneStep(s, more);
    if Peek(s) == MINUS {
      NegativeFramed(max, s, more);
    } else {
      DigitsFramed(max, false, 0, s, more);
    }
  }

  lemma NegativeFramed(max: nat, s: seq<Byte>, more: seq<Byte>)
    requires Peek(s) == MINUS
    ensures Framed(s, more, ParseToken(TSigned(max), s), ParseToken(TSigned(max), s + more))
  {
    OneStep(s, more);
    DigitsFramed(max + 1, false, 0, s[1..], more);
    LeavesStep(s, ParseToken(TSigned(max), s).rest);
  }

  lemma {:induction false} ElementsFramed(optional: bool, t: Type, acc: seq<Value>, s: seq<Byte>, more: seq<Byte>)
    ensures Framed(s, more, ReadElements(optional, t, acc, s), ReadElements(optional, t, acc, s + more))
    decreases |s|, 4
  {
    ToTokenFramed(s, more);
    match ToToken(s)
    case Err(_, _) =>
    case Ok(_, start) =>
      if OneLine(s) { LineStaysOpen(s, start); }
      OneStep(start, more);
      if Peek(start) != CLOSE_BRACKET { ElementFramed(optional, t, acc, start, more); }
      LeavesTransitive(s, start, ReadElements(optional, t, acc, s).rest);
  }

  lemma {:induction false} ElementFramed(optional: bool, t: Type, acc: seq<Value>, s: seq<Byte>, more: seq<Byte>)
    ensures Framed(s, more, ReadElement(optional, t, acc, s), ReadElement(optional, t, acc, s + more))
    decreases |s|, 3
  {
    ParseFramed(t, s, more);
    match Parse(t, s)
    case Err(_, _) =>
    case Ok(v, rest) =>
      if OneLine(s) { LineStaysOpen(s, rest); }
      ElementsFramed(optional, t, acc + [v], rest, more);
      LeavesTransitive(s, rest, ReadElements(optional, t, acc + [v], rest).rest);
  }

  lemma {:induction false} FieldsFramed(ts: seq<Type>, acc: seq<Value>, s: seq<Byte>, more: seq<Byte>)
    ensures Framed(s, more, ReadFields(ts, acc, s), ReadFields(ts, acc, s + more))
    decreases |s|, 3
  {
    if ts == [] {
      ToTokenFramed(s, more);
      match ToToken(s)
      case Err(_, _) =>
      case Ok(_, start) =>
        if OneLine(s) { LineStaysOpen(s, start); }
        OneStep(start, more);
        if Peek(start) == CLOSE_BRACE { LeavesTransitive(s, start, start[1..]); }
    } else {
      ParseFramed(ts[0], s, more);
      match Parse(ts[0], s)
      case Err(_, _) =>
      case Ok(v, rest) =>
        if OneLine(s) { LineStaysOpen(s, rest); }
        FieldsFramed(ts[1..], acc + [v], rest, more);
        LeavesTransitive(s, rest, ReadFields(ts[1..], acc + [v], rest).rest);
    }
  }

  lemma EndOfMessageFramed(s: seq<Byte>, more: seq<Byte>)
    ensures Framed(s, more, CheckEndOfMessage(s), CheckEndOfMessage(s + more))
  {
    ToTokenFramed(s, more);
    match ToToken(s)
    case Err(_, _) =>
    case Ok(_, start) =>
      if OneLine(s) { LineStaysOpen(s, start); }
      OneStep(start, more);
  }

  /** Only the drainer consumes the newline: wherever a message was left, draining ends just behind it. */
  lemma {:induction false} DrainEndsMessage(s: seq<Byte>, more: seq<Byte>)
    ensures OneLine(s) ==> Drain(s + more) == more
    ensures NEWLINE !in s ==> Drain(s) == []
  {
    OneStep(s, more);
    if s != [] && s[0] != NEWLINE {
      DrainEndsMessage(s[1..], more);
    } else if OneLine(s) {
      assert Opened(true);
      LineIsNewline(s);
      assert (s + more)[1..] == more;
    }
  }

  lemma LineIsNewline(s: seq<Byte>)
    requires OneLine(s) && (s != [] ==> s[0] == NEWLINE)
    ensures s == [NEWLINE]
  {
    assert Opened(true);
    NotInPrefix(s, |s| - 1);
  }

  // ---- writers ----

  lemma {:induction false} DecimalHasNoNewline(n: nat)
    ensures NEWLINE !in Decimal(n)
  {
    DecimalIsDigits(n);
  }

  lemma {:induction false} EscapeHasNoNewline(bytes: seq<Byte>)
    ensures NEWLINE !in Escape(bytes)
  {
    if bytes != [] {
      EscapeHasNoNewline(bytes[1..]);
      assert NEWLINE !in EscapeByte(bytes[0]);
    }
  }

  /** The text of a well-typed value contains no newline. */
  lemma {:induction false} PrintHasNoNewline(v: Value, t: Type)
    requires HasType(v, t)
    ensures NEWLINE !in Print(v)
    decreases v, 0
  {
    match t
    case TBool =>
    case TUnsigned(_) => DecimalHasNoNewline(v.n);
    case TSigned(_) => DecimalHasNoNewline(if v.i >= 0 then v.i else -v.i);
    case TBlob => EscapeHasNoNewline(v.bytes);
    case TIdent =>
    case TOptional(e) => ElementsHaveNoNewline(v.elements, e);
    case TVector(e) => ElementsHaveNoNewline(v.elements, e);
    case TTuple(ts) => FieldsHaveNoNewline(v.values, ts);
  }

  lemma {:induction false} ElementsHaveNoNewline(vs: seq<Value>, e: Type)
    requires AllHaveType(vs, e)
    ensures NEWLINE !in PrintAll(vs)
    decreases vs, 1
  {
    if vs != [] {
      PrintHasNoNewline(vs[0], e);
      ElementsHaveNoNewline(vs[1..], e);
    }
  }

  lemma {:induction false} FieldsHaveNoNewline(vs: seq<Value>, ts: seq<Type>)
    requires HaveTypes(vs, ts)
    ensures NEWLINE !in PrintAll(vs)
    decreases vs, 1
  {
    if vs != [] {
      PrintHasNoNewline(vs[0], ts[0]);
      FieldsHaveNoNewline(vs[1..], ts[1..]);
    }
  }

  lemma ExceptionHasNoNewline(kind: seq<Byte>, description: seq<Byte>)
    requires IsIdentifier(kind)
    ensures NEWLINE !in PrintException(kind, description)
  {
    EscapeHasNoNewline(description);
    var fields := [VIdent(kind), VBlob(description)];
    assert fields[1..] == [VBlob(description)] && fields[1..][1..] == [];
    assert PrintAll(fields) == Print(VIdent(kind)) + (Print(VBlob(description)) + PrintAll([]));
  }
}
