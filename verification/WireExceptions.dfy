/** Exceptions in the middle of the output: what the exception writer appends is what the reader fails with. */
module WireExceptions {
  import opened Bytes
  import opened Wire
  import opened WireRoundTrip

  /** The tokens that the writer of `v` emits, one after the other. */
  function Tokens(v: Value): (tokens: seq<seq<Byte>>)
    ensures tokens != []
  {
    match v
    case VSequence(vs) => [[OPEN_BRACKET, SPACE]] + TokensOfAll(vs) + [[CLOSE_BRACKET, SPACE]]
    case VTuple(vs) => [[OPEN_BRACE, SPACE]] + TokensOfAll(vs) + [[CLOSE_BRACE, SPACE]]
    case _ => [Print(v)]
  }

  function TokensOfAll(vs: seq<Value>): seq<seq<Byte>> {
    if vs == [] then [] else Tokens(vs[0]) + TokensOfAll(vs[1..])
  }

  function Flatten(tokens: seq<seq<Byte>>): seq<Byte> {
    if tokens == [] then [] else tokens[0] + Flatten(tokens[1..])
  }

  /** What the exception writer emits. */
  function PrintException(kind: seq<Byte>, description: seq<Byte>): seq<Byte> {
    [BANG, SPACE] + Print(VTuple([VIdent(kind), VBlob(description)]))
  }

  lemma {:induction false} FlattenAppend(a: seq<seq<Byte>>, b: seq<seq<Byte>>)
    ensures Flatten(a + b) == Flatten(a) + Flatten(b)
  {
    if a == [] {
      assert a + b == b;
    } else {
      var first, others := a[0], a[1..];
      assert a == [first] + others && a + b == [first] + (others + b);
      FlattenFirst(first, others);
      FlattenFirst(first, others + b);
      FlattenAppend(others, b);
      assert first + (Flatten(others) + Flatten(b)) == (first + Flatten(others)) + Flatten(b);
    }
  }

  lemma FlattenFirst(first: seq<Byte>, others: seq<seq<Byte>>)
    ensures Flatten([first] + others) == first + Flatten(others)
  {
    assert ([first] + others)[1..] == others;
  }

  lemma FlattenOne(token: seq<Byte>)
    ensures Flatten([token]) == token
  {
    assert [token][1..] == [];
  }

  /** The tokens together are exactly the printed value. */
  lemma {:induction false} FlattenTokens(v: Value)
    ensures Flatten(Tokens(v)) == Print(v)
    decreases v, 0
  {
    match v
    case VSequence(vs) =>
      FlattenTokensOfAll(vs);
      FlattenBracketed([OPEN_BRACKET, SPACE], TokensOfAll(vs), [CLOSE_BRACKET, SPACE]);
    case VTuple(vs) =>
      FlattenTokensOfAll(vs);
      FlattenBracketed([OPEN_BRACE, SPACE], TokensOfAll(vs), [CLOSE_BRACE, SPACE]);
    case _ => FlattenOne(Print(v));
  }

  lemma {:induction false} FlattenTokensOfAll(vs: seq<Value>)
    ensures Flatten(TokensOfAll(vs)) == PrintAll(vs)
    decreases vs, 1
  {
    if vs != [] {
      FlattenTokens(vs[0]);
      FlattenTokensOfAll(vs[1..]);
      FlattenAppend(Tokens(vs[0]), TokensOfAll(vs[1..]));
    }
  }

  lemma FlattenBracketed(open: seq<Byte>, tokens: seq<seq<Byte>>, close: seq<Byte>)
    ensures Flatten([open] + tokens + [close]) == open + Flatten(tokens) + close
  {
    FlattenAppend([open] + tokens, [close]);
    FlattenAppend([open], tokens);
    FlattenOne(open);
    FlattenOne(close);
  }

  lemma ErrorHasType(kind: seq<Byte>, description: seq<Byte>)
    requires IsIdentifier(kind)
    ensures HasType(VTuple([VIdent(kind), VBlob(description)]), ErrorType)
  {
    var values, types := [VIdent(kind), VBlob(description)], [TIdent, TBlob];
    assert values[1..] == [VBlob(description)] && types[1..] == [TBlob];
    assert values[1..][1..] == [] && types[1..][1..] == [];
    assert HaveTypes([], []);
    assert HaveTypes(values[1..], types[1..]);
    assert HaveTypes(values, types);
  }

  /** Where a token is expected, the exception marker makes any reader fail with the remote error. */
  lemma MarkerRaises(kind: seq<Byte>, description: seq<Byte>, rest: seq<Byte>)
    requires IsIdentifier(kind)
    ensures ToToken(PrintException(kind, description) + rest) == Err(Remote(kind, description), [SPACE] + rest)
  {
    var error := VTuple([VIdent(kind), VBlob(description)]);
    var s := PrintException(kind, description) + rest;
    ErrorHasType(kind, description);
    assert s[1..] == [SPACE] + (Print(error) + rest);
    SpaceIsSkipped(ErrorType, Print(error) + rest);
    RoundTrip(error, ErrorType, rest);
  }

  /** The text of the first `k` tokens of `v`, followed by an exception. */
  function CutOff(tokens: seq<seq<Byte>>, k: nat, exception: seq<Byte>): seq<Byte>
    requires k <= |tokens|
  {
    Flatten(tokens[..k]) + exception
  }

  /**
   Output that is cut off at any token boundary and continued with an exception makes the
   reader fail with exactly that remote error, and stop just behind it.
   */
  lemma {:induction false} ExceptionReachesReader(v: Value, t: Type, k: nat, kind: seq<Byte>, description: seq<Byte>,
                                                  rest: seq<Byte>)
    requires HasType(v, t) && IsIdentifier(kind) && k < |Tokens(v)|
    ensures Parse(t, CutOff(Tokens(v), k, PrintException(kind, description) + rest))
            == Err(Remote(kind, description), [SPACE] + rest)
    decreases v, 0
  {
    var tail := PrintException(kind, description) + rest;
    MarkerRaises(kind, description, rest);
    if k == 0 {
      assert Flatten(Tokens(v)[..0]) + tail == tail;
    } else {
      match t
      case TOptional(e) => CutAfterOpening(v.elements, k, [OPEN_BRACKET, SPACE], [CLOSE_BRACKET, SPACE], tail);
                           ExceptionAmongElements(true, [], v.elements, e, k - 1, kind, description, rest);
                           ElementsSkipSpace(true, e, [], CutOff(TokensOfAll(v.elements), k - 1, tail));
      case TVector(e) => CutAfterOpening(v.elements, k, [OPEN_BRACKET, SPACE], [CLOSE_BRACKET, SPACE], tail);
                         ExceptionAmongElements(false, [], v.elements, e, k - 1, kind, description, rest);
                         ElementsSkipSpace(false, e, [], CutOff(TokensOfAll(v.elements), k - 1, tail));
      case TTuple(ts) => CutAfterOpening(v.values, k, [OPEN_BRACE, SPACE], [CLOSE_BRACE, SPACE], tail);
                         ExceptionAmongFields([], v.values, ts, k - 1, kind, description, rest);
                         FieldsSkipSpace(ts, [], CutOff(TokensOfAll(v.values), k - 1, tail));
      case _ =>
    }
  }

  lemma CutAfterOpening(vs: seq<Value>, k: nat, open: seq<Byte>, close: seq<Byte>, tail: seq<Byte>)
    requires 0 < k <= |TokensOfAll(vs)| + 1 && |open| == 2 && open[1] == SPACE
    ensures var tokens := [open] + TokensOfAll(vs) + [close];
            CutOff(tokens, k, tail) == [open[0]] + ([SPACE] + CutOff(TokensOfAll(vs), k - 1, tail))
  {
    var tokens := [open] + TokensOfAll(vs) + [close];
    assert tokens[..k] == [open] + TokensOfAll(vs)[..k - 1];
    FlattenAppend([open], TokensOfAll(vs)[..k - 1]);
    FlattenOne(open);
  }

  lemma PrefixOfConcat<T>(a: seq<T>, b: seq<T>, j: nat)
    requires j <= |a| + |b|
    ensures (a + b)[..j] == if j < |a| then a[..j] else a + b[..j - |a|]
  {
  }

  lemma CutSplit(a: seq<seq<Byte>>, b: seq<seq<Byte>>, j: nat, tail: seq<Byte>)
    requires j <= |a| + |b|
    ensures j < |a| ==> CutOff(a + b, j, tail) == CutOff(a, j, tail)
    ensures j >= |a| ==> CutOff(a + b, j, tail) == Flatten(a) + CutOff(b, j - |a|, tail)
  {
    PrefixOfConcat(a, b, j);
    if j >= |a| { FlattenThenTail(a, b[..j - |a|], tail); }
  }

  lemma FlattenThenTail(a: seq<seq<Byte>>, b: seq<seq<Byte>>, tail: seq<Byte>)
    ensures Flatten(a + b) + tail == Flatten(a) + (Flatten(b) + tail)
  {
    FlattenAppend(a, b);
  }

  /** Where the cut falls: inside the first value, or behind it. */
  lemma CutAmong(vs: seq<Value>, j: nat, tail: seq<Byte>)
    requires vs != [] && j <= |TokensOfAll(vs)|
    ensures j < |Tokens(vs[0])| ==> CutOff(TokensOfAll(vs), j, tail) == CutOff(Tokens(vs[0]), j, tail)
    ensures j >= |Tokens(vs[0])| ==>
              CutOff(TokensOfAll(vs), j, tail) == Print(vs[0]) + CutOff(TokensOfAll(vs[1..]), j - |Tokens(vs[0])|, tail)
  {
    CutSplit(Tokens(vs[0]), TokensOfAll(vs[1..]), j, tail);
    FlattenTokens(vs[0]);
  }

  /** However short the cut, what precedes it starts like the value. */
  lemma {:induction false} CutStartsToken(v: Value, t: Type, k: nat, tail: seq<Byte>)
    requires HasType(v, t) && 0 < k <= |Tokens(v)|
    ensures var s := CutOff(Tokens(v), k, tail);
            s != [] && ToToken(s) == Ok((), s) && s[0] != CLOSE_BRACKET
  {
    FirstByte(v, t);
    var tokens := Tokens(v);
    assert tokens[..k] == [tokens[0]] + tokens[1..k];
    FlattenAppend([tokens[0]], tokens[1..k]);
    FlattenOne(tokens[0]);
  }

  lemma OneElementRead(optional: bool, acc: seq<Value>, v: Value, e: Type, s: seq<Byte>)
    requires HasType(v, e) && (optional ==> acc == [])
    ensures ReadElements(optional, e, acc, Print(v) + s) == ReadElements(optional, e, acc + [v], s)
  {
    FirstByte(v, e);
    RoundTrip(v, e, s);
    ElementsSkipSpace(optional, e, acc + [v], s);
  }

  lemma {:induction false} ExceptionAmongElements(optional: bool, acc: seq<Value>, vs: seq<Value>, e: Type, j: nat,
                                                  kind: seq<Byte>, description: seq<Byte>, rest: seq<Byte>)
    requires AllHaveType(vs, e) && (optional ==> |acc| + |vs| <= 1)
    requires IsIdentifier(kind) && j <= |TokensOfAll(vs)|
    ensures ReadElements(optional, e, acc, CutOff(TokensOfAll(vs), j, PrintException(kind, description) + rest))
            == Err(Remote(kind, description), [SPACE] + rest)
    decreases vs, 1
  {
    var tail := PrintException(kind, description) + rest;
    if j == 0 {
      MarkerRaises(kind, description, rest);
      assert Flatten(TokensOfAll(vs)[..0]) + tail == tail;
    } else {
      CutAmong(vs, j, tail);
      var n := |Tokens(vs[0])|;
      if j < n {
        ExceptionReachesReader(vs[0], e, j, kind, description, rest);
        CutStartsToken(vs[0], e, j, tail);
      } else {
        OneElementRead(optional, acc, vs[0], e, CutOff(TokensOfAll(vs[1..]), j - n, tail));
        ExceptionAmongElements(optional, acc + [vs[0]], vs[1..], e, j - n, kind, description, rest);
      }
    }
  }

  lemma {:induction false} ExceptionAmongFields(acc: seq<Value>, vs: seq<Value>, ts: seq<Type>, j: nat,
                                                kind: seq<Byte>, description: seq<Byte>, rest: seq<Byte>)
    requires HaveTypes(vs, ts) && IsIdentifier(kind) && j <= |TokensOfAll(vs)|
    ensures ReadFields(ts, acc, CutOff(TokensOfAll(vs), j, PrintException(kind, description) + rest))
            == Err(Remote(kind, description), [SPACE] + rest)
    decreases vs, 1
  {
    var tail := PrintException(kind, description) + rest;
    if j == 0 {
      MarkerRaises(kind, description, rest);
      assert Flatten(TokensOfAll(vs)[..0]) + tail == tail;
    } else {
      CutAmong(vs, j, tail);
      var n := |Tokens(vs[0])|;
      if j < n {
        ExceptionReachesReader(vs[0], ts[0], j, kind, description, rest);
      } else {
        var s := CutOff(TokensOfAll(vs[1..]), j - n, tail);
        RoundTrip(vs[0], ts[0], s);
        FieldsSkipSpace(ts[1..], acc + [vs[0]], s);
        ExceptionAmongFields(acc + [vs[0]], vs[1..], ts[1..], j - n, kind, description, rest);
      }
    }
  }
}
