/** Reading what was written gives back the value; an exception that interrupts the output reaches the reader. */
module WireRoundTrip {
  import opened Bytes
  import opened Wire
  import opened Wrappers

  lemma DigitStep(max: nat, seen: bool, value: nat, d: nat, s: seq<Byte>)
    requires d < 10 && 10 * value + d <= max
    ensures ReadDigits(max, seen, value, [ZERO + d] + s) == ReadDigits(max, true, 10 * value + d, s)
  {
    assert ([ZERO + d] + s)[1..] == s;
  }

  /** The digits of `n` are read as `n`, without overflow, whenever `n` fits. */
  lemma {:induction false} DigitsOfDecimal(max: nat, seen: bool, n: nat, s: seq<Byte>)
    requires n <= max
    ensures ReadDigits(max, seen, 0, Decimal(n) + s) == ReadDigits(max, true, n, s)
  {
    if n < 10 {
      DigitStep(max, seen, 0, n, s);
    } else {
      LastDigit(n, s);
      DigitsOfDecimal(max, seen, n / 10, [ZERO + n % 10] + s);
      DigitStep(max, true, n / 10, n % 10, s);
    }
  }

  lemma LastDigit(n: nat, s: seq<Byte>)
    requires n >= 10
    ensures Decimal(n) + s == Decimal(n / 10) + ([ZERO + n % 10] + s)
    ensures 10 * (n / 10) + n % 10 == n
  {
  }

  /** The reader of a string makes the same of both inputs. */
  ghost predicate SameContents(acc: seq<Byte>, s: seq<Byte>, acc': seq<Byte>, s': seq<Byte>) {
    forall key {:trigger Opened(key)} :: Opened(key) ==> ReadContents(acc, s) == ReadContents(acc', s')
  }

  lemma EscapeStep(acc: seq<Byte>, b: Byte, s: seq<Byte>)
    ensures SameContents(acc, EscapeByte(b) + s, acc + [b], s)
  {
    var escaped := EscapeByte(b) + s;
    if |EscapeByte(b)| == 2 {
      assert escaped[1..][1..] == s;
      assert ReadContents(acc, escaped) == ReadEscaped(acc, escaped[1..]);
    } else {
      assert escaped[1..] == s;
    }
  }

  lemma SameContentsTransitive(acc: seq<Byte>, s: seq<Byte>, acc': seq<Byte>, s': seq<Byte>, acc'': seq<Byte>,
                               s'': seq<Byte>)
    requires SameContents(acc, s, acc', s') && SameContents(acc', s', acc'', s'')
    ensures SameContents(acc, s, acc'', s'')
  {
    assert Opened(true);
  }

  lemma {:induction false} ContentsOfEscape(acc: seq<Byte>, bytes: seq<Byte>, s: seq<Byte>)
    ensures SameContents(acc, Escape(bytes) + s, acc + bytes, s)
    decreases |bytes|
  {
    if bytes == [] {
      assert acc + bytes == acc && Escape(bytes) + s == s;
    } else {
      var first, others := bytes[0], bytes[1..];
      var tail := Escape(others) + s;
      assert Escape(bytes) + s == EscapeByte(first) + tail;
      EscapeStep(acc, first, tail);
      ContentsOfEscape(acc + [first], others, s);
      assert (acc + [first]) + others == acc + bytes;
      SameContentsTransitive(acc, EscapeByte(first) + tail, acc + [first], tail, acc + bytes, s);
    }
  }

  lemma {:induction false} FollowersOfName(acc: seq<Byte>, name: seq<Byte>, s: seq<Byte>)
    requires forall k :: 0 <= k < |name| ==> IsFollower(name[k])
    ensures ReadFollowers(acc, name + s) == ReadFollowers(acc + name, s)
    decreases |name|
  {
    if name == [] {
      assert acc + name == acc && name + s == s;
    } else {
      FollowersOfName(acc + [name[0]], name[1..], s);
      assert (name + s)[1..] == name[1..] + s;
      assert acc + [name[0]] + name[1..] == acc + name;
    }
  }

  /** A space in front of a token makes no difference. */
  lemma SpaceIsSkipped(t: Type, s: seq<Byte>)
    ensures ToToken([SPACE] + s) == ToToken(s)
    ensures Parse(t, [SPACE] + s) == Parse(t, s)
  {
    assert ([SPACE] + s)[1..] == s;
  }

  lemma FirstByte(v: Value, t: Type)
    requires HasType(v, t)
    ensures Print(v) != [] && !IsWhitespace(Print(v)[0])
    ensures Print(v)[0] != BANG && Print(v)[0] != CLOSE_BRACKET && Print(v)[0] != CLOSE_BRACE
  {
    if v.VUnsigned? { DecimalIsDigits(v.n); }
    if v.VSigned? && v.i >= 0 { DecimalIsDigits(v.i); }
  }

  lemma {:induction false} DecimalIsDigits(n: nat)
    ensures forall k :: 0 <= k < |Decimal(n)| ==> IsDigit(Decimal(n)[k])
  {
    if n >= 10 {
      DecimalIsDigits(n / 10);
    }
  }

  lemma SignedRoundTrip(v: Value, max: nat, rest: seq<Byte>)
    requires HasType(v, TSigned(max))
    ensures ParseToken(TSigned(max), Print(v) + rest) == Ok(v, [SPACE] + rest)
  {
    if v.i >= 0 {
      PositiveRoundTrip(v.i, max, rest);
    } else {
      NegativeRoundTrip(0 - v.i, max, rest);
    }
  }

  lemma PositiveRoundTrip(n: nat, max: nat, rest: seq<Byte>)
    requires n <= max
    ensures ParseToken(TSigned(max), Print(VSigned(n)) + rest) == Ok(VSigned(n), [SPACE] + rest)
  {
    var s, tail := Print(VSigned(n)) + rest, [SPACE] + rest;
    assert s == Decimal(n) + tail;
    DecimalIsDigits(n);
    assert s[0] == Decimal(n)[0];
    DigitsOfDecimal(max, false, n, tail);
  }

  lemma NegativeRoundTrip(n: nat, max: nat, rest: seq<Byte>)
    requires 0 < n <= max + 1
    ensures ParseToken(TSigned(max), Print(VSigned(0 - n)) + rest) == Ok(VSigned(0 - n), [SPACE] + rest)
  {
    var tail := [SPACE] + rest;
    assert Print(VSigned(0 - n)) + rest == [MINUS] + (Decimal(n) + tail);
    DigitsOfDecimal(max + 1, false, n, tail);
    NegativeToken(max, n, Decimal(n) + tail, tail);
  }

  lemma NegativeToken(max: nat, n: nat, s: seq<Byte>, tail: seq<Byte>)
    requires ReadDigits(max + 1, false, 0, s) == Ok(VUnsigned(n), tail)
    ensures ParseToken(TSigned(max), [MINUS] + s) == Ok(VSigned(0 - n), tail)
  {
    assert ([MINUS] + s)[1..] == s;
  }

  lemma BlobRoundTrip(bytes: seq<Byte>, rest: seq<Byte>)
    ensures ParseToken(TBlob, Print(VBlob(bytes)) + rest) == Ok(VBlob(bytes), [SPACE] + rest)
  {
    var s := Print(VBlob(bytes)) + rest;
    var tail := [QUOTE, SPACE] + rest;
    assert s[1..] == Escape(bytes) + tail;
    ContentsOfEscape([], bytes, tail);
    assert Opened(true);
    assert [] + bytes == bytes && tail[1..] == [SPACE] + rest;
  }

  lemma IdentRoundTrip(name: seq<Byte>, rest: seq<Byte>)
    requires IsIdentifier(name)
    ensures ParseToken(TIdent, Print(VIdent(name)) + rest) == Ok(VIdent(name), [SPACE] + rest)
  {
    var s := Print(VIdent(name)) + rest;
    assert s[1..] == name[1..] + ([SPACE] + rest);
    FollowersOfName([name[0]], name[1..], [SPACE] + rest);
    assert [name[0]] + name[1..] == name;
  }

  lemma UnsignedRoundTrip(n: nat, max: nat, rest: seq<Byte>)
    requires n <= max
    ensures ParseToken(TUnsigned(max), Print(VUnsigned(n)) + rest) == Ok(VUnsigned(n), [SPACE] + rest)
  {
    assert Print(VUnsigned(n)) + rest == Decimal(n) + ([SPACE] + rest);
    DigitsOfDecimal(max, false, n, [SPACE] + rest);
  }

  lemma StartsToken(v: Value, t: Type, rest: seq<Byte>)
    requires HasType(v, t)
    ensures ToToken(Print(v) + rest) == Ok((), Print(v) + rest)
    ensures Parse(t, Print(v) + rest) == ParseToken(t, Print(v) + rest)
  {
    FirstByte(v, t);
  }

  /**
   The main law of the wire format: a reader gives back what the writer was given, and stops at the trailing space.
   */
  lemma {:induction false} RoundTrip(v: Value, t: Type, rest: seq<Byte>)
    requires HasType(v, t)
    ensures Parse(t, Print(v) + rest) == Ok(v, [SPACE] + rest)
    decreases v, 0
  {
    StartsToken(v, t, rest);
    match t
    case TBool => assert (Print(v) + rest)[1..] == [SPACE] + rest;
    case TUnsigned(max) => UnsignedRoundTrip(v.n, max, rest);
    case TSigned(max) => SignedRoundTrip(v, max, rest);
    case TBlob => BlobRoundTrip(v.bytes, rest);
    case TIdent => IdentRoundTrip(v.name, rest);
    case TOptional(e) => SequenceRoundTrip(true, v, e, rest);
    case TVector(e) => SequenceRoundTrip(false, v, e, rest);
    case TTuple(ts) => TupleRoundTrip(v, ts, rest);
  }

  lemma {:induction false} TupleRoundTrip(v: Value, ts: seq<Type>, rest: seq<Byte>)
    requires v.VTuple? && HaveTypes(v.values, ts)
    ensures ReadFields(ts, [], (Print(v) + rest)[1..]) == Ok(v, [SPACE] + rest)
    decreases v.values, 2
  {
    var tail := PrintAll(v.values) + ([CLOSE_BRACE, SPACE] + rest);
    assert (Print(v) + rest)[1..] == [SPACE] + tail;
    FieldsRoundTrip([], v.values, ts, rest);
    FieldsSkipSpace(ts, [], tail);
    assert [] + v.values == v.values;
  }

  lemma {:induction false} SequenceRoundTrip(optional: bool, v: Value, e: Type, rest: seq<Byte>)
    requires v.VSequence? && AllHaveType(v.elements, e) && (optional ==> |v.elements| <= 1)
    ensures ReadElements(optional, e, [], (Print(v) + rest)[1..]) == Ok(v, [SPACE] + rest)
    decreases v.elements, 2
  {
    var tail := PrintAll(v.elements) + ([CLOSE_BRACKET, SPACE] + rest);
    assert (Print(v) + rest)[1..] == [SPACE] + tail;
    ElementsRoundTrip(optional, [], v.elements, e, rest);
    ElementsSkipSpace(optional, e, [], tail);
    assert [] + v.elements == v.elements;
  }

  lemma ElementsSkipSpace(optional: bool, e: Type, acc: seq<Value>, s: seq<Byte>)
    ensures ReadElements(optional, e, acc, [SPACE] + s) == ReadElements(optional, e, acc, s)
  {
    SpaceIsSkipped(e, s);
  }

  lemma FieldsSkipSpace(ts: seq<Type>, acc: seq<Value>, s: seq<Byte>)
    ensures ReadFields(ts, acc, [SPACE] + s) == ReadFields(ts, acc, s)
  {
    SpaceIsSkipped(TBool, s);
    if ts != [] {
      SpaceIsSkipped(ts[0], s);
    }
  }

  lemma {:induction false} ElementsRoundTrip(optional: bool, acc: seq<Value>, vs: seq<Value>, e: Type, rest: seq<Byte>)
    requires AllHaveType(vs, e) && (optional ==> |acc| + |vs| <= 1)
    ensures ReadElements(optional, e, acc, PrintAll(vs) + ([CLOSE_BRACKET, SPACE] + rest))
            == Ok(VSequence(acc + vs), [SPACE] + rest)
    decreases vs, 1
  {
    var end := [CLOSE_BRACKET, SPACE] + rest;
    if vs == [] {
      assert PrintAll(vs) + end == end && end[1..] == [SPACE] + rest;
      assert acc + vs == acc;
    } else {
      var tail := PrintAll(vs[1..]) + end;
      assert PrintAll(vs) + end == Print(vs[0]) + tail;
      FirstByte(vs[0], e);
      RoundTrip(vs[0], e, tail);
      ElementsSkipSpace(optional, e, acc + [vs[0]], tail);
      ElementsRoundTrip(optional, acc + [vs[0]], vs[1..], e, rest);
      assert acc + [vs[0]] + vs[1..] == acc + vs;
    }
  }

  lemma {:induction false} FieldsRoundTrip(acc: seq<Value>, vs: seq<Value>, ts: seq<Type>, rest: seq<Byte>)
    requires HaveTypes(vs, ts)
    ensures ReadFields(ts, acc, PrintAll(vs) + ([CLOSE_BRACE, SPACE] + rest)) == Ok(VTuple(acc + vs), [SPACE] + rest)
    decreases vs, 1
  {
    var end := [CLOSE_BRACE, SPACE] + rest;
    if ts == [] {
      assert PrintAll(vs) + end == end && end[1..] == [SPACE] + rest;
      assert acc + vs == acc;
    } else {
      var tail := PrintAll(vs[1..]) + end;
      assert PrintAll(vs) + end == Print(vs[0]) + tail;
      RoundTrip(vs[0], ts[0], tail);
      FieldsSkipSpace(ts[1..], acc + [vs[0]], tail);
      FieldsRoundTrip(acc + [vs[0]], vs[1..], ts[1..], rest);
      assert acc + [vs[0]] + vs[1..] == acc + vs;
    }
  }
}
