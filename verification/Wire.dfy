/** Typed values on the wire: the printer, and the parser that the asynchronous readers implement. */
module Wire {
  import opened Bytes

  /** `max` is the largest value of an integer type; a signed type goes down to `-max - 1`. */
  datatype Type =
    | TBool | TUnsigned(max: nat) | TSigned(max: nat) | TBlob | TIdent
    | TOptional(element: Type) | TVector(element: Type) | TTuple(fields: seq<Type>)

  /** An optional value is a sequence of at most one element, which is how it is written, too. */
  datatype Value =
    | VBool(b: bool) | VUnsigned(n: nat) | VSigned(i: int) | VBlob(bytes: seq<Byte>) | VIdent(name: seq<Byte>)
    | VSequence(elements: seq<Value>) | VTuple(values: seq<Value>)

  datatype Reason =
    | Overflow | DigitExpected(got: int) | BadInInteger(got: int) | HexDigitExpected(got: int)
    | BooleanExpected(got: int) | OpeningQuoteExpected(got: int) | EofInString | NewlineInString
    | UnknownEscape(got: int)
    | IdentifierExpected(got: int) | BadInIdentifier(got: int) | CharExpected(what: Byte, got: int)
    | DuplicateOptional | EndOfMessageExpected(got: int) | MethodNotFound

  datatype Error = ParseError(reason: Reason) | Remote(kind: seq<Byte>, description: seq<Byte>)

  /** A result, and the input that is left: on failure the reader has not consumed the offending byte. */
  datatype Parsed<+T> = Ok(value: T, rest: seq<Byte>) | Err(error: Error, rest: seq<Byte>)

  function Reject<T>(reason: Reason, rest: seq<Byte>): Parsed<T> {
    Err(ParseError(reason), rest)
  }

  // ---- which values have which type ----

  predicate IsIdentifier(name: seq<Byte>) {
    name != [] && IsLeader(name[0]) && forall k :: 1 <= k < |name| ==> IsFollower(name[k])
  }

  predicate HasType(v: Value, t: Type) {
    match t
    case TBool => v.VBool?
    case TUnsigned(max) => v.VUnsigned? && v.n <= max
    case TSigned(max) => v.VSigned? && 0 - max - 1 <= v.i <= max
    case TBlob => v.VBlob?
    case TIdent => v.VIdent? && IsIdentifier(v.name)
    case TOptional(e) => v.VSequence? && |v.elements| <= 1 && AllHaveType(v.elements, e)
    case TVector(e) => v.VSequence? && AllHaveType(v.elements, e)
    case TTuple(ts) => v.VTuple? && HaveTypes(v.values, ts)
  }

  predicate AllHaveType(vs: seq<Value>, t: Type) {
    vs == [] || (HasType(vs[0], t) && AllHaveType(vs[1..], t))
  }

  predicate HaveTypes(vs: seq<Value>, ts: seq<Type>) {
    if ts == [] then vs == [] else vs != [] && HasType(vs[0], ts[0]) && HaveTypes(vs[1..], ts[1..])
  }

  // ---- the printer ----

  function Decimal(n: nat): (digits: seq<Byte>)
    ensures digits != []
  {
    if n < 10 then [ZERO + n] else Decimal(n / 10) + [ZERO + n % 10]
  }

  function Escape(bytes: seq<Byte>): seq<Byte> {
    if bytes == [] then []
    else EscapeByte(bytes[0]) + Escape(bytes[1..])
  }

  function EscapeByte(b: Byte): seq<Byte> {
    if b == NEWLINE then [BACKSLASH, LOWER_N]
    else if b == QUOTE || b == BACKSLASH then [BACKSLASH, b]
    else [b]
  }

  function Print(v: Value): seq<Byte> {
    match v
    case VBool(b) => [if b then BAR else AMPERSAND, SPACE]
    case VUnsigned(n) => Decimal(n) + [SPACE]
    case VSigned(i) => (if i >= 0 then Decimal(i) else [MINUS] + Decimal(-i)) + [SPACE]
    case VBlob(bytes) => [QUOTE] + Escape(bytes) + [QUOTE, SPACE]
    case VIdent(name) => name + [SPACE]
    case VSequence(vs) => [OPEN_BRACKET, SPACE] + PrintAll(vs) + [CLOSE_BRACKET, SPACE]
    case VTuple(vs) => [OPEN_BRACE, SPACE] + PrintAll(vs) + [CLOSE_BRACE, SPACE]
  }

  function PrintAll(vs: seq<Value>): seq<Byte> {
    if vs == [] then [] else Print(vs[0]) + PrintAll(vs[1..])
  }

  // ---- the parser ----

  const ErrorType := TTuple([TIdent, TBlob])

  function SkipSpaces(s: seq<Byte>): (rest: seq<Byte>)
    ensures |rest| <= |s|
    ensures !IsWhitespace(Peek(rest))
  {
    if IsWhitespace(Peek(s)) then SkipSpaces(s[1..]) else s
  }

  function ReadDigits(max: nat, seen: bool, value: nat, s: seq<Byte>): (r: Parsed<Value>)
    ensures |r.rest| <= |s| && (r.Ok? && !seen ==> |r.rest| < |s|)
    ensures r.Ok? ==> r.value.VUnsigned?
    decreases |s|
  {
    if IsDigit(Peek(s)) then
      var d := s[0] - ZERO;
      if value > max / 10 || d > max - 10 * value then Reject(Overflow, s)
      else ReadDigits(max, true, 10 * value + d, s[1..])
    else if !seen then Reject(DigitExpected(Peek(s)), s)
    else if s == [] || s[0] == NEWLINE then Reject(BadInInteger(Peek(s)), s)
    else Ok(VUnsigned(value), s)
  }

  /** How many hex digits are missing (in bits), and the value of those already read, fit together. */
  predicate HexRoom(shift: nat, value: nat) {
    (shift == 8 && value == 0) || (shift == 4 && value <= 240) || (shift == 0 && value < 256)
  }

  /** The digits fill the value from the top, four bits at a time. */
  function HexStep(shift: nat, value: nat, digit: nat): (v: nat)
    requires HexRoom(shift, value) && shift > 0 && digit < 16 && (shift == 4 ==> value % 16 == 0)
    ensures HexRoom(shift - 4, v) && (shift == 8 ==> v % 16 == 0)
  {
    if shift == 8 then 16 * digit else value + digit
  }

  function ReadHexDigits(shift: nat, value: nat, s: seq<Byte>): (r: Parsed<Value>)
    requires HexRoom(shift, value) && value % (if shift == 4 then 16 else 1) == 0
    ensures |r.rest| <= |s|
    ensures r.Ok? ==> r.value.VUnsigned? && r.value.n < 256
    decreases |s|
  {
    if shift == 0 then Ok(VUnsigned(value), s)
    else if HexDigitValue(Peek(s)) < 0 then Reject(HexDigitExpected(Peek(s)), s)
    else ReadHexDigits(shift - 4, HexStep(shift, value, HexDigitValue(s[0])), s[1..])
  }

  function ReadContents(acc: seq<Byte>, s: seq<Byte>): (r: Parsed<Value>)
    ensures |r.rest| <= |s|
    decreases |s|
  {
    if s == [] then Reject(EofInString, s)
    else if s[0] == QUOTE then Ok(VBlob(acc), s[1..])
    else if s[0] == NEWLINE then Reject(NewlineInString, s)
    else if s[0] == BACKSLASH then ReadEscaped(acc, s[1..])
    else ReadContents(acc + [s[0]], s[1..])
  }

  /** The byte that a one-letter escape stands for. */
  function Unescaped(c: int): (b: int)
    ensures -1 <= b < 256
  {
    if c == LOWER_T then TAB else if c == LOWER_N then NEWLINE else if c == LOWER_R then RETURN
    else if c == QUOTE || c == APOSTROPHE || c == BACKSLASH then c
    else -1
  }

  function ReadEscaped(acc: seq<Byte>, s: seq<Byte>): (r: Parsed<Value>)
    ensures |r.rest| <= |s|
    decreases |s|
  {
    if Unescaped(Peek(s)) >= 0 then ReadContents(acc + [Unescaped(s[0])], s[1..])
    else if Peek(s) == LOWER_X then
      match ReadHexDigits(8, 0, s[1..])
      case Ok(v, rest) => ReadContents(acc + [v.n], rest)
      case Err(e, rest) => Err(e, rest)
    else Reject(UnknownEscape(Peek(s)), s)
  }

  function ReadFollowers(acc: seq<Byte>, s: seq<Byte>): (r: Parsed<Value>)
    ensures |r.rest| <= |s|
    decreases |s|
  {
    if IsFollower(Peek(s)) then ReadFollowers(acc + [s[0]], s[1..])
    else if s == [] || s[0] == NEWLINE then Reject(BadInIdentifier(Peek(s)), s)
    else Ok(VIdent(acc), s)
  }

  function Signed(negative: bool, v: Value): Value {
    if v.VUnsigned? then VSigned(if negative then 0 - v.n else v.n) else v
  }

  function AsSigned(negative: bool, r: Parsed<Value>): Parsed<Value> {
    match r
    case Ok(v, rest) => Ok(Signed(negative, v), rest)
    case Err(e, rest) => Err(e, rest)
  }

  /** What the exception handler makes of the remote error that it has read. */
  function Thrown(v: Value): Error {
    if v.VTuple? && |v.values| == 2 && v.values[0].VIdent? && v.values[1].VBlob?
    then Remote(v.values[0].name, v.values[1].bytes)
    else Remote([], [])
  }

  /** Skips whitespace; an exception marker makes the reader read a remote error and fail with it. */
  function ToToken(s: seq<Byte>): (r: Parsed<()>)
    ensures |r.rest| <= |s|
    decreases |s|, 0
  {
    var start := SkipSpaces(s);
    if Peek(start) == BANG then
      match Parse(ErrorType, start[1..])
      case Ok(v, rest) => Err(Thrown(v), rest)
      case Err(e, rest) => Err(e, rest)
    else Ok((), start)
  }

  function Parse(t: Type, s: seq<Byte>): (r: Parsed<Value>)
    ensures |r.rest| <= |s| && (r.Ok? ==> |r.rest| < |s|)
    decreases |s|, 2
  {
    match ToToken(s)
    case Ok(_, start) => ParseToken(t, start)
    case Err(e, rest) => Err(e, rest)
  }

  /** Parses a value whose first byte, or the end of input, is at hand. */
  function ParseToken(t: Type, s: seq<Byte>): (r: Parsed<Value>)
    ensures |r.rest| <= |s| && (r.Ok? ==> |r.rest| < |s|)
    decreases |s|, 1
  {
    var c := Peek(s);
    match t
    case TBool =>
      if c == AMPERSAND then Ok(VBool(false), s[1..])
      else if c == BAR then Ok(VBool(true), s[1..])
      else Reject(BooleanExpected(c), s)
    case TUnsigned(max) => ReadDigits(max, false, 0, s)
    case TSigned(max) =>
      if c == MINUS then AsSigned(true, ReadDigits(max + 1, false, 0, s[1..]))
      else AsSigned(false, ReadDigits(max, false, 0, s))
    case TBlob => if c == QUOTE then ReadContents([], s[1..]) else Reject(OpeningQuoteExpected(c), s)
    case TIdent => if IsLeader(c) then ReadFollowers([s[0]], s[1..]) else Reject(IdentifierExpected(c), s)
    case TOptional(e) =>
      if c == OPEN_BRACKET then ReadElements(true, e, [], s[1..]) else Reject(CharExpected(OPEN_BRACKET, c), s)
    case TVector(e) =>
      if c == OPEN_BRACKET then ReadElements(false, e, [], s[1..]) else Reject(CharExpected(OPEN_BRACKET, c), s)
    case TTuple(ts) =>
      if c == OPEN_BRACE then ReadFields(ts, [], s[1..]) else Reject(CharExpected(OPEN_BRACE, c), s)
  }

  function ReadElements(optional: bool, t: Type, acc: seq<Value>, s: seq<Byte>): (r: Parsed<Value>)
    ensures |r.rest| <= |s|
    decreases |s|, 4
  {
    match ToToken(s)
    case Err(e, rest) => Err(e, rest)
    case Ok(_, start) =>
      if Peek(start) == CLOSE_BRACKET then Ok(VSequence(acc), start[1..])
      else ReadElement(optional, t, acc, start)
  }

  function ReadElement(optional: bool, t: Type, acc: seq<Value>, s: seq<Byte>): (r: Parsed<Value>)
    ensures |r.rest| <= |s|
    decreases |s|, 3
  {
    match Parse(t, s)
    case Err(e, rest) => Err(e, rest)
    case Ok(v, rest) =>
      if optional && acc != [] then Reject(DuplicateOptional, rest)
      else ReadElements(optional, t, acc + [v], rest)
  }

  function ReadFields(ts: seq<Type>, acc: seq<Value>, s: seq<Byte>): (r: Parsed<Value>)
    ensures |r.rest| <= |s|
    decreases |s|, 3
  {
    if ts == [] then
      match ToToken(s)
      case Err(e, rest) => Err(e, rest)
      case Ok(_, start) =>
        if Peek(start) == CLOSE_BRACE then Ok(VTuple(acc), start[1..])
        else Reject(CharExpected(CLOSE_BRACE, Peek(start)), start)
    else
      match Parse(ts[0], s)
      case Err(e, rest) => Err(e, rest)
      case Ok(v, rest) => ReadFields(ts[1..], acc + [v], rest)
  }

  /** Checks for the end of a message without consuming it. */
  function CheckEndOfMessage(s: seq<Byte>): (r: Parsed<()>)
    ensures |r.rest| <= |s|
  {
    match ToToken(s)
    case Err(e, rest) => Err(e, rest)
    case Ok(_, start) =>
      if Peek(start) == NEWLINE then Ok((), start) else Reject(EndOfMessageExpected(Peek(start)), start)
  }

  /** Skips the rest of a message, up to and including its newline or up to the end of input. */
  function Drain(s: seq<Byte>): (rest: seq<Byte>)
    ensures |rest| <= |s|
  {
    if s == [] then [] else if s[0] == NEWLINE then s[1..] else Drain(s[1..])
  }
}
