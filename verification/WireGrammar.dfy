/** The grammar of values on the wire, with the value of every text: the parser accepts exactly this language. */
module WireGrammar {
  import opened Bytes
  import opened Wire
  import opened WireRoundTrip
  import opened Wrappers

  function Code(c: char): Byte
    requires (c as int) < 256
  {
    c as int
  }

  predicate Blank(b: int) {
    b == '\t' as int || b == '\r' as int || b == ' ' as int
  }

  predicate Digit(b: int) {
    '0' as int <= b <= '9' as int
  }

  predicate Letter(b: int) {
    'a' as int <= b <= 'z' as int || 'A' as int <= b <= 'Z' as int || b == '_' as int
  }

  ghost predicate Blanks(ws: seq<Byte>) {
    forall k :: 0 <= k < |ws| ==> Blank(ws[k])
  }

  ghost predicate Digits(ds: seq<Byte>) {
    forall k :: 0 <= k < |ds| ==> Digit(ds[k])
  }

  function DigitOf(b: Byte): nat {
    if Digit(b) then b - '0' as int else 0
  }

  /** The number that is written in decimal notation. */
  function Numeral(ds: seq<Byte>): nat {
    if ds == [] then 0 else 10 * Numeral(ds[..|ds| - 1]) + DigitOf(ds[|ds| - 1])
  }

  // ---- strings ----

  /** A byte of a string, and one of the ways to write it. */
  datatype Piece = Plain(b: Byte) | Escaped(letter: char) | Hex(high: nat, highUpper: bool, low: nat, lowUpper: bool)

  /** What the one-letter escapes stand for. */
  const ESCAPES: map<char, char> := map['t' := '\t', 'n' := '\n', 'r' := '\r', '\"' := '\"', '\'' := '\'', '\\' := '\\']

  predicate ProperPiece(p: Piece) {
    match p
    case Plain(b) => b != '\"' as int && b != '\\' as int && b != '\n' as int
    case Escaped(letter) => letter in ESCAPES
    case Hex(high, _, low, _) => high < 16 && low < 16
  }

  function HexChar(digit: nat, upper: bool): Byte
    requires digit < 16
  {
    if digit < 10 then '0' as int + digit else (if upper then 'A' as int else 'a' as int) + (digit - 10)
  }

  function PieceText(p: Piece): seq<Byte>
    requires ProperPiece(p)
  {
    match p
    case Plain(b) => [b]
    case Escaped(letter) => [Code('\\'), Code(letter)]
    case Hex(high, highUpper, low, lowUpper) =>
      [Code('\\'), Code('x'), HexChar(high, highUpper), HexChar(low, lowUpper)]
  }

  function PieceByte(p: Piece): Byte
    requires ProperPiece(p)
  {
    match p
    case Plain(b) => b
    case Escaped(letter) => Code(ESCAPES[letter])
    case Hex(high, _, low, _) => 16 * high + low
  }

  predicate ProperPieces(ps: seq<Piece>) {
    ps == [] || (ProperPiece(ps[0]) && ProperPieces(ps[1..]))
  }

  function PiecesText(ps: seq<Piece>): seq<Byte>
    requires ProperPieces(ps)
  {
    if ps == [] then [] else PieceText(ps[0]) + PiecesText(ps[1..])
  }

  function PiecesBytes(ps: seq<Piece>): seq<Byte>
    requires ProperPieces(ps)
  {
    if ps == [] then [] else [PieceByte(ps[0])] + PiecesBytes(ps[1..])
  }

  lemma HexDigitOf(digit: nat, upper: bool)
    requires digit < 16
    ensures HexDigitValue(HexChar(digit, upper)) == digit
  {
  }

  lemma HexDigitIs(c: int) returns (digit: nat, upper: bool)
    requires HexDigitValue(c) >= 0
    ensures digit < 16 && HexChar(digit, upper) == c && HexDigitValue(c) == digit
  {
    digit, upper := HexDigitValue(c), c < 'a' as int;
  }

  lemma TwoHexDigits(high: nat, highUpper: bool, low: nat, lowUpper: bool, s: seq<Byte>)
    requires high < 16 && low < 16
    ensures ReadHexDigits(8, 0, [HexChar(high, highUpper), HexChar(low, lowUpper)] + s)
            == Ok(VUnsigned(16 * high + low), s)
  {
    var text := [HexChar(high, highUpper), HexChar(low, lowUpper)] + s;
    HexDigitOf(high, highUpper);
    HexDigitOf(low, lowUpper);
    assert text[1..] == [HexChar(low, lowUpper)] + s && text[1..][1..] == s;
    assert ReadHexDigits(8, 0, text) == ReadHexDigits(4, 16 * high, text[1..]);
    assert ReadHexDigits(4, 16 * high, text[1..]) == ReadHexDigits(0, 16 * high + low, s);
  }

  lemma PieceIsRead(acc: seq<Byte>, p: Piece, s: seq<Byte>)
    requires ProperPiece(p)
    ensures ReadContents(acc, PieceText(p) + s) == ReadContents(acc + [PieceByte(p)], s)
  {
    var text := PieceText(p) + s;
    match p
    case Plain(b) => assert text[1..] == s;
    case Escaped(letter) =>
      assert text[1..] == [Code(letter)] + s && text[1..][1..] == s;
      assert ReadContents(acc, text) == ReadEscaped(acc, text[1..]);
    case Hex(high, highUpper, low, lowUpper) =>
      var digits := [HexChar(high, highUpper), HexChar(low, lowUpper)] + s;
      assert text[1..] == [Code('x')] + digits && text[1..][1..] == digits;
      assert ReadContents(acc, text) == ReadEscaped(acc, text[1..]);
      TwoHexDigits(high, highUpper, low, lowUpper, s);
  }

  /** Pieces of a string are read as their bytes, whatever follows. */
  lemma {:induction false} PiecesAreSame(acc: seq<Byte>, ps: seq<Piece>, s: seq<Byte>)
    requires ProperPieces(ps)
    ensures SameContents(acc, PiecesText(ps) + s, acc + PiecesBytes(ps), s)
    decreases |ps|
  {
    if ps == [] {
      assert PiecesText(ps) + s == s && acc + PiecesBytes(ps) == acc;
    } else {
      var tail := PiecesText(ps[1..]) + s;
      assert PiecesText(ps) + s == PieceText(ps[0]) + tail;
      PieceIsSame(acc, ps[0], tail);
      PiecesAreSame(acc + [PieceByte(ps[0])], ps[1..], s);
      assert (acc + [PieceByte(ps[0])]) + PiecesBytes(ps[1..]) == acc + PiecesBytes(ps);
      SameContentsTransitive(acc, PieceText(ps[0]) + tail, acc + [PieceByte(ps[0])], tail, acc + PiecesBytes(ps), s);
    }
  }

  lemma PieceIsSame(acc: seq<Byte>, p: Piece, s: seq<Byte>)
    requires ProperPiece(p)
    ensures SameContents(acc, PieceText(p) + s, acc + [PieceByte(p)], s)
  {
    PieceIsRead(acc, p, s);
  }

  lemma PiecesGoOn(acc: seq<Byte>, ps: seq<Piece>, s: seq<Byte>)
    requires ProperPieces(ps)
    ensures ReadContents(acc, PiecesText(ps) + s) == ReadContents(acc + PiecesBytes(ps), s)
  {
    PiecesAreSame(acc, ps, s);
    assert Opened(true);
  }

  /** A string, however its bytes are written, denotes these bytes. */
  lemma PiecesAreRead(acc: seq<Byte>, ps: seq<Piece>, s: seq<Byte>)
    requires ProperPieces(ps)
    ensures ReadContents(acc, PiecesText(ps) + ([Code('\"')] + s)) == Ok(VBlob(acc + PiecesBytes(ps)), s)
  {
    PiecesGoOn(acc, ps, [Code('\"')] + s);
    assert ([Code('\"')] + s)[1..] == s;
  }

  lemma {:induction false} StringIsRead(acc: seq<Byte>, s: seq<Byte>) returns (ps: seq<Piece>)
    requires ReadContents(acc, s).Ok?
    ensures ProperPieces(ps) && ReadContents(acc, s).value == VBlob(acc + PiecesBytes(ps))
    ensures s == PiecesText(ps) + ([Code('\"')] + ReadContents(acc, s).rest)
    decreases |s|
  {
    if s[0] == QUOTE {
      ps := [];
    } else {
      var p, rest := FirstPiece(acc, s);
      var others := StringIsRead(acc + [PieceByte(p)], rest);
      ps := [p] + others;
      OneMorePiece(acc, p, others, [Code('\"')] + ReadContents(acc, s).rest);
    }
  }

  lemma OneMorePiece(acc: seq<Byte>, p: Piece, others: seq<Piece>, end: seq<Byte>)
    requires ProperPiece(p) && ProperPieces(others)
    ensures ProperPieces([p] + others)
    ensures PiecesText([p] + others) + end == PieceText(p) + (PiecesText(others) + end)
    ensures acc + PiecesBytes([p] + others) == (acc + [PieceByte(p)]) + PiecesBytes(others)
  {
    assert ([p] + others)[1..] == others;
  }

  lemma HexDigitsAreTwo(s: seq<Byte>)
    requires ReadHexDigits(8, 0, s).Ok?
    ensures |s| >= 2 && HexDigitValue(s[0]) >= 0 && HexDigitValue(s[1]) >= 0
  {
    var value := HexStep(8, 0, HexDigitValue(s[0]));
    assert ReadHexDigits(8, 0, s) == ReadHexDigits(4, value, s[1..]);
  }

  lemma HexPiece(s: seq<Byte>) returns (p: Piece)
    requires ReadHexDigits(8, 0, s).Ok?
    ensures ProperPiece(p) && |s| >= 2 && [BACKSLASH, LOWER_X] + s == PieceText(p) + s[2..]
    ensures ReadHexDigits(8, 0, s) == Ok(VUnsigned(PieceByte(p)), s[2..])
  {
    HexDigitsAreTwo(s);
    var high, highUpper := HexDigitIs(s[0]);
    var low, lowUpper := HexDigitIs(s[1]);
    p := Hex(high, highUpper, low, lowUpper);
    assert s == [HexChar(high, highUpper), HexChar(low, lowUpper)] + s[2..];
    TwoHexDigits(high, highUpper, low, lowUpper, s[2..]);
  }

  lemma FirstPiece(acc: seq<Byte>, s: seq<Byte>) returns (p: Piece, rest: seq<Byte>)
    requires ReadContents(acc, s).Ok? && s[0] != QUOTE
    ensures ProperPiece(p) && s == PieceText(p) + rest
            && ReadContents(acc, s) == ReadContents(acc + [PieceByte(p)], rest)
  {
    if s[0] != BACKSLASH {
      p, rest := Plain(s[0]), s[1..];
    } else if s[1] == LOWER_X {
      assert ReadContents(acc, s) == ReadEscaped(acc, s[1..]) && s[1..][1..] == s[2..];
      p := HexPiece(s[2..]);
      rest := s[4..];
      assert s == [BACKSLASH, LOWER_X] + s[2..];
    } else {
      p, rest := Escaped(s[1] as char), s[2..];
      assert ReadContents(acc, s) == ReadEscaped(acc, s[1..]) && s[1..][1..] == s[2..];
    }
  }

  // ---- numbers ----

  lemma {:induction false} NumeralGrows(ds: seq<Byte>, more: seq<Byte>)
    requires Digits(ds) && Digits(more)
    ensures Numeral(ds) <= Numeral(ds + more)
    decreases |ds| + |more|, |more|
  {
    if more == [] {
      assert ds + more == ds;
      if ds != [] { NumeralGrows(ds[..|ds| - 1], []); }
    } else {
      var fewer := more[..|more| - 1];
      NumeralGrows(ds, fewer);
      assert (ds + more)[..|ds + more| - 1] == ds + fewer;
    }
  }

  lemma NumeralOfOneMore(ds: seq<Byte>, d: Byte)
    ensures Numeral(ds + [d]) == 10 * Numeral(ds) + DigitOf(d)
  {
    assert (ds + [d])[..|ds|] == ds;
  }

  /** What is read of a number of which `front` is behind the reader, and `ds` is still to come. */
  ghost predicate ReadsNumber(max: nat, all: seq<Byte>, rest: seq<Byte>, r: Parsed<Value>) {
    if all == [] then r == Err(ParseError(DigitExpected(Peek(rest))), rest)
    else if Numeral(all) > max then r.Err? && r.error == ParseError(Overflow)
    else if rest == [] || rest[0] == '\n' as int then r == Err(ParseError(BadInInteger(Peek(rest))), rest)
    else r == Ok(VUnsigned(Numeral(all)), rest)
  }

  /** The test for overflow is exact: a digit is taken exactly if the number with it is not above the maximum. */
  lemma OneDigitRead(max: nat, seen: bool, value: nat, d: Byte, s: seq<Byte>)
    requires Digit(d) && value <= max
    ensures ReadDigits(max, seen, value, [d] + s) ==
            if 10 * value + DigitOf(d) > max then Err(ParseError(Overflow), [d] + s)
            else ReadDigits(max, true, 10 * value + DigitOf(d), s)
  {
    assert ([d] + s)[1..] == s;
  }

  lemma {:induction false} DigitsAreRead(max: nat, front: seq<Byte>, ds: seq<Byte>, rest: seq<Byte>)
    requires Digits(front) && Digits(ds) && !Digit(Peek(rest)) && Numeral(front) <= max
    ensures ReadsNumber(max, front + ds, rest, ReadDigits(max, front != [], Numeral(front), ds + rest))
    decreases |ds|
  {
    if ds == [] {
      assert front + ds == front && ds + rest == rest;
    } else {
      var d, others := ds[0], ds[1..];
      assert ds + rest == [d] + (others + rest);
      assert front + ds == (front + [d]) + others;
      NumeralOfOneMore(front, d);
      NumeralGrows(front + [d], others);
      OneDigitRead(max, front != [], Numeral(front), d, others + rest);
      if Numeral(front + [d]) <= max {
        DigitsAreRead(max, front + [d], others, rest);
      }
    }
  }

  /**
   What is read of any digits, exactly: their number, unless it is above the maximum, or the input or the line ends
   behind them; a sign makes room for one more.
   */
  lemma NumberIsRead(max: nat, ds: seq<Byte>, rest: seq<Byte>)
    requires Digits(ds) && ds != [] && !Digit(Peek(rest))
    ensures ReadsNumber(max, ds, rest, Parse(TUnsigned(max), ds + rest))
    ensures ReadsSigned(false, max, ds, rest, Parse(TSigned(max), ds + rest))
    ensures ReadsSigned(true, max + 1, ds, rest, Parse(TSigned(max), [Code('-')] + ds + rest))
  {
    NumberToken(max, ds, rest);
    NumberToken(max + 1, ds, rest);
    var s, t := ds + rest, [Code('-')] + ds + rest;
    assert s[0] == ds[0] && ToToken(s) == Ok((), s);
    assert t[0] == MINUS && ToToken(t) == Ok((), t) && t[1..] == s;
  }

  lemma NumberToken(max: nat, ds: seq<Byte>, rest: seq<Byte>)
    requires Digits(ds) && !Digit(Peek(rest))
    ensures ReadsNumber(max, ds, rest, ReadDigits(max, false, 0, ds + rest))
  {
    DigitsAreRead(max, [], ds, rest);
    assert [] + ds == ds;
  }

  ghost predicate ReadsSigned(negative: bool, max: nat, ds: seq<Byte>, rest: seq<Byte>, r: Parsed<Value>) {
    if ds == [] then r == Err(ParseError(DigitExpected(Peek(rest))), rest)
    else if Numeral(ds) > max then r.Err? && r.error == ParseError(Overflow)
    else if rest == [] || rest[0] == '\n' as int then r == Err(ParseError(BadInInteger(Peek(rest))), rest)
    else r == Ok(VSigned(if negative then 0 - Numeral(ds) else Numeral(ds)), rest)
  }

  /** The digits at the front of an input. */
  lemma {:induction false} LeadingDigits(s: seq<Byte>) returns (ds: seq<Byte>, rest: seq<Byte>)
    ensures s == ds + rest && Digits(ds) && !Digit(Peek(rest))
  {
    if Digit(Peek(s)) {
      ds, rest := LeadingDigits(s[1..]);
      ds := [s[0]] + ds;
    } else {
      ds, rest := [], s;
    }
  }

  // ---- whitespace ----

  lemma {:induction false} BlanksAreSkipped(ws: seq<Byte>, s: seq<Byte>)
    requires Blanks(ws)
    ensures SkipSpaces(ws + s) == SkipSpaces(s) && ToToken(ws + s) == ToToken(s)
  {
    if ws == [] {
      assert ws + s == s;
    } else {
      assert (ws + s)[1..] == ws[1..] + s;
      BlanksAreSkipped(ws[1..], s);
    }
  }

  lemma {:induction false} SkippedAreBlanks(s: seq<Byte>) returns (ws: seq<Byte>)
    ensures Blanks(ws) && s == ws + SkipSpaces(s)
  {
    if IsWhitespace(Peek(s)) {
      ws := SkippedAreBlanks(s[1..]);
      ws := [s[0]] + ws;
    } else {
      ws := [];
    }
  }

  // ---- values ----

  /**
   How a value is written: with whitespace in front of every token, and with any spelling of its strings and numbers.
   */
  datatype Tree =
    | Boolean(ws: seq<Byte>, b: bool)
    | Unsigned(ws: seq<Byte>, digits: seq<Byte>)
    | Signed(ws: seq<Byte>, negative: bool, digits: seq<Byte>)
    | Blob(ws: seq<Byte>, pieces: seq<Piece>)
    | Name(ws: seq<Byte>, name: seq<Byte>)
    | Sequence(ws: seq<Byte>, elements: seq<Tree>, end: seq<Byte>)
    | Tuple(ws: seq<Byte>, fields: seq<Tree>, end: seq<Byte>)

  ghost predicate ProperName(name: seq<Byte>) {
    name != [] && Letter(name[0]) && forall k :: 1 <= k < |name| ==> Letter(name[k]) || Digit(name[k])
  }

  /** The tree is one of a value of the type. */
  ghost predicate Fits(tree: Tree, t: Type)
    decreases tree, 0
  {
    && Blanks(tree.ws)
    && match t
       case TBool => tree.Boolean?
       case TUnsigned(max) => tree.Unsigned? && tree.digits != [] && Digits(tree.digits) && Numeral(tree.digits) <= max
       case TSigned(max) =>
         && tree.Signed? && tree.digits != [] && Digits(tree.digits)
         && Numeral(tree.digits) <= if tree.negative then max + 1 else max
       case TBlob => tree.Blob? && ProperPieces(tree.pieces)
       case TIdent => tree.Name? && ProperName(tree.name)
       case TOptional(e) => tree.Sequence? && Blanks(tree.end) && |tree.elements| <= 1 && AllFit(tree.elements, e)
       case TVector(e) => tree.Sequence? && Blanks(tree.end) && AllFit(tree.elements, e)
       case TTuple(ts) => tree.Tuple? && Blanks(tree.end) && FieldsFit(tree.fields, ts)
  }

  ghost predicate AllFit(trees: seq<Tree>, t: Type)
    decreases trees, 1
  {
    trees == [] || (Fits(trees[0], t) && AllFit(trees[1..], t))
  }

  ghost predicate FieldsFit(trees: seq<Tree>, ts: seq<Type>)
    decreases trees, 1
  {
    if ts == [] then trees == [] else trees != [] && Fits(trees[0], ts[0]) && FieldsFit(trees[1..], ts[1..])
  }

  function TreeText(tree: Tree): seq<Byte>
    decreases tree, 1
  {
    tree.ws + TreeBody(tree)
  }

  /** The text behind the leading whitespace. */
  function TreeBody(tree: Tree): seq<Byte>
    decreases tree, 0
  {
    match tree
    case Boolean(_, b) => [if b then Code('|') else Code('&')]
    case Unsigned(_, digits) => digits
    case Signed(_, negative, digits) => (if negative then [Code('-')] else []) + digits
    case Blob(_, pieces) =>
      [Code('\"')] + (if ProperPieces(pieces) then PiecesText(pieces) else []) + [Code('\"')]
    case Name(_, name) => name
    case Sequence(_, elements, end) => [Code('[')] + TreesText(elements) + end + [Code(']')]
    case Tuple(_, fields, end) => [Code('{')] + TreesText(fields) + end + [Code('}')]
  }

  function TreesText(trees: seq<Tree>): seq<Byte>
    decreases trees, 0
  {
    if trees == [] then [] else TreeText(trees[0]) + TreesText(trees[1..])
  }

  function TreeValue(tree: Tree): Value
    decreases tree, 0
  {
    match tree
    case Boolean(_, b) => VBool(b)
    case Unsigned(_, digits) => VUnsigned(Numeral(digits))
    case Signed(_, negative, digits) => VSigned(if negative then 0 - Numeral(digits) else Numeral(digits))
    case Blob(_, pieces) => VBlob(if ProperPieces(pieces) then PiecesBytes(pieces) else [])
    case Name(_, name) => VIdent(name)
    case Sequence(_, elements, _) => VSequence(TreeValues(elements))
    case Tuple(_, fields, _) => VTuple(TreeValues(fields))
  }

  function TreeValues(trees: seq<Tree>): seq<Value>
    decreases trees, 1
  {
    if trees == [] then [] else [TreeValue(trees[0])] + TreeValues(trees[1..])
  }

  /** Numbers and names end where something follows on the same line that cannot be part of them. */
  ghost predicate EndsAt(tree: Tree, rest: seq<Byte>)
    decreases tree, 0
  {
    match tree
    case Unsigned(_, _) => Peek(rest) != EOF && Peek(rest) != '\n' as int && !Digit(Peek(rest))
    case Signed(_, _, _) => Peek(rest) != EOF && Peek(rest) != '\n' as int && !Digit(Peek(rest))
    case Name(_, _) => Peek(rest) != EOF && Peek(rest) != '\n' as int && !Digit(Peek(rest)) && !Letter(Peek(rest))
    case Sequence(_, elements, end) => AllEnd(elements, end + ([Code(']')] + rest))
    case Tuple(_, fields, end) => AllEnd(fields, end + ([Code('}')] + rest))
    case _ => true
  }

  ghost predicate AllEnd(trees: seq<Tree>, rest: seq<Byte>)
    decreases trees, 1
  {
    trees == [] || (EndsAt(trees[0], TreesText(trees[1..]) + rest) && AllEnd(trees[1..], rest))
  }

  // ---- every text of the grammar is accepted, with its value ----

  lemma FirstOfTree(tree: Tree, t: Type, rest: seq<Byte>)
    requires Fits(tree, t)
    ensures var body := TreeBody(tree) + rest;
            && TreeText(tree) + rest == tree.ws + body && body != [] && !IsWhitespace(body[0]) && body[0] != BANG
            && body[0] != CLOSE_BRACKET && body[0] != CLOSE_BRACE
  {
    var text := TreeBody(tree);
    assert TreeText(tree) == tree.ws + text;
    assert text != [];
    assert (text + rest)[0] == text[0];
  }

  lemma TreeStarts(tree: Tree, t: Type, rest: seq<Byte>)
    requires Fits(tree, t)
    ensures var body := TreeBody(tree) + rest;
            && ToToken(TreeText(tree) + rest) == Ok((), body) && Peek(body) != CLOSE_BRACKET
            && Parse(t, TreeText(tree) + rest) == ParseToken(t, body)
  {
    var body := TreeBody(tree) + rest;
    FirstOfTree(tree, t, rest);
    BlanksAreSkipped(tree.ws, body);
  }

  lemma {:induction false} NameIsRead(acc: seq<Byte>, name: seq<Byte>, rest: seq<Byte>)
    requires forall k :: 0 <= k < |name| ==> Letter(name[k]) || Digit(name[k])
    requires Peek(rest) != EOF && Peek(rest) != '\n' as int && !Digit(Peek(rest)) && !Letter(Peek(rest))
    ensures ReadFollowers(acc, name + rest) == Ok(VIdent(acc + name), rest)
    decreases |name|
  {
    if name == [] {
      assert name + rest == rest && acc + name == acc;
    } else {
      assert (name + rest)[1..] == name[1..] + rest;
      NameIsRead(acc + [name[0]], name[1..], rest);
      assert (acc + [name[0]]) + name[1..] == acc + name;
    }
  }

  /** The grammar is accepted: every text of a tree is read as the value of the tree. */
  lemma {:induction false} TreeIsRead(tree: Tree, t: Type, rest: seq<Byte>)
    requires Fits(tree, t) && EndsAt(tree, rest)
    ensures Parse(t, TreeText(tree) + rest) == Ok(TreeValue(tree), rest)
    decreases tree, 0
  {
    TreeStarts(tree, t, rest);
    var body := TreeBody(tree) + rest;
    BodyText(tree, rest);
    match tree
    case Boolean(_, _) =>
    case Unsigned(_, digits) => NumberToken(t.max, digits, rest);
    case Signed(_, negative, digits) => SignedIsRead(t.max, negative, digits, rest, body);
    case Blob(_, pieces) => BlobIsRead(pieces, rest, body);
    case Name(_, name) => IdentIsRead(name, rest, body);
    case Sequence(_, elements, end) =>
      ElementsAreRead(t.TOptional?, t.element, [], elements, end, rest);
      assert [] + TreeValues(elements) == TreeValues(elements);
    case Tuple(_, fields, end) =>
      FieldsAreRead(t.fields, [], fields, end, rest);
      assert [] + TreeValues(fields) == TreeValues(fields);
  }

  /** The text of a tree behind its leading whitespace. */
  lemma BodyText(tree: Tree, rest: seq<Byte>)
    ensures var body := TreeBody(tree) + rest;
            match tree
            case Boolean(_, b) => body == [if b then Code('|') else Code('&')] + rest && body[1..] == rest
            case Unsigned(_, digits) => body == digits + rest
            case Signed(_, negative, digits) => body == (if negative then [Code('-')] else []) + digits + rest
            case Blob(_, pieces) =>
              ProperPieces(pieces) ==> body == [Code('\"')] + (PiecesText(pieces) + ([Code('\"')] + rest))
            case Name(_, name) => body == name + rest
            case Sequence(_, elements, end) =>
              body != [] && body[0] == Code('[') && body[1..] == TreesText(elements) + (end + ([Code(']')] + rest))
            case Tuple(_, fields, end) =>
              body != [] && body[0] == Code('{') && body[1..] == TreesText(fields) + (end + ([Code('}')] + rest))
  {
    match tree
    case Blob(_, pieces) =>
      if ProperPieces(pieces) { BetweenBrackets(Code('\"'), PiecesText(pieces), [], Code('\"'), rest); }
    case Sequence(_, elements, end) => BetweenBrackets(Code('['), TreesText(elements), end, Code(']'), rest);
    case Tuple(_, fields, end) => BetweenBrackets(Code('{'), TreesText(fields), end, Code('}'), rest);
    case _ =>
  }

  lemma BetweenBrackets(open: Byte, text: seq<Byte>, end: seq<Byte>, close: Byte, rest: seq<Byte>)
    ensures var body := ([open] + text + end + [close]) + rest;
            && body == [open] + (text + (end + ([close] + rest))) && body[1..] == text + (end + ([close] + rest))
    ensures end == [] ==> ([open] + text + [close]) + rest == [open] + (text + ([close] + rest))
  {
  }

  lemma BlobIsRead(pieces: seq<Piece>, rest: seq<Byte>, body: seq<Byte>)
    requires ProperPieces(pieces) && body == [Code('\"')] + (PiecesText(pieces) + ([Code('\"')] + rest))
    ensures ParseToken(TBlob, body) == Ok(VBlob(PiecesBytes(pieces)), rest)
  {
    assert body[1..] == PiecesText(pieces) + ([Code('\"')] + rest);
    PiecesAreRead([], pieces, rest);
    assert [] + PiecesBytes(pieces) == PiecesBytes(pieces);
  }

  lemma IdentIsRead(name: seq<Byte>, rest: seq<Byte>, body: seq<Byte>)
    requires ProperName(name) && body == name + rest
    requires Peek(rest) != EOF && Peek(rest) != '\n' as int && !Digit(Peek(rest)) && !Letter(Peek(rest))
    ensures ParseToken(TIdent, body) == Ok(VIdent(name), rest)
  {
    assert body[1..] == name[1..] + rest && body[0] == name[0];
    NameIsRead([name[0]], name[1..], rest);
    assert [name[0]] + name[1..] == name;
  }

  lemma SignedIsRead(max: nat, negative: bool, digits: seq<Byte>, rest: seq<Byte>, body: seq<Byte>)
    requires Digits(digits) && digits != [] && Numeral(digits) <= if negative then max + 1 else max
    requires Peek(rest) != EOF && Peek(rest) != '\n' as int && !Digit(Peek(rest))
    requires body == (if negative then [Code('-')] else []) + digits + rest
    ensures ParseToken(TSigned(max), body)
            == Ok(VSigned(if negative then 0 - Numeral(digits) else Numeral(digits)), rest)
  {
    if negative {
      assert body[1..] == digits + rest;
      NumberToken(max + 1, digits, rest);
    } else {
      assert body == digits + rest && body[0] == digits[0];
      NumberToken(max, digits, rest);
    }
  }

  lemma {:induction false} ElementsAreRead(optional: bool, t: Type, acc: seq<Value>, trees: seq<Tree>, end: seq<Byte>,
                                           rest: seq<Byte>)
    requires AllFit(trees, t) && AllEnd(trees, end + ([Code(']')] + rest)) && Blanks(end)
    requires optional ==> |acc| + |trees| <= 1
    ensures ReadElements(optional, t, acc, TreesText(trees) + (end + ([Code(']')] + rest)))
            == Ok(VSequence(acc + TreeValues(trees)), rest)
    decreases trees, 1
  {
    var close := end + ([Code(']')] + rest);
    if trees == [] {
      assert TreesText(trees) + close == close && acc + TreeValues(trees) == acc;
      EndIsRead(end, Code(']'), rest);
    } else {
      var tail := TreesText(trees[1..]) + close;
      OneMoreTree(trees[0], trees[1..], close);
      assert trees == [trees[0]] + trees[1..];
      ElementIsRead(optional, t, acc, trees[0], tail);
      ElementsAreRead(optional, t, acc + [TreeValue(trees[0])], trees[1..], end, rest);
      assert (acc + [TreeValue(trees[0])]) + TreeValues(trees[1..]) == acc + TreeValues(trees);
    }
  }

  lemma EndIsRead(end: seq<Byte>, close: Byte, rest: seq<Byte>)
    requires Blanks(end) && (close == CLOSE_BRACKET || close == CLOSE_BRACE)
    ensures ToToken(end + ([close] + rest)) == Ok((), [close] + rest) && ([close] + rest)[1..] == rest
  {
    BlanksAreSkipped(end, [close] + rest);
    assert SkipSpaces([close] + rest) == [close] + rest;
  }

  lemma {:induction false} ElementIsRead(optional: bool, t: Type, acc: seq<Value>, tree: Tree, rest: seq<Byte>)
    requires Fits(tree, t) && EndsAt(tree, rest) && (optional ==> acc == [])
    ensures ReadElements(optional, t, acc, TreeText(tree) + rest)
            == ReadElements(optional, t, acc + [TreeValue(tree)], rest)
    decreases tree, 1
  {
    TreeStarts(tree, t, rest);
    TreeIsRead(tree, t, rest);
    var body := TreeBody(tree) + rest;
    assert Parse(t, body) == Parse(t, TreeText(tree) + rest) by { TokenIsToken(t, TreeText(tree) + rest, body); }
  }

  lemma TokenIsToken(t: Type, s: seq<Byte>, start: seq<Byte>)
    requires ToToken(s) == Ok((), start)
    ensures Parse(t, start) == Parse(t, s)
  {
    assert SkipSpaces(start) == start;
  }

  lemma {:induction false} FieldsAreRead(ts: seq<Type>, acc: seq<Value>, trees: seq<Tree>, end: seq<Byte>,
                                         rest: seq<Byte>)
    requires FieldsFit(trees, ts) && AllEnd(trees, end + ([Code('}')] + rest)) && Blanks(end)
    ensures ReadFields(ts, acc, TreesText(trees) + (end + ([Code('}')] + rest)))
            == Ok(VTuple(acc + TreeValues(trees)), rest)
    decreases trees, 1
  {
    var close := end + ([Code('}')] + rest);
    if ts == [] {
      assert TreesText(trees) + close == close && acc + TreeValues(trees) == acc;
      EndIsRead(end, Code('}'), rest);
    } else {
      var tail := TreesText(trees[1..]) + close;
      assert TreesText(trees) + close == TreeText(trees[0]) + tail;
      TreeIsRead(trees[0], ts[0], tail);
      FieldsAreRead(ts[1..], acc + [TreeValue(trees[0])], trees[1..], end, rest);
      assert (acc + [TreeValue(trees[0])]) + TreeValues(trees[1..]) == acc + TreeValues(trees);
    }
  }

  // ---- every text that is accepted is one of the grammar ----

  lemma {:induction false} NameWasRead(acc: seq<Byte>, s: seq<Byte>) returns (name: seq<Byte>)
    requires ReadFollowers(acc, s).Ok?
    ensures forall k :: 0 <= k < |name| ==> Letter(name[k]) || Digit(name[k])
    ensures var r := ReadFollowers(acc, s);
            && s == name + r.rest && r.value == VIdent(acc + name)
            && Peek(r.rest) != EOF && Peek(r.rest) != '\n' as int && !Digit(Peek(r.rest)) && !Letter(Peek(r.rest))
    decreases |s|
  {
    if IsFollower(Peek(s)) {
      var others := NameWasRead(acc + [s[0]], s[1..]);
      name := [s[0]] + others;
      assert (acc + [s[0]]) + others == acc + name;
    } else {
      name := [];
    }
  }

  lemma NumberWasRead(max: nat, s: seq<Byte>) returns (ds: seq<Byte>)
    requires ReadDigits(max, false, 0, s).Ok?
    ensures var r := ReadDigits(max, false, 0, s);
            && ds != [] && Digits(ds) && Numeral(ds) <= max && s == ds + r.rest && r.value == VUnsigned(Numeral(ds))
            && Peek(r.rest) != EOF && Peek(r.rest) != '\n' as int && !Digit(Peek(r.rest))
  {
    var rest;
    ds, rest := LeadingDigits(s);
    NumberToken(max, ds, rest);
  }

  /** What the parser accepts is the text of a tree, and the result is the tree's value. */
  ghost predicate Derives(tree: Tree, t: Type, s: seq<Byte>, v: Value, rest: seq<Byte>) {
    Fits(tree, t) && s == TreeText(tree) + rest && TreeValue(tree) == v && EndsAt(tree, rest)
  }

  /** Nothing else is accepted: whatever is read was written by the grammar, and is its value. */
  lemma {:induction false} Derive(t: Type, s: seq<Byte>) returns (tree: Tree)
    requires Parse(t, s).Ok?
    ensures Derives(tree, t, s, Parse(t, s).value, Parse(t, s).rest)
    decreases |s|, 1
  {
    var ws := SkippedAreBlanks(s);
    tree := DeriveToken(t, s[|ws|..], ws);
    BodyText(tree, Parse(t, s).rest);
  }

  lemma {:induction false} DeriveToken(t: Type, s: seq<Byte>, ws: seq<Byte>) returns (tree: Tree)
    requires ParseToken(t, s).Ok? && Blanks(ws)
    ensures Derives(tree, t, ws + s, ParseToken(t, s).value, ParseToken(t, s).rest)
    decreases |s|, 0
  {
    match t
    case TBool =>
      tree := Boolean(ws, s[0] == BAR);
      assert s == [s[0]] + s[1..];
    case TUnsigned(max) =>
      var ds := NumberWasRead(max, s);
      tree := Unsigned(ws, ds);
    case TSigned(max) => tree := DeriveSigned(max, s, ws);
    case TBlob => tree := DeriveBlob(s, ws);
    case TIdent => tree := DeriveName(s, ws);
    case TOptional(e) =>
      var elements, end := DeriveElements(true, e, [], s[1..]);
      tree := SequenceDerived(t, s, ws, elements, end);
    case TVector(e) =>
      var elements, end := DeriveElements(false, e, [], s[1..]);
      tree := SequenceDerived(t, s, ws, elements, end);
    case TTuple(ts) =>
      var fields, end := DeriveFields(ts, [], s[1..]);
      tree := TupleDerived(ts, s, ws, fields, end);
  }

  lemma DeriveBlob(s: seq<Byte>, ws: seq<Byte>) returns (tree: Tree)
    requires ParseToken(TBlob, s).Ok? && Blanks(ws)
    ensures Derives(tree, TBlob, ws + s, ParseToken(TBlob, s).value, ParseToken(TBlob, s).rest)
  {
    var pieces := StringIsRead([], s[1..]);
    tree := Blob(ws, pieces);
    assert [] + PiecesBytes(pieces) == PiecesBytes(pieces);
    assert s == [Code('\"')] + s[1..];
    BodyText(tree, ParseToken(TBlob, s).rest);
    Reassembled(tree, s, ParseToken(TBlob, s).rest);
  }

  lemma Reassembled(tree: Tree, s: seq<Byte>, rest: seq<Byte>)
    requires s == TreeBody(tree) + rest
    ensures tree.ws + s == TreeText(tree) + rest
  {
    assert TreeText(tree) == tree.ws + TreeBody(tree);
  }

  lemma DeriveName(s: seq<Byte>, ws: seq<Byte>) returns (tree: Tree)
    requires ParseToken(TIdent, s).Ok? && Blanks(ws)
    ensures Derives(tree, TIdent, ws + s, ParseToken(TIdent, s).value, ParseToken(TIdent, s).rest)
  {
    var name := NameWasRead([s[0]], s[1..]);
    tree := Name(ws, [s[0]] + name);
    assert s == [s[0]] + s[1..];
  }

  lemma SequenceDerived(t: Type, s: seq<Byte>, ws: seq<Byte>, elements: seq<Tree>, end: seq<Byte>) returns (tree: Tree)
    requires (t.TOptional? || t.TVector?) && ParseToken(t, s).Ok? && Blanks(ws)
    requires var r := ReadElements(t.TOptional?, t.element, [], s[1..]);
             && AllFit(elements, t.element) && (t.TOptional? ==> |elements| <= 1)
             && Listed(elements, end, Code(']'), s[1..], r.rest) && r.value == VSequence([] + TreeValues(elements))
    ensures Derives(tree, t, ws + s, ParseToken(t, s).value, ParseToken(t, s).rest)
  {
    tree := Sequence(ws, elements, end);
    assert Opened(true);
    assert [] + TreeValues(elements) == TreeValues(elements);
    assert s == [s[0]] + s[1..];
    Bracketed(ws, Code('['), TreesText(elements), end, Code(']'), ParseToken(t, s).rest);
  }

  lemma TupleDerived(ts: seq<Type>, s: seq<Byte>, ws: seq<Byte>, fields: seq<Tree>, end: seq<Byte>) returns (tree: Tree)
    requires ParseToken(TTuple(ts), s).Ok? && Blanks(ws)
    requires var r := ReadFields(ts, [], s[1..]);
             && FieldsFit(fields, ts)
             && Listed(fields, end, Code('}'), s[1..], r.rest) && r.value == VTuple([] + TreeValues(fields))
    ensures Derives(tree, TTuple(ts), ws + s, ParseToken(TTuple(ts), s).value, ParseToken(TTuple(ts), s).rest)
  {
    tree := Tuple(ws, fields, end);
    assert Opened(true);
    assert [] + TreeValues(fields) == TreeValues(fields);
    assert s == [s[0]] + s[1..];
    Bracketed(ws, Code('{'), TreesText(fields), end, Code('}'), ParseToken(TTuple(ts), s).rest);
  }

  lemma Bracketed(ws: seq<Byte>, open: Byte, text: seq<Byte>, end: seq<Byte>, close: Byte, rest: seq<Byte>)
    ensures ws + ([open] + (text + (end + ([close] + rest)))) == (ws + ([open] + text + end + [close])) + rest
  {
  }

  lemma DeriveSigned(max: nat, s: seq<Byte>, ws: seq<Byte>) returns (tree: Tree)
    requires ParseToken(TSigned(max), s).Ok? && Blanks(ws)
    ensures Derives(tree, TSigned(max), ws + s, ParseToken(TSigned(max), s).value, ParseToken(TSigned(max), s).rest)
  {
    var negative := Peek(s) == MINUS;
    var ds;
    if negative {
      ds := NumberWasRead(max + 1, s[1..]);
      assert s == [s[0]] + s[1..];
    } else {
      ds := NumberWasRead(max, s);
    }
    tree := Signed(ws, negative, ds);
    BodyText(tree, ParseToken(TSigned(max), s).rest);
    Reassembled(tree, s, ParseToken(TSigned(max), s).rest);
  }

  lemma OneMoreTree(tree: Tree, others: seq<Tree>, rest: seq<Byte>)
    ensures var trees := [tree] + others;
            && trees[0] == tree && trees[1..] == others
            && TreesText(trees) + rest == TreeText(tree) + (TreesText(others) + rest)
            && TreeValues(trees) == [TreeValue(tree)] + TreeValues(others)
            && (EndsAt(tree, TreesText(others) + rest) && AllEnd(others, rest) ==> AllEnd(trees, rest))
  {
    assert ([tree] + others)[1..] == others;
  }

  /** What was read of `s` between brackets: trees, and whitespace in front of the closing bracket. */
  ghost predicate Listed(trees: seq<Tree>, end: seq<Byte>, close: Byte, s: seq<Byte>, rest: seq<Byte>) {
    forall key {:trigger Opened(key)} :: Opened(key) ==>
      && Blanks(end) && s == TreesText(trees) + (end + ([close] + rest)) && AllEnd(trees, end + ([close] + rest))
  }

  lemma NothingListed(s: seq<Byte>, close: Byte) returns (end: seq<Byte>)
    requires Peek(SkipSpaces(s)) == close
    ensures Listed([], end, close, s, SkipSpaces(s)[1..])
  {
    end := SkippedAreBlanks(s);
    var start := SkipSpaces(s);
    assert start == [close] + start[1..];
    assert TreesText([]) + (end + start) == end + start;
  }

  lemma OneMoreListed(tree: Tree, others: seq<Tree>, end: seq<Byte>, close: Byte, s: seq<Byte>, middle: seq<Byte>,
                      rest: seq<Byte>)
    requires s == TreeText(tree) + middle && EndsAt(tree, middle) && Listed(others, end, close, middle, rest)
    ensures Listed([tree] + others, end, close, s, rest)
  {
    assert Opened(true);
    OneMoreTree(tree, others, end + ([close] + rest));
  }

  lemma OneMoreValue(acc: seq<Value>, tree: Tree, others: seq<Tree>)
    ensures (acc + [TreeValue(tree)]) + TreeValues(others) == acc + TreeValues([tree] + others)
  {
    OneMoreTree(tree, others, []);
  }

  lemma {:induction false} DeriveElements(optional: bool, t: Type, acc: seq<Value>, s: seq<Byte>)
    returns (trees: seq<Tree>, end: seq<Byte>)
    requires ReadElements(optional, t, acc, s).Ok? && (optional ==> |acc| <= 1)
    ensures var r := ReadElements(optional, t, acc, s);
            && AllFit(trees, t) && (optional ==> |acc| + |trees| <= 1)
            && Listed(trees, end, Code(']'), s, r.rest) && r.value == VSequence(acc + TreeValues(trees))
    decreases |s|, 2
  {
    var start := SkipSpaces(s);
    if Peek(start) == CLOSE_BRACKET {
      trees := [];
      end := NothingListed(s, Code(']'));
      assert acc + TreeValues(trees) == acc;
    } else {
      TokenIsToken(t, s, start);
      var tree := Derive(t, s);
      var others;
      others, end := DeriveElements(optional, t, acc + [TreeValue(tree)], Parse(t, s).rest);
      trees := [tree] + others;
      OneMoreListed(tree, others, end, Code(']'), s, Parse(t, s).rest, ReadElements(optional, t, acc, s).rest);
      OneMoreValue(acc, tree, others);
    }
  }

  lemma {:induction false} DeriveFields(ts: seq<Type>, acc: seq<Value>, s: seq<Byte>)
    returns (trees: seq<Tree>, end: seq<Byte>)
    requires ReadFields(ts, acc, s).Ok?
    ensures var r := ReadFields(ts, acc, s);
            && FieldsFit(trees, ts)
            && Listed(trees, end, Code('}'), s, r.rest) && r.value == VTuple(acc + TreeValues(trees))
    decreases |s|, 2
  {
    if ts == [] {
      trees := [];
      end := NothingListed(s, Code('}'));
      assert acc + TreeValues(trees) == acc;
    } else {
      var tree := Derive(ts[0], s);
      var others;
      others, end := DeriveFields(ts[1..], acc + [TreeValue(tree)], Parse(ts[0], s).rest);
      trees := [tree] + others;
      OneMoreListed(tree, others, end, Code('}'), s, Parse(ts[0], s).rest, ReadFields(ts, acc, s).rest);
      OneMoreValue(acc, tree, others);
    }
  }

  // ---- the values of the grammar are those of the type ----

  lemma {:induction false} TreeHasType(tree: Tree, t: Type)
    requires Fits(tree, t)
    ensures HasType(TreeValue(tree), t)
    decreases tree, 0
  {
    match t
    case TOptional(e) => TreesHaveType(tree.elements, e);
    case TVector(e) => TreesHaveType(tree.elements, e);
    case TTuple(ts) => FieldsHaveTypes(tree.fields, ts);
    case _ =>
  }

  lemma {:induction false} TreesHaveType(trees: seq<Tree>, t: Type)
    requires AllFit(trees, t)
    ensures AllHaveType(TreeValues(trees), t) && |TreeValues(trees)| == |trees|
    decreases trees, 1
  {
    if trees != [] {
      TreeHasType(trees[0], t);
      TreesHaveType(trees[1..], t);
      assert TreeValues(trees)[1..] == TreeValues(trees[1..]);
    }
  }

  lemma {:induction false} FieldsHaveTypes(trees: seq<Tree>, ts: seq<Type>)
    requires FieldsFit(trees, ts)
    ensures HaveTypes(TreeValues(trees), ts)
    decreases trees, 1
  {
    if ts != [] {
      TreeHasType(trees[0], ts[0]);
      FieldsHaveTypes(trees[1..], ts[1..]);
      assert TreeValues(trees)[1..] == TreeValues(trees[1..]);
    }
  }

  /** Whatever the input, a value that is read has the type that it was read for. */
  lemma ParsedHasType(t: Type, s: seq<Byte>)
    ensures Parse(t, s).Ok? ==> HasType(Parse(t, s).value, t)
  {
    if Parse(t, s).Ok? {
      var tree := Derive(t, s);
      TreeHasType(tree, t);
    }
  }

  /** The parser accepts exactly the texts of the grammar, with their values. */
  lemma AcceptsExactlyTheGrammar(t: Type, s: seq<Byte>, v: Value, rest: seq<Byte>)
    ensures Parse(t, s) == Ok(v, rest) <==> exists tree :: Derives(tree, t, s, v, rest)
  {
    if Parse(t, s) == Ok(v, rest) {
      var tree := Derive(t, s);
    }
    forall tree | Derives(tree, t, s, v, rest) ensures Parse(t, s) == Ok(v, rest) {
      TreeIsRead(tree, t, rest);
    }
  }
}
