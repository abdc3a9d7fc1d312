/** Why a text that is not of the grammar is rejected, and where the reader stops. */
module WireErrors {
  import opened Bytes
  import opened Wire
  import opened WireGrammar
  import opened Wrappers

  /** A reader that meets the wrong first byte says which one it got, and does not consume it. */
  lemma WrongStartIsRejected(t: Type, ws: seq<Byte>, s: seq<Byte>)
    requires Blanks(ws) && !Blank(Peek(s)) && Peek(s) != '!' as int
    ensures var c, r := Peek(s), Parse(t, ws + s);
            match t
            case TBool => c != '&' as int && c != '|' as int ==> r == Reject(BooleanExpected(c), s)
            case TUnsigned(_) => !Digit(c) ==> r == Reject(DigitExpected(c), s)
            case TSigned(_) => !Digit(c) && c != '-' as int ==> r == Reject(DigitExpected(c), s)
            case TBlob => c != '\"' as int ==> r == Reject(OpeningQuoteExpected(c), s)
            case TIdent => !Letter(c) ==> r == Reject(IdentifierExpected(c), s)
            case TOptional(_) => c != '[' as int ==> r == Reject(CharExpected(Code('['), c), s)
            case TVector(_) => c != '[' as int ==> r == Reject(CharExpected(Code('['), c), s)
            case TTuple(_) => c != '{' as int ==> r == Reject(CharExpected(Code('{'), c), s)
  {
    BlanksAreSkipped(ws, s);
    assert ToToken(s) == Ok((), s);
  }

  /** A string that is not closed is rejected where it goes wrong. */
  lemma BrokenStringIsRejected(ps: seq<Piece>, s: seq<Byte>)
    requires ProperPieces(ps)
    ensures s == [] ==> ReadContents([], PiecesText(ps) + s) == Reject(EofInString, s)
    ensures Peek(s) == '\n' as int ==> ReadContents([], PiecesText(ps) + s) == Reject(NewlineInString, s)
    ensures s != [] && s[0] == '\\' as int && UnknownLetter(Peek(s[1..])) ==>
              ReadContents([], PiecesText(ps) + s) == Reject(UnknownEscape(Peek(s[1..])), s[1..])
    ensures |s| > 1 && s[0] == '\\' as int && s[1] == 'x' as int && !HexCharacter(Peek(s[2..])) ==>
              ReadContents([], PiecesText(ps) + s) == Reject(HexDigitExpected(Peek(s[2..])), s[2..])
  {
    PiecesGoOn([], ps, s);
    assert s != [] ==> s[1..] == [] || s[1..][1..] == s[2..];
  }

  predicate UnknownLetter(c: int) {
    c < 0 || (c as int < 256 && c as char !in ESCAPES && c as char != 'x')
  }

  predicate HexCharacter(c: int) {
    Digit(c) || 'a' as int <= c <= 'f' as int || 'A' as int <= c <= 'F' as int
  }

  /** A name must be followed by something on the same line. */
  lemma {:induction false} NameAtEndIsRejected(acc: seq<Byte>, name: seq<Byte>, s: seq<Byte>)
    requires forall k :: 0 <= k < |name| ==> Letter(name[k]) || Digit(name[k])
    requires s == [] || s[0] == '\n' as int
    ensures ReadFollowers(acc, name + s) == Reject(BadInIdentifier(Peek(s)), s)
    decreases |name|
  {
    if name == [] {
      assert name + s == s;
    } else {
      assert (name + s)[1..] == name[1..] + s;
      NameAtEndIsRejected(acc + [name[0]], name[1..], s);
    }
  }

  /** An optional value takes one element at most: the second one is read, and then rejected. */
  lemma SecondOptionalIsRejected(t: Type, first: Value, tree: Tree, rest: seq<Byte>)
    requires Fits(tree, t) && EndsAt(tree, rest)
    ensures ReadElements(true, t, [first], TreeText(tree) + rest) == Reject(DuplicateOptional, rest)
  {
    TreeStarts(tree, t, rest);
    TreeIsRead(tree, t, rest);
    TokenIsToken(t, TreeText(tree) + rest, TreeBody(tree) + rest);
  }

  /** A tuple has no more fields than its type. */
  lemma ExtraFieldIsRejected(acc: seq<Value>, ws: seq<Byte>, s: seq<Byte>)
    requires Blanks(ws) && !Blank(Peek(s)) && Peek(s) != '!' as int && Peek(s) != '}' as int
    ensures ReadFields([], acc, ws + s) == Reject(CharExpected(Code('}'), Peek(s)), s)
  {
    BlanksAreSkipped(ws, s);
    assert ToToken(s) == Ok((), s);
  }

  /** The end of a message is a newline, behind whitespace or not, and nothing else is. */
  lemma EndIsNewline(ws: seq<Byte>, s: seq<Byte>)
    requires Blanks(ws) && !Blank(Peek(s)) && Peek(s) != '!' as int
    ensures CheckEndOfMessage(ws + s) ==
            if Peek(s) == '\n' as int then Ok((), s) else Reject(EndOfMessageExpected(Peek(s)), s)
  {
    BlanksAreSkipped(ws, s);
    assert ToToken(s) == Ok((), s);
  }
}
