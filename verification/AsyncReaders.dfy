/**
 The asynchronous readers: a state machine that suspends whenever its buffer runs dry.

 The nesting of the subroutine objects becomes a stack of frames, and the callback that a
 reader has registered becomes the current activity.  `Denotes` says what the reader will
 finally report, given all input that is still to come; every method keeps it.
 */
module ReaderMeaning {
  import opened Bytes
  import opened Wire

  /** What the whitespace skipper was started for. */
  datatype Goal =
    | ForValue(t: Type)
    | ForElementOrEnd(optional: bool, t: Type, elements: seq<Value>)
    | ForClosing(values: seq<Value>)
    | ForEndOfMessage

  /** What the readers submit that have no value to report. */
  const NOTHING := VTuple([])

  datatype Activity =
    | Skipping(goal: Goal)
    | Digits(max: nat, digitSeen: bool, value: nat)
    | HexDigits(shift: nat, hex: nat)
    | Contents(blob: seq<Byte>)
    | Escaped(blob: seq<Byte>)
    | Followers(wrapped: seq<Byte>)
    | Draining
    | Submitted(v: Value)
    | Failed(error: Error)

  /** A reader that has started another one and waits for its result. */
  datatype Frame =
    | SignedReader(negative: bool)
    | BlobReader(blob: seq<Byte>)
    | SequenceReader(optional: bool, t: Type, elements: seq<Value>)
    | TupleReader(types: seq<Type>, values: seq<Value>)
    | ExceptionHandler

  /** What the readers start with: those of values, the checker for the end of a message, and the drainer. */
  predicate IsStart(a: Activity) {
    a.Draining? || (a.Skipping? && (a.goal.ForValue? || a.goal.ForEndOfMessage?))
  }

  predicate Proper(a: Activity) {
    a.HexDigits? ==> HexRoom(a.shift, a.hex) && a.hex % (if a.shift == 4 then 16 else 1) == 0
  }

  function GoalMeaning(goal: Goal, s: seq<Byte>): Parsed<Value> {
    match goal
    case ForValue(t) => Parse(t, s)
    case ForElementOrEnd(optional, t, elements) => ReadElements(optional, t, elements, s)
    case ForClosing(values) => ReadFields([], values, s)
    case ForEndOfMessage =>
      match CheckEndOfMessage(s)
      case Ok(_, rest) => Ok(NOTHING, rest)
      case Err(e, rest) => Err(e, rest)
  }

  /** The result of the innermost reader, if `s` is the rest of its input. */
  function Meaning(a: Activity, s: seq<Byte>): Parsed<Value>
    requires Proper(a)
  {
    match a
    case Skipping(goal) => GoalMeaning(goal, s)
    case Digits(max, seen, value) => ReadDigits(max, seen, value, s)
    case HexDigits(shift, hex) => ReadHexDigits(shift, hex, s)
    case Contents(blob) => ReadContents(blob, s)
    case Escaped(blob) => ReadEscaped(blob, s)
    case Followers(wrapped) => ReadFollowers(wrapped, s)
    case Draining => Ok(NOTHING, Drain(s))
    case Submitted(v) => Ok(v, s)
    case Failed(e) => Err(e, s)
  }

  /** What a waiting reader makes of the value it has waited for. */
  function Continue(f: Frame, v: Value, s: seq<Byte>): Parsed<Value> {
    match f
    case SignedReader(negative) => Ok(Signed(negative, v), s)
    case BlobReader(blob) => if v.VUnsigned? && v.n < 256 then ReadContents(blob + [v.n], s) else Ok(v, s)
    case SequenceReader(optional, t, elements) =>
      if optional && elements != [] then Reject(DuplicateOptional, s) else ReadElements(optional, t, elements + [v], s)
    case TupleReader(types, values) => ReadFields(types, values + [v], s)
    case ExceptionHandler => Err(Thrown(v), s)
  }

  /** What the outermost reader reports: a failure is forwarded, a value is passed outwards. */
  function Deliver(frames: seq<Frame>, r: Parsed<Value>): Parsed<Value> {
    if r.Err? || frames == [] then r
    else Deliver(frames[1..], Continue(frames[0], r.value, r.rest))
  }

  /** Orders the activities that can follow each other without consuming input. */
  function Rank(a: Activity): nat {
    match a
    case Submitted(_) => 0
    case Failed(_) => 0
    case Digits(_, seen, _) => if seen then 4 else 1
    case HexDigits(shift, _) => if shift == 0 then 4 else 1
    case Followers(_) => 4
    case Draining => 4
    case Skipping(goal) => if goal.ForEndOfMessage? then 4 else if goal.ForElementOrEnd? then 3 else 2
    case Contents(_) => 1
    case Escaped(_) => 1
  }

  predicate Done(a: Activity) {
    a.Submitted? || a.Failed?
  }

  lemma DeliverPush(f: Frame, frames: seq<Frame>, r: Parsed<Value>)
    ensures Deliver([f] + frames, r) == if r.Err? then r else Deliver(frames, Continue(f, r.value, r.rest))
  {
    assert ([f] + frames)[1..] == frames;
  }

  /** Whitespace at the front does not matter to a reader that starts by skipping it. */
  lemma GoalSkipsWhitespace(goal: Goal, s: seq<Byte>)
    requires IsWhitespace(Peek(s))
    ensures GoalMeaning(goal, s) == GoalMeaning(goal, s[1..])
  {
    assert ToToken(s) == ToToken(s[1..]);
  }

  /** At an exception marker, every reader reads a remote error and fails with it. */
  lemma GoalAtMarker(goal: Goal, s: seq<Byte>)
    requires Peek(s) == BANG
    ensures GoalMeaning(goal, s) == Deliver([ExceptionHandler], Parse(ErrorType, s[1..]))
  {
    assert SkipSpaces(s) == s;
    match Parse(ErrorType, s[1..])
    case Err(_, _) =>
    case Ok(v, rest) =>
      assert ToToken(s) == Err(Thrown(v), rest);
      assert Deliver([], Err(Thrown(v), rest)) == Err(Thrown(v), rest);
  }

  lemma {:induction false} DeliverAppend(inner: seq<Frame>, outer: seq<Frame>, r: Parsed<Value>)
    ensures Deliver(inner + outer, r) == Deliver(outer, Deliver(inner, r))
    decreases |inner|
  {
    if inner == [] {
      assert inner + outer == outer;
    } else if r.Ok? {
      assert (inner + outer)[1..] == inner[1..] + outer;
      DeliverAppend(inner[1..], outer, Continue(inner[0], r.value, r.rest));
    }
  }
}

module AsyncReaders {
  import opened Bytes
  import opened Wire
  import opened ReaderMeaning

  /** The part of the input buffer that readers use; what it receives, and when, is up to the network. */
  class InBuf {
    var data: seq<Byte>
    var atEof: bool
    ghost var future: seq<Byte>

    ghost predicate Valid()
      reads this
    {
      atEof ==> future == []
    }

    ghost function Remaining(): seq<Byte>
      reads this
    {
      data + future
    }

    constructor (ghost input: seq<Byte>)
      ensures Valid() && Remaining() == input && data == [] && !atEof
    {
      data, atEof, future := [], false, input;
    }

    predicate Readable()
      reads this
    {
      data != [] || atEof
    }

    function PeekByte(): (c: int)
      requires Readable() && Valid()
      reads this
      ensures c == Peek(Remaining())
    {
      if data != [] then data[0] else EOF
    }

    method Skip()
      requires Readable() && Valid()
      modifies this
      ensures Valid() && atEof == old(atEof) && future == old(future)
      ensures old(data) == [] ==> Remaining() == old(Remaining()) && data == old(data)
      ensures old(data) != [] ==> Remaining() == old(Remaining())[1..] && data == old(data)[1..]
    {
      if data != [] {
        assert (data + future)[1..] == data[1..] + future;
        data := data[1..];
      }
    }

    /** The network delivers a chunk, or reports the end of input. */
    method Receive(chunk: seq<Byte>)
      requires Valid() && !Readable() && chunk <= future && (chunk == [] ==> future == [])
      modifies this
      ensures Valid() && Readable() && Remaining() == old(Remaining()) && data == chunk
      ensures future == old(future)[|chunk|..] && (atEof <==> chunk == [])
    {
      data := chunk;
      future := future[|chunk|..];
      atEof := chunk == [];
    }
  }

  class AsyncReader {
    const buf: InBuf
    var activity: Activity
    var frames: seq<Frame>

    ghost predicate Valid()
      reads this, buf
    {
      buf.Valid() && Proper(activity) && (activity.Submitted? ==> frames == [])
    }

    /** What this reader will finally report, and the input it will leave. */
    ghost function Denotes(): Parsed<Value>
      requires Valid()
      reads this, buf
    {
      Deliver(frames, Meaning(activity, buf.Remaining()))
    }

    constructor (buf: InBuf, start: Activity)
      requires buf.Valid() && IsStart(start)
      ensures this.buf == buf && Valid() && Denotes() == Meaning(start, buf.Remaining())
    {
      this.buf := buf;
      activity, frames := start, [];
    }

    method Fail(e: Error)
      requires buf.Valid()
      modifies this
      ensures Valid() && Denotes() == Err(e, buf.Remaining()) && activity == Failed(e)
    {
      frames, activity := [], Failed(e);
    }

    /** Passes a value to the reader that waits for it. */
    method Submit(v: Value)
      requires buf.Valid()
      modifies this
      ensures Valid() && Denotes() == old(Deliver(frames, Ok(v, buf.Remaining()))) && Rank(activity) < 4
      decreases |frames|
    {
      if frames == [] {
        activity := Submitted(v);
        return;
      }
      var f := frames[0];
      frames := frames[1..];
      match f {
        case SignedReader(negative) =>
          Submit(Signed(negative, v));
        case BlobReader(blob) =>
          if v.VUnsigned? && v.n < 256 {
            activity := Contents(blob + [v.n]);
          } else {
            Submit(v);
          }
        case SequenceReader(optional, t, elements) =>
          if optional && elements != [] {
            Fail(ParseError(DuplicateOptional));
          } else {
            activity := Skipping(ForElementOrEnd(optional, t, elements + [v]));
          }
        case TupleReader(types, values) =>
          ReadNextField(types, values + [v]);
        case ExceptionHandler =>
          Fail(Thrown(v));
      }
    }

    method ReadNextField(types: seq<Type>, values: seq<Value>)
      requires buf.Valid()
      modifies this
      ensures Valid() && Denotes() == old(Deliver(frames, ReadFields(types, values, buf.Remaining())))
              && Rank(activity) <= 2
    {
      if types == [] {
        activity := Skipping(ForClosing(values));
      } else {
        DeliverPush(TupleReader(types[1..], values), frames, Parse(types[0], buf.Remaining()));
        frames := [TupleReader(types[1..], values)] + frames;
        activity := Skipping(ForValue(types[0]));
      }
    }

    /** What each reader does once whitespace has been skipped and `c` is at hand. */
    method OnWhitespaceSkipped(goal: Goal, c: int)
      requires buf.Valid() && buf.Readable() && c == buf.PeekByte() && !IsWhitespace(c) && c != BANG
      modifies this, buf
      ensures buf.atEof == old(buf.atEof) && buf.future == old(buf.future)
      ensures Valid() && Denotes() == old(Deliver(frames, GoalMeaning(goal, buf.Remaining())))
      ensures |buf.data| < |old(buf.data)| || (buf.data == old(buf.data) && Rank(activity) < Rank(Skipping(goal)))
    {
      assert ToToken(buf.Remaining()) == Ok((), buf.Remaining());
      match goal
      case ForValue(t) =>
        StartValue(t, c);
      case ForElementOrEnd(optional, t, elements) =>
        if c == CLOSE_BRACKET {
          buf.Skip();
          Submit(VSequence(elements));
        } else {
          DeliverPush(SequenceReader(optional, t, elements), frames, Parse(t, buf.Remaining()));
          assert ReadElements(optional, t, elements, buf.Remaining())
                 == ReadElement(optional, t, elements, buf.Remaining());
          frames := [SequenceReader(optional, t, elements)] + frames;
          activity := Skipping(ForValue(t));
        }
      case ForClosing(values) =>
        if c == CLOSE_BRACE {
          buf.Skip();
          Submit(VTuple(values));
        } else {
          Fail(ParseError(CharExpected(CLOSE_BRACE, c)));
        }
      case ForEndOfMessage =>
        if c != NEWLINE {
          Fail(ParseError(EndOfMessageExpected(c)));
        } else {
          Submit(NOTHING);
        }
    }

    method StartValue(t: Type, c: int)
      requires buf.Valid() && buf.Readable() && c == buf.PeekByte()
      modifies this, buf
      ensures buf.atEof == old(buf.atEof) && buf.future == old(buf.future)
      ensures Valid() && Denotes() == old(Deliver(frames, ParseToken(t, buf.Remaining())))
      ensures |buf.data| < |old(buf.data)| || (buf.data == old(buf.data) && Rank(activity) < 2)
    {
      match t
      case TBool =>
        if c == AMPERSAND || c == BAR {
          buf.Skip();
          Submit(VBool(c == BAR));
        } else {
          Fail(ParseError(BooleanExpected(c)));
        }
      case TUnsigned(max) =>
        activity := Digits(max, false, 0);
      case TSigned(max) =>
        StartSigned(max, c);
      case TBlob =>
        if c == QUOTE {
          buf.Skip();
          activity := Contents([]);
        } else {
          Fail(ParseError(OpeningQuoteExpected(c)));
        }
      case TIdent =>
        if IsLeader(c) {
          buf.Skip();
          activity := Followers([c]);
        } else {
          Fail(ParseError(IdentifierExpected(c)));
        }
      case TOptional(e) =>
        StartSequence(true, e, c);
      case TVector(e) =>
        StartSequence(false, e, c);
      case TTuple(ts) =>
        if c == OPEN_BRACE {
          buf.Skip();
          ReadNextField(ts, []);
        } else {
          Fail(ParseError(CharExpected(OPEN_BRACE, c)));
        }
    }

    method StartSequence(optional: bool, e: Type, c: int)
      requires buf.Valid() && buf.Readable() && c == buf.PeekByte()
      modifies this, buf
      ensures buf.atEof == old(buf.atEof) && buf.future == old(buf.future)
      ensures Valid()
      ensures var t := if optional then TOptional(e) else TVector(e);
              Denotes() == old(Deliver(frames, ParseToken(t, buf.Remaining())))
      ensures |buf.data| < |old(buf.data)| || (buf.data == old(buf.data) && Rank(activity) < 2)
    {
      if c == OPEN_BRACKET {
        buf.Skip();
        activity := Skipping(ForElementOrEnd(optional, e, []));
      } else {
        Fail(ParseError(CharExpected(OPEN_BRACKET, c)));
      }
    }

    method StartSigned(max: nat, c: int)
      requires buf.Valid() && buf.Readable() && c == buf.PeekByte()
      modifies this, buf
      ensures buf.atEof == old(buf.atEof) && buf.future == old(buf.future)
      ensures Valid() && Denotes() == old(Deliver(frames, ParseToken(TSigned(max), buf.Remaining())))
      ensures |buf.data| < |old(buf.data)| || (buf.data == old(buf.data) && Rank(activity) < 2)
    {
      var negative, limit := false, max;
      if c == MINUS {
        negative, limit := true, max + 1;
        buf.Skip();
      }
      DeliverPush(SignedReader(negative), frames, Wire.ReadDigits(limit, false, 0, buf.Remaining()));
      frames := [SignedReader(negative)] + frames;
      activity := Digits(limit, false, 0);
    }

    /** Returns false if the reader must wait for more input. */
    method SkipSpaces() returns (running: bool)
      requires Valid() && activity.Skipping?
      modifies this, buf
      ensures buf.atEof == old(buf.atEof) && buf.future == old(buf.future)
      ensures Valid() && Denotes() == old(Denotes()) && (!running ==> !buf.Readable())
      ensures running ==>
              |buf.data| < |old(buf.data)| || (buf.data == old(buf.data) && Rank(activity) < old(Rank(activity)))
    {
      while buf.Readable() && IsWhitespace(buf.PeekByte())
        invariant buf.atEof == old(buf.atEof) && buf.future == old(buf.future)
        invariant Valid() && activity == old(activity) && frames == old(frames)
        invariant GoalMeaning(activity.goal, buf.Remaining()) == old(GoalMeaning(activity.goal, buf.Remaining()))
        invariant buf.data == old(buf.data) || |buf.data| < |old(buf.data)|
        decreases |buf.data|
      {
        GoalSkipsWhitespace(activity.goal, buf.Remaining());
        buf.Skip();
      }
      if !buf.Readable() {
        return false;
      }
      var c, goal := buf.PeekByte(), activity.goal;
      if c == BANG {
        GoalAtMarker(goal, buf.Remaining());
        DeliverAppend([ExceptionHandler], frames, Parse(ErrorType, buf.Remaining()[1..]));
        buf.Skip();
        frames := [ExceptionHandler] + frames;
        activity := Skipping(ForValue(ErrorType));
      } else {
        OnWhitespaceSkipped(goal, c);
      }
      return true;
    }

    method ReadDigits() returns (running: bool)
      requires Valid() && activity.Digits?
      modifies this, buf
      ensures buf.atEof == old(buf.atEof) && buf.future == old(buf.future)
      ensures Valid() && Denotes() == old(Denotes()) && (!running ==> !buf.Readable())
      ensures running ==>
              |buf.data| < |old(buf.data)| || (buf.data == old(buf.data) && Rank(activity) < old(Rank(activity)))
    {
      var max := activity.max;
      while buf.Readable() && IsDigit(buf.PeekByte())
        invariant buf.atEof == old(buf.atEof) && buf.future == old(buf.future)
        invariant Valid() && activity.Digits? && activity.max == max && frames == old(frames)
        invariant Meaning(activity, buf.Remaining()) == old(Meaning(activity, buf.Remaining()))
        invariant (buf.data == old(buf.data) && activity == old(activity)) || |buf.data| < |old(buf.data)|
        decreases |buf.data|
      {
        var d, value := buf.PeekByte() - ZERO, activity.value;
        if value > max / 10 || d > max - 10 * value {
          Fail(ParseError(Overflow));
          return true;
        }
        activity := Digits(max, true, 10 * value + d);
        buf.Skip();
      }
      if !buf.Readable() {
        return false;
      }
      var c := buf.PeekByte();
      if !activity.digitSeen {
        Fail(ParseError(DigitExpected(c)));
      } else if c == EOF || c == NEWLINE {
        Fail(ParseError(BadInInteger(c)));
      } else {
        Submit(VUnsigned(activity.value));
      }
      return true;
    }

    method ReadHexDigits() returns (running: bool)
      requires Valid() && activity.HexDigits?
      modifies this, buf
      ensures buf.atEof == old(buf.atEof) && buf.future == old(buf.future)
      ensures Valid() && Denotes() == old(Denotes()) && (!running ==> !buf.Readable())
      ensures running ==>
              |buf.data| < |old(buf.data)| || (buf.data == old(buf.data) && Rank(activity) < old(Rank(activity)))
    {
      while activity.shift != 0 && buf.Readable()
        invariant buf.atEof == old(buf.atEof) && buf.future == old(buf.future)
        invariant Valid() && activity.HexDigits? && frames == old(frames)
        invariant Meaning(activity, buf.Remaining()) == old(Meaning(activity, buf.Remaining()))
        invariant (buf.data == old(buf.data) && activity == old(activity)) || |buf.data| < |old(buf.data)|
        decreases activity.shift
      {
        var c := buf.PeekByte();
        var d := HexDigitValue(c);
        if d < 0 {
          Fail(ParseError(HexDigitExpected(c)));
          return true;
        }
        activity := HexDigits(activity.shift - 4, HexStep(activity.shift, activity.hex, d));
        buf.Skip();
      }
      if activity.shift != 0 {
        return false;
      }
      Submit(VUnsigned(activity.hex));
      return true;
    }

    method ReadContents() returns (running: bool)
      requires Valid() && activity.Contents?
      modifies this, buf
      ensures buf.atEof == old(buf.atEof) && buf.future == old(buf.future)
      ensures Valid() && Denotes() == old(Denotes()) && (!running ==> !buf.Readable())
      ensures running ==>
              |buf.data| < |old(buf.data)| || (buf.data == old(buf.data) && Rank(activity) < old(Rank(activity)))
    {
      while buf.Readable() && buf.PeekByte() != QUOTE
        invariant buf.atEof == old(buf.atEof) && buf.future == old(buf.future)
        invariant Valid() && activity.Contents? && frames == old(frames)
        invariant Meaning(activity, buf.Remaining()) == old(Meaning(activity, buf.Remaining()))
        invariant (buf.data == old(buf.data) && activity == old(activity)) || |buf.data| < |old(buf.data)|
        decreases |buf.data|
      {
        var c := buf.PeekByte();
        if c == EOF {
          Fail(ParseError(EofInString));
          return true;
        } else if c == NEWLINE {
          Fail(ParseError(NewlineInString));
          return true;
        } else if c == BACKSLASH {
          buf.Skip();
          activity := Escaped(activity.blob);
          return true;
        } else {
          buf.Skip();
          activity := Contents(activity.blob + [c]);
        }
      }
      if !buf.Readable() {
        return false;
      }
      buf.Skip();
      Submit(VBlob(activity.blob));
      return true;
    }

    method ReadEscaped() returns (running: bool)
      requires Valid() && activity.Escaped?
      modifies this, buf
      ensures buf.atEof == old(buf.atEof) && buf.future == old(buf.future)
      ensures Valid() && Denotes() == old(Denotes()) && (!running ==> !buf.Readable())
      ensures running ==>
              |buf.data| < |old(buf.data)| || (buf.data == old(buf.data) && Rank(activity) < old(Rank(activity)))
    {
      if !buf.Readable() {
        return false;
      }
      var c, blob := buf.PeekByte(), activity.blob;
      if c == LOWER_X {
        DeliverPush(BlobReader(blob), frames, Wire.ReadHexDigits(8, 0, buf.Remaining()[1..]));
        buf.Skip();
        frames := [BlobReader(blob)] + frames;
        activity := HexDigits(8, 0);
      } else if Unescaped(c) >= 0 {
        buf.Skip();
        activity := Contents(blob + [Unescaped(c)]);
      } else {
        Fail(ParseError(UnknownEscape(c)));
      }
      return true;
    }

    method ReadFollowers() returns (running: bool)
      requires Valid() && activity.Followers?
      modifies this, buf
      ensures buf.atEof == old(buf.atEof) && buf.future == old(buf.future)
      ensures Valid() && Denotes() == old(Denotes()) && (!running ==> !buf.Readable())
      ensures running ==>
              |buf.data| < |old(buf.data)| || (buf.data == old(buf.data) && Rank(activity) < old(Rank(activity)))
    {
      while buf.Readable() && IsFollower(buf.PeekByte())
        invariant buf.atEof == old(buf.atEof) && buf.future == old(buf.future)
        invariant Valid() && activity.Followers? && frames == old(frames)
        invariant Meaning(activity, buf.Remaining()) == old(Meaning(activity, buf.Remaining()))
        invariant (buf.data == old(buf.data) && activity == old(activity)) || |buf.data| < |old(buf.data)|
        decreases |buf.data|
      {
        activity := Followers(activity.wrapped + [buf.PeekByte()]);
        buf.Skip();
      }
      if !buf.Readable() {
        return false;
      }
      var c := buf.PeekByte();
      if c == EOF || c == NEWLINE {
        Fail(ParseError(BadInIdentifier(c)));
      } else {
        Submit(VIdent(activity.wrapped));
      }
      return true;
    }

    method DrainMessage() returns (running: bool)
      requires Valid() && activity.Draining?
      modifies this, buf
      ensures buf.atEof == old(buf.atEof) && buf.future == old(buf.future)
      ensures Valid() && Denotes() == old(Denotes()) && (!running ==> !buf.Readable())
      ensures running ==>
              |buf.data| < |old(buf.data)| || (buf.data == old(buf.data) && Rank(activity) < old(Rank(activity)))
    {
      while buf.Readable() && buf.PeekByte() != NEWLINE && buf.PeekByte() != EOF
        invariant buf.atEof == old(buf.atEof) && buf.future == old(buf.future)
        invariant Valid() && activity == old(activity) && frames == old(frames)
        invariant Drain(buf.Remaining()) == old(Drain(buf.Remaining()))
        invariant buf.data == old(buf.data) || |buf.data| < |old(buf.data)|
        decreases |buf.data|
      {
        buf.Skip();
      }
      if !buf.Readable() {
        return false;
      }
      if buf.PeekByte() != EOF {
        buf.Skip();
      }
      Submit(NOTHING);
      return true;
    }

    method Step() returns (running: bool)
      requires Valid() && !Done(activity)
      modifies this, buf
      ensures buf.atEof == old(buf.atEof) && buf.future == old(buf.future)
      ensures Valid() && Denotes() == old(Denotes()) && (!running ==> !buf.Readable())
      ensures running ==>
              |buf.data| < |old(buf.data)| || (buf.data == old(buf.data) && Rank(activity) < old(Rank(activity)))
    {
      match activity
      case Skipping(_) => running := SkipSpaces();
      case Digits(_, _, _) => running := ReadDigits();
      case HexDigits(_, _) => running := ReadHexDigits();
      case Contents(_) => running := ReadContents();
      case Escaped(_) => running := ReadEscaped();
      case Followers(_) => running := ReadFollowers();
      case Draining => running := DrainMessage();
    }

    /**
     One callback: the reader runs until it is done, until the buffer runs dry, or until it
     decides to give the stack a rest, which is what an out-of-range stack marker makes it do.
     */
    method Resume() returns (progress: bool)
      requires Valid() && !Done(activity)
      modifies this, buf
      ensures buf.atEof == old(buf.atEof) && buf.future == old(buf.future)
      ensures Valid() && Denotes() == old(Denotes())
      ensures progress ==>
              |buf.data| < |old(buf.data)| || (buf.data == old(buf.data) && Rank(activity) < old(Rank(activity)))
      ensures !progress ==> !buf.Readable()
    {
      progress := Step();
      var inRange: bool := *;
      while progress && !Done(activity) && inRange
        invariant buf.atEof == old(buf.atEof) && buf.future == old(buf.future)
        invariant Valid() && Denotes() == old(Denotes())
        invariant progress ==>
                  |buf.data| < |old(buf.data)| || (buf.data == old(buf.data) && Rank(activity) < old(Rank(activity)))
        invariant !progress ==> !buf.Readable()
        decreases |buf.data|, Rank(activity)
      {
        progress := Step();
        if !progress {
          break;
        }
        inRange := *;
      }
    }
  }

  function Join(chunks: seq<seq<Byte>>): seq<Byte> {
    if chunks == [] then [] else chunks[0] + Join(chunks[1..])
  }

  /**
   Suspension independence: however the input is split into chunks, and however often the reader rests, it reports
   what the parser makes of the whole input, and leaves the buffer with what the parser leaves. The same holds for the
   checker for the end of a message, and for the drainer.
   */
  method Read(start: Activity, chunks: seq<seq<Byte>>) returns (r: Activity, buf: InBuf)
    requires [] !in chunks && IsStart(start)
    ensures fresh(buf)
    ensures r.Submitted? ==> Meaning(start, Join(chunks)) == Ok(r.v, buf.Remaining())
    ensures r.Failed? ==> Meaning(start, Join(chunks)) == Err(r.error, buf.Remaining())
    ensures r.Submitted? || r.Failed?
  {
    buf := new InBuf(Join(chunks));
    var reader := new AsyncReader(buf, start);
    var next := 0;
    assert chunks[0..] == chunks;
    while !Done(reader.activity)
      invariant fresh(buf) && fresh(reader) && reader.buf == buf
      invariant reader.Valid() && reader.Denotes() == Meaning(start, Join(chunks))
      invariant next <= |chunks| && buf.future == Join(chunks[next..])
      invariant buf.atEof ==> next == |chunks|
      decreases |chunks| - next, !buf.atEof, |buf.data|, Rank(reader.activity)
    {
      if buf.Readable() {
        var progress := reader.Resume();
      } else if next < |chunks| {
        assert chunks[next] in chunks;
        buf.Receive(chunks[next]);
        assert chunks[next..][1..] == chunks[next + 1..];
        next := next + 1;
      } else {
        buf.Receive([]);
      }
    }
    r := reader.activity;
  }
}
