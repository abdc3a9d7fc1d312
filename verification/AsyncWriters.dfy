/**
 The asynchronous writers: a state machine that suspends whenever its buffer is full.

 As for the readers, the nesting of the subroutine objects becomes a stack of tasks.  What has
 been emitted, followed by what the activity and the tasks still have to emit, never changes.
 */
module WriterMeaning {
  import opened Bytes
  import opened Wire
  import opened DecimalDigits

  datatype Activity =
    | Idle
    | Literal(p: seq<Byte>)
    | Minus(magnitude: nat, max: nat)
    | Digits(value: nat, divisor: nat)
    | OpeningQuote(blob: seq<Byte>)
    | Contents(rest: seq<Byte>)
    | Escaped(rest: seq<Byte>)
    | Name(rest: seq<Byte>)
    | Done

  datatype Task =
    | WriteLiteral(text: seq<Byte>)
    | WriteValue(v: Value, t: Type)
    | WriteElements(elements: seq<Value>, element: Type, close: seq<Byte>)
    | WriteFields(fields: seq<Value>, types: seq<Type>, close: seq<Byte>)

  predicate NeedsEscape(b: Byte) {
    b == NEWLINE || b == QUOTE || b == BACKSLASH
  }

  predicate ProperTask(task: Task) {
    match task
    case WriteLiteral(text) => text != []
    case WriteValue(v, t) => HasType(v, t)
    case WriteElements(vs, e, close) => AllHaveType(vs, e) && close != []
    case WriteFields(vs, ts, close) => HaveTypes(vs, ts) && close != []
  }

  ghost predicate ProperTasks(tasks: seq<Task>) {
    forall k :: 0 <= k < |tasks| ==> ProperTask(tasks[k])
  }

  /** `digits` is what the digits writer has yet to emit. */
  ghost predicate ProperActivity(a: Activity, digits: seq<Byte>) {
    match a
    case Literal(p) => p != []
    case Minus(magnitude, max) => 0 < magnitude <= max
    case Digits(value, divisor) => divisor > 0 && IsDigitText(digits, value, divisor)
    case Escaped(rest) => rest != [] && NeedsEscape(rest[0])
    case Name(rest) => rest != []
    case _ => true
  }

  function TaskText(task: Task): seq<Byte> {
    match task
    case WriteLiteral(text) => text
    case WriteValue(v, _) => Print(v)
    case WriteElements(vs, _, close) => PrintAll(vs) + close
    case WriteFields(vs, _, close) => PrintAll(vs) + close
  }

  function TasksText(tasks: seq<Task>): seq<Byte> {
    if tasks == [] then [] else TaskText(tasks[0]) + TasksText(tasks[1..])
  }

  ghost function ActivityText(a: Activity, digits: seq<Byte>): seq<Byte>
    requires ProperActivity(a, digits)
  {
    match a
    case Idle => []
    case Literal(p) => p
    case Minus(magnitude, _) => [MINUS] + Decimal(magnitude)
    case Digits(_, _) => digits
    case OpeningQuote(blob) => [QUOTE] + Escape(blob)
    case Contents(rest) => Escape(rest)
    case Escaped(rest) => Escape(rest)[1..]
    case Name(rest) => rest
    case Done => []
  }

  /** Orders the activities that can follow each other without output. */
  function Rank(a: Activity): nat {
    match a
    case Done => 0
    case Idle => 2
    case Contents(rest) => if rest == [] then 3 else 1
    case _ => 1
  }

  lemma TasksTextPush(task: Task, tasks: seq<Task>)
    ensures TasksText([task] + tasks) == TaskText(task) + TasksText(tasks)
  {
    assert ([task] + tasks)[1..] == tasks;
  }
}

module AsyncWriters {
  import opened Wrappers
  import opened Bytes
  import opened Wire
  import opened DecimalDigits
  import opened WriterMeaning

  /** The part of the output buffer that writers use; how much room it has, and when, is up to the network. */
  class OutBuf {
    ghost var emitted: seq<Byte>
    var room: nat

    constructor ()
      ensures emitted == [] && room == 0
    {
      emitted, room := [], 0;
    }

    predicate Writable()
      reads this
    {
      room > 0
    }

    method Put(c: Byte)
      requires Writable()
      modifies this
      ensures emitted == old(emitted) + [c] && room == old(room) - 1
    {
      emitted, room := emitted + [c], room - 1;
    }

    /** The network makes some room. */
    method MakeRoom(amount: nat)
      requires !Writable() && amount > 0
      modifies this`room
      ensures Writable() && room == amount
    {
      room := amount;
    }
  }

  class AsyncWriter {
    const buf: OutBuf
    var activity: Activity
    var tasks: seq<Task>
    ghost var digits: seq<Byte>

    ghost predicate Valid()
      reads this
    {
      ProperActivity(activity, digits) && ProperTasks(tasks) && (activity == Done ==> tasks == [])
    }

    ghost function Outstanding(): seq<Byte>
      requires Valid()
      reads this
    {
      ActivityText(activity, digits) + TasksText(tasks)
    }

    /** All output, past and future. */
    ghost function Text(): seq<Byte>
      requires Valid()
      reads this, buf`emitted
    {
      buf.emitted + Outstanding()
    }

    constructor (buf: OutBuf, tasks: seq<Task>)
      requires ProperTasks(tasks)
      ensures this.buf == buf && Follows(buf.emitted + TasksText(tasks))
    {
      this.buf := buf;
      this.tasks := tasks;
      activity, digits := Idle, [];
      new;
      assert [] + TasksText(tasks) == TasksText(tasks);
    }

    /** Finds the largest power of ten that does not exceed the value; `max` bounds every intermediate result. */
    method StartDigits(value: nat, max: nat)
      requires value <= max && ProperTasks(tasks)
      modifies this`activity, this`digits
      ensures Valid() && ActivityText(activity, digits) == Decimal(value) && Rank(activity) == 1
    {
      var divisor := 1;
      ghost var k: nat := 0;
      while divisor <= max / 10 && divisor * 10 <= value
        invariant divisor == Pow10(k) && (k == 0 || divisor <= value)
        invariant divisor <= value || divisor == 1
        decreases value - divisor
      {
        divisor := divisor * 10;
        k := k + 1;
      }
      activity := Digits(value, divisor);
      digits := DigitText(value, k);
      TextIsDecimal(value, k);
      DigitsAreEmitted(value, k);
    }

    method StartSigned(i: int, max: nat)
      requires 0 - max - 1 <= i <= max && ProperTasks(tasks)
      modifies this`activity, this`digits
      ensures Valid() && ActivityText(activity, digits) + [SPACE] == Print(VSigned(i)) && Rank(activity) == 1
    {
      if i >= 0 {
        StartDigits(i, 2 * max + 1);
      } else {
        // neither step leaves the range of the signed type
        var value := i + 1;
        assert 0 - max <= value <= 0;
        value := -value;
        assert value <= max;
        activity := Minus(value + 1, 2 * max + 1);
      }
    }

    method StartValue(v: Value, t: Type)
      requires HasType(v, t) && ProperTasks(tasks)
      modifies this`activity, this`digits, this`tasks
      ensures Valid() && Outstanding() == Print(v) + old(TasksText(tasks)) && Rank(activity) == 1
    {
      ghost var before := tasks;
      match t
      case TBool =>
        activity := Literal(if v.b then [BAR, SPACE] else [AMPERSAND, SPACE]);
      case TUnsigned(max) =>
        Push(WriteLiteral([SPACE]));
        StartDigits(v.n, max);
        AssociateSuffix(Decimal(v.n), [SPACE], TasksText(before));
      case TSigned(max) =>
        Push(WriteLiteral([SPACE]));
        StartSigned(v.i, max);
        AssociateSuffix(ActivityText(activity, digits), [SPACE], TasksText(before));
      case TBlob =>
        Push(WriteLiteral([QUOTE, SPACE]));
        activity := OpeningQuote(v.bytes);
        AssociateSuffix([QUOTE] + Escape(v.bytes), [QUOTE, SPACE], TasksText(before));
      case TIdent =>
        Push(WriteLiteral([SPACE]));
        activity := Name(v.name);
        AssociateSuffix(v.name, [SPACE], TasksText(before));
      case TOptional(e) =>
        Push(WriteElements(v.elements, e, [CLOSE_BRACKET, SPACE]));
        activity := Literal([OPEN_BRACKET, SPACE]);
        AssociateBrackets([OPEN_BRACKET, SPACE], PrintAll(v.elements), [CLOSE_BRACKET, SPACE], TasksText(before));
      case TVector(e) =>
        Push(WriteElements(v.elements, e, [CLOSE_BRACKET, SPACE]));
        activity := Literal([OPEN_BRACKET, SPACE]);
        AssociateBrackets([OPEN_BRACKET, SPACE], PrintAll(v.elements), [CLOSE_BRACKET, SPACE], TasksText(before));
      case TTuple(ts) =>
        Push(WriteFields(v.values, ts, [CLOSE_BRACE, SPACE]));
        activity := Literal([OPEN_BRACE, SPACE]);
        AssociateBrackets([OPEN_BRACE, SPACE], PrintAll(v.values), [CLOSE_BRACE, SPACE], TasksText(before));
    }

    method Push(task: Task)
      requires ProperTask(task) && ProperTasks(tasks)
      modifies this`tasks
      ensures tasks == [task] + old(tasks) && ProperTasks(tasks)
      ensures TasksText(tasks) == TaskText(task) + old(TasksText(tasks))
    {
      TasksTextPush(task, tasks);
      tasks := [task] + tasks;
    }

    /** Writes a value, and leaves what comes after it as a task. */
    method StartFirst(v: Value, t: Type, after: Task)
      requires HasType(v, t) && ProperTask(after) && ProperTasks(tasks)
      modifies this`activity, this`digits, this`tasks
      ensures Valid() && Outstanding() == Print(v) + (TaskText(after) + old(TasksText(tasks))) && Rank(activity) == 1
    {
      Push(after);
      StartValue(v, t);
    }

    /** The subroutine that was running has submitted: go on with the next task. */
    method NextTask()
      requires Valid() && activity == Idle
      modifies this`activity, this`digits, this`tasks
      ensures Valid() && Outstanding() == old(Outstanding()) && Rank(activity) < 2
    {
      if tasks == [] {
        activity := Done;
        return;
      }
      var task := tasks[0];
      tasks := tasks[1..];
      StartTask(task);
    }

    method StartTask(task: Task)
      requires ProperTask(task) && ProperTasks(tasks)
      modifies this`activity, this`digits, this`tasks
      ensures Valid() && Outstanding() == TaskText(task) + old(TasksText(tasks)) && Rank(activity) < 2
    {
      ghost var others := TasksText(tasks);
      match task
      case WriteLiteral(text) =>
        activity := Literal(text);
      case WriteValue(v, t) =>
        StartValue(v, t);
      case WriteElements(vs, e, close) =>
        if vs == [] {
          assert [] + close == close;
          activity := Literal(close);
        } else {
          AssociateSplit(Print(vs[0]), PrintAll(vs[1..]), close, others);
          StartFirst(vs[0], e, WriteElements(vs[1..], e, close));
        }
      case WriteFields(vs, ts, close) =>
        if vs == [] {
          assert [] + close == close;
          activity := Literal(close);
        } else {
          AssociateSplit(Print(vs[0]), PrintAll(vs[1..]), close, others);
          StartFirst(vs[0], ts[0], WriteFields(vs[1..], ts[1..], close));
        }
    }

    /** Returns false if the writer must wait for room. */
    method WriteLiteralChars() returns (running: bool)
      requires Valid() && activity.Literal?
      modifies this`activity, buf
      ensures Valid() && Text() == old(Text()) && (!running ==> !buf.Writable())
      ensures buf.room <= old(buf.room) && |buf.emitted| + buf.room == old(|buf.emitted| + buf.room)
      ensures !running ==> Rank(activity) <= old(Rank(activity))
      ensures running ==> |buf.emitted| > old(|buf.emitted|)
    {
      var p := activity.p;
      while p != [] && buf.Writable()
        invariant buf.room <= old(buf.room) && |buf.emitted| + buf.room == old(|buf.emitted| + buf.room)
        invariant buf.emitted + p == old(buf.emitted + activity.p)
        decreases |p|
      {
        buf.Put(p[0]);
        p := p[1..];
      }
      activity := if p == [] then Idle else Literal(p);
      Regroup(old(buf.emitted), old(activity.p), buf.emitted, p, TasksText(tasks));
      running := p == [];
    }

    method WriteNameChars() returns (running: bool)
      requires Valid() && activity.Name?
      modifies this`activity, buf
      ensures Valid() && Text() == old(Text()) && (!running ==> !buf.Writable())
      ensures buf.room <= old(buf.room) && |buf.emitted| + buf.room == old(|buf.emitted| + buf.room)
      ensures !running ==> Rank(activity) <= old(Rank(activity))
      ensures running ==> |buf.emitted| > old(|buf.emitted|)
    {
      var rest := activity.rest;
      while rest != [] && buf.Writable()
        invariant buf.room <= old(buf.room) && |buf.emitted| + buf.room == old(|buf.emitted| + buf.room)
        invariant buf.emitted + rest == old(buf.emitted + activity.rest)
        decreases |rest|
      {
        buf.Put(rest[0]);
        rest := rest[1..];
      }
      activity := if rest == [] then Idle else Name(rest);
      Regroup(old(buf.emitted), old(activity.rest), buf.emitted, rest, TasksText(tasks));
      running := rest == [];
    }

    method WriteMinus() returns (running: bool)
      requires Valid() && activity.Minus?
      modifies this`activity, this`digits, buf
      ensures Valid() && Text() == old(Text()) && (!running ==> !buf.Writable())
      ensures buf.room <= old(buf.room) && |buf.emitted| + buf.room == old(|buf.emitted| + buf.room)
      ensures !running ==> Rank(activity) <= old(Rank(activity))
      ensures running ==> |buf.emitted| > old(|buf.emitted|)
    {
      if !buf.Writable() {
        return false;
      }
      ghost var decimal, others := Decimal(activity.magnitude), TasksText(tasks);
      buf.Put(MINUS);
      StartDigits(activity.magnitude, activity.max);
      Regroup(old(buf.emitted), [MINUS] + decimal, buf.emitted, decimal, others);
      return true;
    }

    /** Emits digits as long as there are any and there is room for them. */
    method PutDigits(value: nat, divisor: nat, ghost text: seq<Byte>)
      returns (value': nat, divisor': nat, ghost text': seq<Byte>)
      requires IsDigitText(text, value, divisor)
      modifies buf
      ensures IsDigitText(text', value', divisor') && (divisor' != 0 ==> !buf.Writable())
      ensures buf.emitted + text' == old(buf.emitted) + text
      ensures buf.room <= old(buf.room) && |buf.emitted| + buf.room == old(|buf.emitted| + buf.room)
    {
      value', divisor', text' := value, divisor, text;
      while divisor' >= 1 && buf.Writable()
        invariant IsDigitText(text', value', divisor')
        invariant buf.emitted + text' == old(buf.emitted) + text
        invariant buf.room <= old(buf.room) && |buf.emitted| + buf.room == old(|buf.emitted| + buf.room)
        decreases divisor'
      {
        buf.Put(ZERO + value' / divisor');
        value', divisor', text' := value' % divisor', divisor' / 10, text'[1..];
      }
    }

    method WriteDigits() returns (running: bool)
      requires Valid() && activity.Digits?
      modifies this`activity, this`digits, buf
      ensures Valid() && Text() == old(Text()) && (!running ==> !buf.Writable())
      ensures buf.room <= old(buf.room) && |buf.emitted| + buf.room == old(|buf.emitted| + buf.room)
      ensures !running ==> Rank(activity) <= old(Rank(activity))
      ensures running ==> |buf.emitted| > old(|buf.emitted|)
    {
      ghost var all := digits;
      var value, divisor;
      value, divisor, digits := PutDigits(activity.value, activity.divisor, digits);
      activity := if divisor >= 1 then Digits(value, divisor) else Idle;
      Regroup(old(buf.emitted), all, buf.emitted, digits, TasksText(tasks));
      running := divisor < 1;
    }

    method WriteOpeningQuote() returns (running: bool)
      requires Valid() && activity.OpeningQuote?
      modifies this`activity, buf
      ensures Valid() && Text() == old(Text()) && (!running ==> !buf.Writable())
      ensures buf.room <= old(buf.room) && |buf.emitted| + buf.room == old(|buf.emitted| + buf.room)
      ensures !running ==> Rank(activity) <= old(Rank(activity))
      ensures running ==> |buf.emitted| > old(|buf.emitted|)
    {
      if !buf.Writable() {
        return false;
      }
      var blob := activity.blob;
      buf.Put(QUOTE);
      activity := Contents(blob);
      Regroup(old(buf.emitted), [QUOTE] + Escape(blob), buf.emitted, Escape(blob), TasksText(tasks));
      return true;
    }

    /** Emits bytes up to the next one that needs an escape, as long as there is room for them. */
    method PutPlainBytes(blob: seq<Byte>) returns (rest: seq<Byte>)
      modifies buf
      ensures buf.emitted + Escape(rest) == old(buf.emitted) + Escape(blob)
      ensures rest == [] || NeedsEscape(rest[0]) || !buf.Writable()
      ensures buf.room <= old(buf.room) && |buf.emitted| + buf.room == old(|buf.emitted| + buf.room)
      ensures rest == blob || |buf.emitted| > |old(buf.emitted)|
    {
      rest := blob;
      while rest != [] && !NeedsEscape(rest[0]) && buf.Writable()
        invariant buf.emitted + Escape(rest) == old(buf.emitted) + Escape(blob)
        invariant buf.room <= old(buf.room) && |buf.emitted| + buf.room == old(|buf.emitted| + buf.room)
        invariant rest == blob || |buf.emitted| > |old(buf.emitted)|
        decreases |rest|
      {
        PlainFirst(buf.emitted, rest);
        buf.Put(rest[0]);
        rest := rest[1..];
      }
    }

    method WriteContents() returns (running: bool)
      requires Valid() && activity.Contents?
      modifies this`activity, buf
      ensures Valid() && Text() == old(Text()) && (!running ==> !buf.Writable())
      ensures buf.room <= old(buf.room) && |buf.emitted| + buf.room == old(|buf.emitted| + buf.room)
      ensures !running ==> Rank(activity) <= old(Rank(activity))
      ensures running ==> |buf.emitted| > old(|buf.emitted|) || Rank(activity) < old(Rank(activity))
    {
      ghost var all := Escape(activity.rest);
      var rest := PutPlainBytes(activity.rest);
      if rest != [] && buf.Writable() {
        ghost var before := buf.emitted;
        buf.Put(BACKSLASH);
        activity := Escaped(rest);
        EscapeStartsWithBackslash(before, rest);
      } else {
        activity := if rest == [] then Idle else Contents(rest);
      }
      Regroup(old(buf.emitted), all, buf.emitted, ActivityText(activity, digits), TasksText(tasks));
      running := !activity.Contents?;
    }

    method WriteEscaped() returns (running: bool)
      requires Valid() && activity.Escaped?
      modifies this`activity, buf
      ensures Valid() && Text() == old(Text()) && (!running ==> !buf.Writable())
      ensures buf.room <= old(buf.room) && |buf.emitted| + buf.room == old(|buf.emitted| + buf.room)
      ensures !running ==> Rank(activity) <= old(Rank(activity))
      ensures running ==> |buf.emitted| > old(|buf.emitted|)
    {
      if !buf.Writable() {
        return false;
      }
      var rest := activity.rest;
      ghost var others := TasksText(tasks);
      var c: Byte := if rest[0] == NEWLINE then LOWER_N else rest[0];
      SecondHalf(rest, c);
      buf.Put(c);
      activity := Contents(rest[1..]);
      Regroup(old(buf.emitted), [c] + Escape(rest[1..]), buf.emitted, Escape(rest[1..]), others);
      return true;
    }

    method Step() returns (running: bool)
      requires Valid() && activity != Done
      modifies this`activity, this`digits, this`tasks, buf
      ensures Valid() && Text() == old(Text()) && (!running ==> !buf.Writable() && old(activity) != Idle)
      ensures buf.room <= old(buf.room) && |buf.emitted| + buf.room == old(|buf.emitted| + buf.room)
      ensures !running ==> Rank(activity) <= old(Rank(activity))
      ensures running ==> |buf.emitted| > old(|buf.emitted|) || Rank(activity) < old(Rank(activity))
    {
      match activity
      case Idle => NextTask(); running := true;
      case Literal(_) => running := WriteLiteralChars();
      case Minus(_, _) => running := WriteMinus();
      case Digits(_, _) => running := WriteDigits();
      case OpeningQuote(_) => running := WriteOpeningQuote();
      case Contents(_) => running := WriteContents();
      case Escaped(_) => running := WriteEscaped();
      case Name(_) => running := WriteNameChars();
    }

    /** One callback: runs until all is written, the buffer is full, or the stack deserves a rest. */
    method Resume() returns (running: bool)
      requires Valid() && activity != Done
      modifies this`activity, this`digits, this`tasks, buf
      ensures Valid() && Text() == old(Text()) && (!running ==> !buf.Writable())
      ensures buf.room <= old(buf.room) && |buf.emitted| + buf.room == old(|buf.emitted| + buf.room)
      ensures |buf.emitted| > old(|buf.emitted|) || Rank(activity) <= old(Rank(activity))
      ensures running || old(activity) == Idle ==>
              |buf.emitted| > old(|buf.emitted|) || Rank(activity) < old(Rank(activity))
    {
      running := Step();
      var inRange: bool := *;
      while running && activity != Done && inRange
        invariant Valid() && Text() == old(Text()) && (!running ==> !buf.Writable())
        invariant buf.room <= old(buf.room) && |buf.emitted| + buf.room == old(|buf.emitted| + buf.room)
        invariant |buf.emitted| > old(|buf.emitted|) || Rank(activity) <= old(Rank(activity))
        invariant running || old(activity) == Idle ==>
                  |buf.emitted| > old(|buf.emitted|) || Rank(activity) < old(Rank(activity))
        decreases |Text()| - |buf.emitted|, Rank(activity)
      {
        running := Step();
        if !running {
          break;
        }
        inRange := *;
      }
    }

    /** What was emitted and what is left to emit is `text`; a name for it, which the members below look into. */
    ghost predicate Follows(text: seq<Byte>)
      reads this, buf`emitted
    {
      forall key {:trigger Opened(key)} :: Opened(key) ==> Valid() && Text() == text
    }

    lemma Emitted(text: seq<Byte>)
      requires Follows(text)
      ensures buf.emitted <= text
      ensures activity == Done ==> buf.emitted == text
    {
      assert Opened(true);
    }

    /** Resumes the writer when it can do something. */
    method Continue(ghost text: seq<Byte>)
      requires Follows(text) && activity != Done && (buf.Writable() || activity == Idle)
      modifies this`activity, this`digits, this`tasks, buf
      ensures Follows(text) && buf.emitted <= text
      ensures buf.room <= old(buf.room) && |buf.emitted| + buf.room == old(|buf.emitted| + buf.room)
      ensures |buf.emitted| > old(|buf.emitted|)
              || (|buf.emitted| == old(|buf.emitted|) && (Rank(activity) < old(Rank(activity)) || !buf.Writable()))
      ensures old(activity) == Idle ==> |buf.emitted| > old(|buf.emitted|) || Rank(activity) < old(Rank(activity))
    {
      assert Opened(true);
      var running := Resume();
    }
  }

  /** If the output and the text that is left move the boundary between them, nothing else changes. */
  lemma Regroup(emitted: seq<Byte>, text: seq<Byte>, emitted': seq<Byte>, text': seq<Byte>, others: seq<Byte>)
    requires emitted' + text' == emitted + text
    ensures emitted' + (text' + others) == emitted + (text + others)
  {
    assert emitted' + (text' + others) == emitted' + text' + others;
    assert emitted + (text + others) == emitted + text + others;
  }

  lemma EscapeStartsWithBackslash(emitted: seq<Byte>, rest: seq<Byte>)
    requires rest != [] && NeedsEscape(rest[0])
    ensures Escape(rest) != [] && emitted + [BACKSLASH] + Escape(rest)[1..] == emitted + Escape(rest)
  {
    assert |EscapeByte(rest[0])| > 0 && EscapeByte(rest[0])[0] == BACKSLASH;
    PutBack(emitted, Escape(rest));
  }

  lemma PlainFirst(emitted: seq<Byte>, rest: seq<Byte>)
    requires rest != [] && !NeedsEscape(rest[0])
    ensures (emitted + [rest[0]]) + Escape(rest[1..]) == emitted + Escape(rest)
  {
    assert Escape(rest) == [rest[0]] + Escape(rest[1..]);
  }

  lemma SecondHalf(rest: seq<Byte>, c: Byte)
    requires rest != [] && NeedsEscape(rest[0]) && c == if rest[0] == NEWLINE then LOWER_N else rest[0]
    ensures Escape(rest)[1..] == [c] + Escape(rest[1..])
  {
    assert EscapeByte(rest[0]) == [BACKSLASH, c];
    BehindFirst(BACKSLASH, c, Escape(rest[1..]));
  }

  lemma BehindFirst(a: Byte, c: Byte, others: seq<Byte>)
    ensures ([a, c] + others)[1..] == [c] + others
  {
  }

  lemma PutBack(emitted: seq<Byte>, text: seq<Byte>)
    requires text != []
    ensures emitted + [text[0]] + text[1..] == emitted + text
  {
  }

  lemma AssociateSuffix(a: seq<Byte>, suffix: seq<Byte>, others: seq<Byte>)
    ensures a + (suffix + others) == a + suffix + others
  {
  }

  lemma AssociateBrackets(open: seq<Byte>, middle: seq<Byte>, close: seq<Byte>, others: seq<Byte>)
    ensures open + (middle + close + others) == open + middle + close + others
  {
  }

  lemma AssociateSplit(first: seq<Byte>, tail: seq<Byte>, close: seq<Byte>, others: seq<Byte>)
    ensures first + (tail + close + others) == first + tail + close + others
  {
  }

  function Sum(amounts: seq<nat>): nat {
    if amounts == [] then 0 else Sum(amounts[..|amounts| - 1]) + amounts[|amounts| - 1]
  }

  lemma SumGrows(amounts: seq<nat>, n: nat)
    requires n < |amounts|
    ensures Sum(amounts[..n + 1]) == Sum(amounts[..n]) + amounts[n]
  {
    assert amounts[..n + 1][..n] == amounts[..n];
  }

  /**
   Suspension independence: whatever room the network makes, and however often the writer
   rests, it emits exactly the text of its tasks, and nothing else; it stops short only when all the room is used up.
   */
  method Write(tasks: seq<Task>, room: seq<nat>) returns (complete: bool, buf: OutBuf)
    requires ProperTasks(tasks) && 0 !in room
    ensures fresh(buf) && buf.emitted <= TasksText(tasks)
    ensures complete ==> buf.emitted == TasksText(tasks)
    ensures !complete ==> |buf.emitted| == Sum(room)
  {
    buf := new OutBuf();
    var writer := new AsyncWriter(buf, tasks);
    ghost var text := TasksText(tasks);
    assert [] + text == text;
    var next := 0;
    while writer.activity != Done
      invariant fresh(buf) && fresh(writer) && writer.buf == buf
      invariant writer.Follows(text) && buf.emitted <= text
      invariant next <= |room| && |buf.emitted| + buf.room == Sum(room[..next])
      decreases |room| - next, buf.Writable(), |text| - |buf.emitted|, Rank(writer.activity)
    {
      if buf.Writable() || writer.activity == Idle {
        writer.Continue(text);
      } else if next < |room| {
        SumGrows(room, next);
        buf.MakeRoom(room[next]);
        next := next + 1;
      } else {
        assert room[..next] == room;
        return false, buf;
      }
    }
    writer.Emitted(text);
    return true, buf;
  }
}
