/** What a path means: a stack of segments. */
module PathMeaning {

  /** The pieces between the slashes, which may be empty; there is at least one. */
  function Split(path: string): (pieces: seq<string>)
    ensures pieces != []
  {
    if path == [] then [""]
    else
      var rest := Split(path[1..]);
      if path[0] == '/' then [""] + rest else [[path[0]] + rest[0]] + rest[1..]
  }

  /** An empty piece and "." change nothing, ".." pops unless there is nothing to pop, anything else is pushed. */
  function Step(stack: seq<string>, piece: string): seq<string> {
    if piece == "" || piece == "." then stack
    else if piece == ".." then (if stack == [] then [] else stack[..|stack| - 1])
    else stack + [piece]
  }

  function Walk(stack: seq<string>, pieces: seq<string>): seq<string>
    decreases |pieces|
  {
    if pieces == [] then stack else Walk(Step(stack, pieces[0]), pieces[1..])
  }

  /** A slash in front of every segment. */
  function Joined(stack: seq<string>): string {
    if stack == [] then "" else Joined(stack[..|stack| - 1]) + "/" + stack[|stack| - 1]
  }

  function Render(stack: seq<string>): string {
    if stack == [] then "/" else Joined(stack)
  }

  predicate EndsInSlash(path: string) {
    path != "" && path[|path| - 1] == '/'
  }

  /** Where a path leads from a directory; a slash at its end is kept, except behind the root. */
  function Resolve(stack: seq<string>, path: string): string {
    var final := Walk(stack, Split(path));
    Render(final) + (if EndsInSlash(path) && final != [] then "/" else "")
  }

  /** The absolute form of a path that is not empty. */
  function Absolute(path: string, directory: string): string
    requires path != ""
  {
    Resolve(if path[0] == '/' then [] else Walk([], Split(directory)), path)
  }

  /** What the operating system reports as the current directory. */
  predicate IsDirectory(directory: string) {
    directory == Render(Walk([], Split(directory)))
  }

  predicate Proper(segment: string) {
    segment != "" && segment != "." && segment != ".." && '/' !in segment
  }

  ghost predicate AllProper(stack: seq<string>) {
    forall i :: 0 <= i < |stack| ==> Proper(stack[i])
  }

  /** No piece holds a slash. */
  lemma {:induction false} PiecesHaveNoSlash(path: string)
    ensures forall i :: 0 <= i < |Split(path)| ==> '/' !in Split(path)[i]
  {
    if path != [] { PiecesHaveNoSlash(path[1..]); }
  }

  lemma {:induction false} WalkIsProper(stack: seq<string>, pieces: seq<string>)
    requires AllProper(stack) && forall i :: 0 <= i < |pieces| ==> '/' !in pieces[i]
    ensures AllProper(Walk(stack, pieces))
    decreases |pieces|
  {
    if pieces != [] { WalkIsProper(Step(stack, pieces[0]), pieces[1..]); }
  }

  /** Slashes in front of a path change nothing. */
  lemma {:induction false} SlashesChangeNothing(stack: seq<string>, path: string, n: nat)
    requires n <= |path| && forall i :: 0 <= i < n ==> path[i] == '/'
    ensures Walk(stack, Split(path)) == Walk(stack, Split(path[n..]))
  {
    if n > 0 {
      SlashesChangeNothing(stack, path[1..], n - 1);
      assert path[1..][n - 1..] == path[n..];
      assert Split(path)[1..] == Split(path[1..]);
    }
  }

  /** The first piece of a path is what stands in front of the first slash. */
  lemma {:induction false} FirstPiece(path: string, n: nat)
    requires n <= |path| && (forall i :: 0 <= i < n ==> path[i] != '/') && (n < |path| ==> path[n] == '/')
    ensures Split(path)[0] == path[..n]
    ensures Split(path)[1..] == (if n < |path| then Split(path[n + 1..]) else [])
  {
    if n > 0 {
      FirstPiece(path[1..], n - 1);
      assert [path[0]] + path[1..][..n - 1] == path[..n];
      if n < |path| { assert path[1..][n..] == path[n + 1..]; }
    }
  }

  /** One segment at a time. */
  lemma SegmentStep(stack: seq<string>, path: string, n: nat)
    requires n <= |path| && (forall i :: 0 <= i < n ==> path[i] != '/') && (n < |path| ==> path[n] == '/')
    ensures Walk(stack, Split(path)) == Walk(Step(stack, path[..n]), Split(path[n..]))
  {
    FirstPiece(path, n);
    if n < |path| {
      SlashesChangeNothing(Step(stack, path[..n]), path[n..], 1);
      assert path[n..][1..] == path[n + 1..];
    } else {
      assert Split(path[n..]) == [""];
      assert Walk(Step(stack, path[..n]), [""]) == Walk(Step(stack, path[..n]), []);
    }
  }

  /** The pieces of what a stack looks like are its segments, behind the slash in front. */
  lemma {:induction false} SplitJoined(stack: seq<string>)
    requires AllProper(stack)
    ensures Split(Joined(stack)) == [""] + stack
    ensures Split(Joined(stack) + "/") == [""] + stack + [""]
  {
    if stack != [] {
      var fewer, last := stack[..|stack| - 1], stack[|stack| - 1];
      SplitJoined(fewer);
      var front := Joined(fewer) + "/";
      SplitAppend(front, last);
      SplitAppend(front, last + "/");
      assert Joined(stack) == front + last && Joined(stack) + "/" == front + (last + "/");
      SplitSegment(last);
      LastSegment(fewer, last);
      assert stack == fewer + [last];
    }
  }

  lemma LastSegment(fewer: seq<string>, last: string)
    ensures var pieces := [""] + fewer + [""];
            && pieces[..|pieces| - 1] + [last] == [""] + (fewer + [last])
            && pieces[..|pieces| - 1] + [last, ""] == [""] + (fewer + [last]) + [""]
  {
  }

  lemma {:induction false} SplitSegment(segment: string)
    requires '/' !in segment
    ensures Split(segment) == [segment] && Split(segment + "/") == [segment, ""]
  {
    FirstPiece(segment, |segment|);
    assert Split(segment) == [Split(segment)[0]] + Split(segment)[1..] && segment[..|segment|] == segment;
    var closed := segment + "/";
    FirstPiece(closed, |segment|);
    assert Split(closed) == [Split(closed)[0]] + Split(closed)[1..];
    assert closed[|segment| + 1..] == [] && closed[..|segment|] == segment;
  }

  /** Text behind a slash starts a new piece. */
  lemma {:induction false} SplitAppend(path: string, more: string)
    requires EndsInSlash(path)
    ensures |Split(path)| >= 2
    ensures Split(path + more) == Split(path)[..|Split(path)| - 1] + Split(more)
  {
    var c, rest := path[0], path[1..];
    assert path == [c] + rest && path + more == [c] + (rest + more);
    SplitFirst(c, rest);
    SplitFirst(c, rest + more);
    if rest == "" {
      assert rest + more == more && Split(rest) == [""];
    } else {
      assert EndsInSlash(rest);
      SplitAppend(rest, more);
      Prepended(c, Split(rest), Split(more));
    }
  }

  lemma SplitFirst(c: char, rest: string)
    ensures Split([c] + rest) == if c == '/' then [""] + Split(rest) else [[c] + Split(rest)[0]] + Split(rest)[1..]
  {
    assert ([c] + rest)[1..] == rest;
  }

  /** A character in front of all but the last of some pieces. */
  lemma Prepended(c: char, pieces: seq<string>, more: seq<string>)
    requires |pieces| >= 2
    ensures var all := pieces[..|pieces| - 1] + more;
            && all != []
            && [""] + all == ([""] + pieces)[..|pieces|] + more
            && [[c] + all[0]] + all[1..] == ([[c] + pieces[0]] + pieces[1..])[..|pieces| - 1] + more
  {
  }

  lemma {:induction false} WalkProper(stack: seq<string>, more: seq<string>)
    requires AllProper(more)
    ensures Walk(stack, more) == stack + more
    ensures Walk(stack, more + [""]) == stack + more
    decreases |more|
  {
    if more != [] {
      WalkProper(stack + [more[0]], more[1..]);
      assert (more + [""])[1..] == more[1..] + [""];
      assert stack + more == (stack + [more[0]]) + more[1..];
    }
  }

  /** What a stack looks like, with a slash behind it or not, leads from the root to the stack itself. */
  lemma ResolveRendered(stack: seq<string>, slash: bool)
    requires AllProper(stack) && (slash ==> stack != [])
    ensures var text := Render(stack) + (if slash then "/" else "");
            && text[0] == '/' && Resolve([], text) == text
            && Split(text) == [""] + stack + (if slash || stack == [] then [""] else [])
  {
    JoinedShape(stack);
    var text := Render(stack) + (if slash then "/" else "");
    if stack == [] {
      assert text == "/" && "/"[1..] == "" && Split("") == [""];
      assert Walk([], ["", ""]) == Walk([], [""]) == Walk([], []);
    } else {
      WalkRendered(stack, slash);
      assert text == (if slash then Joined(stack) + "/" else Joined(stack));
    }
  }

  lemma WalkRendered(stack: seq<string>, slash: bool)
    requires AllProper(stack)
    ensures var text := if slash then Joined(stack) + "/" else Joined(stack);
            Split(text) == [""] + stack + (if slash then [""] else []) && Walk([], Split(text)) == stack
  {
    SplitJoined(stack);
    WalkProper([], stack);
    assert [] + stack == stack;
    if slash {
      assert ([""] + stack + [""])[1..] == stack + [""];
    } else {
      assert ([""] + stack)[1..] == stack;
    }
  }

  lemma {:induction false} JoinedShape(stack: seq<string>)
    requires AllProper(stack)
    ensures stack != [] ==>
            Joined(stack) != "" && Joined(stack)[0] == '/' && !EndsInSlash(Joined(stack)) && |Joined(stack)| > 1
  {
    if stack != [] {
      JoinedShape(stack[..|stack| - 1]);
      var segment := stack[|stack| - 1];
      assert Proper(segment);
      assert segment[|segment| - 1] in segment;
    }
  }

  lemma FinalIsProper(path: string, directory: string)
    requires path != ""
    ensures AllProper(Walk([], Split(directory)))
    ensures AllProper(Walk(if path[0] == '/' then [] else Walk([], Split(directory)), Split(path)))
  {
    PiecesHaveNoSlash(directory);
    PiecesHaveNoSlash(path);
    WalkIsProper([], Split(directory));
    WalkIsProper(if path[0] == '/' then [] else Walk([], Split(directory)), Split(path));
  }

  /** No piece of an absolute path is "." or "..", and only the first one, and the last one, are ever empty. */
  lemma InnerSegmentsAreProper(path: string, directory: string, i: int)
    requires path != "" && 0 < i < |Split(Absolute(path, directory))|
    ensures var pieces := Split(Absolute(path, directory));
            Proper(pieces[i]) || (i == |pieces| - 1 && pieces[i] == "")
  {
    FinalIsProper(path, directory);
    var final := Walk(if path[0] == '/' then [] else Walk([], Split(directory)), Split(path));
    ResolveRendered(final, EndsInSlash(path) && final != []);
  }

  /** An absolute path is its own absolute form, from whatever directory. */
  lemma AbsoluteIsIdempotent(path: string, directory: string, other: string)
    requires path != ""
    ensures Absolute(path, directory) != "" && Absolute(Absolute(path, directory), other) == Absolute(path, directory)
  {
    FinalIsProper(path, directory);
    var final := Walk(if path[0] == '/' then [] else Walk([], Split(directory)), Split(path));
    ResolveRendered(final, EndsInSlash(path) && final != []);
  }
}

/** The algorithm, which works on the characters of the result. */
module AbsolutePaths {
  import opened PathMeaning
  import opened Wrappers

  /** The result between two segments: what the stack looks like. */
  ghost predicate Shows(result: string, stack: seq<string>) {
    AllProper(stack) && result == Render(stack)
  }

  lemma ShowsShape(result: string, stack: seq<string>)
    requires Shows(result, stack)
    ensures result != "" && result[0] == '/' && (|result| == 1 || result[|result| - 1] != '/')
    ensures |result| == 1 <==> stack == []
    ensures result[|result| - 1] == '/' <==> stack == []
  {
    JoinedShape(stack);
  }

  /** Removes the last segment, character by character, and the slash in front of it unless it stands for the root. */
  method PopSegment(result: string, ghost stack: seq<string>) returns (popped: string)
    requires Shows(result, stack)
    ensures Shows(popped, Step(stack, ".."))
    ensures stack == [] ==> popped == "/"
    ensures stack != [] ==> popped == Render(stack[..|stack| - 1])
  {
    popped := result;
    ghost var fewer := Step(stack, "..");
    ghost var segment := if stack == [] then "" else stack[|stack| - 1];
    ShowsShape(result, stack);
    JoinedShape(fewer);
    ghost var n := |segment|;
    while |popped| > 1 && popped[|popped| - 1] != '/'
      invariant 0 <= n <= |segment|
      invariant popped == if stack == [] then "/" else Joined(fewer) + "/" + segment[..n]
      decreases |popped|
    {
      popped := popped[..|popped| - 1];
      n := n - 1;
    }
    LastOfText(Joined(fewer) + "/", segment, n);
    if |popped| > 1 {
      popped := popped[..|popped| - 1];
    }
  }

  lemma LastOfText(front: string, segment: string, n: nat)
    requires n <= |segment|
    ensures n > 0 ==> var text := front + segment[..n]; text[|text| - 1] in segment
    ensures n == 0 ==> front + segment[..n] == front
  {
    if n > 0 { assert segment[..n][n - 1] == segment[n - 1]; }
  }

  /** Adds a segment; an empty one, behind a slash at the end of the path, only adds the slash. */
  method PushSegment(result: string, path: string, seg: nat, end: nat, ghost stack: seq<string>)
    returns (pushed: string)
    requires Shows(result, stack) && seg <= end <= |path|
    ensures pushed == (if stack == [] then "/" else Joined(stack) + "/") + path[seg..end]
  {
    ShowsShape(result, stack);
    pushed := result;
    if pushed[|pushed| - 1] != '/' {
      pushed := pushed + "/";
    }
    ghost var front := pushed;
    var i := seg;
    while i != end
      invariant seg <= i <= end && pushed == front + path[seg..i]
    {
      pushed := pushed + [path[i]];
      i := i + 1;
    }
  }

  /** Skips leading slashes, and then a segment, which is empty only behind a slash at the end. */
  method NextSegment(path: string, start: nat) returns (seg: nat, end: nat)
    requires start < |path|
    ensures IsSegment(path, start, seg, end) && start < end
  {
    seg := start;
    while seg < |path| && path[seg] == '/'
      invariant start <= seg <= |path| && forall k :: start <= k < seg ==> path[k] == '/'
    {
      seg := seg + 1;
    }
    end := seg;
    while end < |path| && path[end] != '/'
      invariant seg <= end <= |path| && forall k :: seg <= k < end ==> path[k] != '/'
    {
      end := end + 1;
    }
  }

  ghost predicate IsSegment(path: string, start: nat, seg: nat, end: nat) {
    && start <= seg <= end <= |path|
    && (forall k :: start <= k < seg ==> path[k] == '/')
    && (forall k :: seg <= k < end ==> path[k] != '/')
    && (seg < |path| ==> seg < end)
    && (end < |path| ==> path[end] == '/')
  }

  /** "." skips, ".." pops, and anything else is appended. */
  method ApplySegment(text: string, path: string, seg: nat, end: nat, ghost stack: seq<string>) returns (result: string)
    requires Shows(text, stack) && seg <= end <= |path| && forall k :: seg <= k < end ==> path[k] != '/'
    ensures seg < end ==> Shows(result, Step(stack, path[seg..end]))
    ensures seg == end ==> result == Render(stack) + (if stack != [] then "/" else "")
  {
    ghost var segment := path[seg..end];
    SegmentIsProper(segment);
    if end - seg == 1 && path[seg] == '.' {
      // skip segment in path
      assert segment == ".";
      result := text;
    } else if end - seg == 2 && path[seg] == '.' && path[seg + 1] == '.' {
      assert segment == "..";
      result := PopSegment(text, stack);
    } else {
      assert segment != "." && segment != "..";
      result := PushSegment(text, path, seg, end, stack);
      Pushed(stack, segment);
    }
  }

  lemma Pushed(stack: seq<string>, segment: string)
    requires AllProper(stack) && (segment == "" || Proper(segment))
    ensures var text := (if stack == [] then "/" else Joined(stack) + "/") + segment;
            if segment == "" then text == Render(stack) + (if stack != [] then "/" else "")
            else Shows(text, Step(stack, segment))
  {
    var more := stack + [segment];
    assert more[..|more| - 1] == stack;
    assert Joined(more) == (Joined(stack) + "/") + segment;
    if stack == [] {
      assert Joined(stack) + "/" == "/";
    }
    if segment == "" {
      assert (Joined(stack) + "/") + segment == Joined(stack) + "/";
    } else {
      assert Step(stack, segment) == more;
    }
  }

  /** None stands for the exception that an empty path raises. */
  method AbsolutePath(path: string, directory: string) returns (result: Option<string>)
    requires IsDirectory(directory)
    ensures result == if path == "" then None else Some(Absolute(path, directory))
  {
    if path == "" {
      return None;
    }
    var text := if path[0] == '/' then "/" else directory;
    ghost var stack := if path[0] == '/' then [] else Walk([], Split(directory));
    FinalIsProper(path, directory);
    var i := 0;
    assert path[0..] == path;
    while i != |path|
      invariant 0 <= i <= |path|
      invariant i < |path| ==> Shows(text, stack) && Resolve(stack, path[i..]) == Absolute(path, directory)
      invariant i == |path| ==> text == Absolute(path, directory)
    {
      ShowsShape(text, stack);
      assert text != "" && text[0] == '/' && (|text| == 1 || text[|text| - 1] != '/');
      var seg, end := NextSegment(path, i);
      OneSegment(stack, path, i, seg, end);
      text := ApplySegment(text, path, seg, end, stack);
      stack := Step(stack, path[seg..end]);
      i := end;
    }
    result := Some(text);
  }

  /** What one segment does to the rest of the way. */
  lemma OneSegment(stack: seq<string>, path: string, start: nat, seg: nat, end: nat)
    requires IsSegment(path, start, seg, end) && start < |path|
    ensures end < |path| ==>
            seg < end && Resolve(Step(stack, path[seg..end]), path[end..]) == Resolve(stack, path[start..])
    ensures end == |path| ==> Resolve(stack, path[start..]) ==
                              Render(Step(stack, path[seg..end])) + (if seg == end && stack != [] then "/" else "")
  {
    WalkOneSegment(stack, path, start, seg, end);
    SlashAtEnd(path, start, seg, end);
    if end == |path| { EmptyRest(Step(stack, path[seg..end])); }
  }

  lemma WalkOneSegment(stack: seq<string>, path: string, start: nat, seg: nat, end: nat)
    requires IsSegment(path, start, seg, end)
    ensures Walk(stack, Split(path[start..])) == Walk(Step(stack, path[seg..end]), Split(path[end..]))
  {
    SkipSlashes(stack, path, start, seg);
    TakeSegment(stack, path, seg, end);
  }

  lemma SkipSlashes(stack: seq<string>, path: string, start: nat, seg: nat)
    requires start <= seg <= |path| && forall k :: start <= k < seg ==> path[k] == '/'
    ensures Walk(stack, Split(path[start..])) == Walk(stack, Split(path[seg..]))
  {
    Behind(path, start, seg);
    SlashesChangeNothing(stack, path[start..], seg - start);
  }

  lemma TakeSegment(stack: seq<string>, path: string, seg: nat, end: nat)
    requires seg <= end <= |path| && (forall k :: seg <= k < end ==> path[k] != '/')
             && (end < |path| ==> path[end] == '/')
    ensures Walk(stack, Split(path[seg..])) == Walk(Step(stack, path[seg..end]), Split(path[end..]))
  {
    Behind(path, seg, end);
    SegmentStep(stack, path[seg..], end - seg);
  }

  /** A position behind another one. */
  lemma Behind(path: string, start: nat, end: nat)
    requires start <= end <= |path|
    ensures path[start..][..end - start] == path[start..end] && path[start..][end - start..] == path[end..]
    ensures forall k :: 0 <= k < |path| - start ==> path[start..][k] == path[start + k]
  {
  }

  lemma SlashAtEnd(path: string, start: nat, seg: nat, end: nat)
    requires IsSegment(path, start, seg, end) && start < |path|
    ensures EndsInSlash(path[start..]) == (if end < |path| then EndsInSlash(path[end..]) else seg == end)
  {
    var last := path[|path| - 1];
    assert path[start..][|path| - start - 1] == last;
    if end < |path| { assert path[end..][|path| - end - 1] == last; }
  }

  lemma EmptyRest(stack: seq<string>)
    ensures Walk(stack, Split("")) == stack
  {
    assert Walk(stack, [""]) == Walk(stack, []);
  }

  lemma SegmentIsProper(segment: string)
    requires forall k :: 0 <= k < |segment| ==> segment[k] != '/'
    ensures segment == "" || segment == "." || segment == ".." || Proper(segment)
  {
  }
}
