/** What an absolute form is, as laws about paths: no stack, no pieces. */
module PathLaws {
  import opened PathMeaning

  lemma {:induction false} SplitSlash(path: string)
    ensures Split(path + "/") == Split(path) + [""]
  {
    if path == "" {
      assert path + "/" == ['/'] + "";
      SplitFirst('/', "");
    } else {
      var c, rest := path[0], path[1..];
      assert path + "/" == [c] + (rest + "/") && path == [c] + rest;
      SplitFirst(c, rest + "/");
      SplitFirst(c, rest);
      SplitSlash(rest);
    }
  }

  lemma {:induction false} WalkOn(stack: seq<string>, pieces: seq<string>, more: seq<string>)
    ensures Walk(stack, pieces + more) == Walk(Walk(stack, pieces), more)
    decreases |pieces|
  {
    if pieces == [] {
      assert pieces + more == more;
    } else {
      assert (pieces + more)[1..] == pieces[1..] + more;
      WalkOn(Step(stack, pieces[0]), pieces[1..], more);
    }
  }

  /** A slash at the end leads nowhere else. */
  lemma SlashLeadsNowhere(stack: seq<string>, path: string)
    ensures Walk(stack, Split(path + "/")) == Walk(stack, Split(path))
  {
    SplitSlash(path);
    WalkOn(stack, Split(path), [""]);
    assert Walk(Walk(stack, Split(path)), [""]) == Walk(Walk(stack, Split(path)), []);
  }

  /** Behind a slash, a path goes on from where it has led so far. */
  lemma WalkBehind(stack: seq<string>, front: string, rest: string)
    requires EndsInSlash(front)
    ensures Walk(stack, Split(front + rest)) == Walk(Walk(stack, Split(front)), Split(rest))
  {
    var before := front[..|front| - 1];
    assert front == before + "/";
    SplitSlash(before);
    SplitAppend(front, rest);
    assert Split(front)[..|Split(front)| - 1] == Split(before);
    WalkOn(stack, Split(before), Split(rest));
    SlashLeadsNowhere(stack, before);
  }

  lemma OnePiece(stack: seq<string>, piece: string)
    requires '/' !in piece
    ensures Walk(stack, Split(piece + "/")) == Step(stack, piece) == Walk(stack, Split(piece))
  {
    SplitSegment(piece);
    SlashLeadsNowhere(stack, piece);
    assert [piece][1..] == [];
    assert Walk(stack, [piece]) == Walk(Step(stack, piece), []);
  }

  /** Paths that have led to the same place go on alike. */
  lemma GoOnAlike(front: string, other: string, rest: string, directory: string)
    requires EndsInSlash(front) && EndsInSlash(other) && front[0] == '/' && other[0] == '/'
    requires Walk([], Split(front)) == Walk([], Split(other))
    ensures Absolute(front + rest, directory) == Absolute(other + rest, directory)
  {
    WalkBehind([], front, rest);
    WalkBehind([], other, rest);
    SlashAtEnd(front, rest);
    SlashAtEnd(other, rest);
  }

  lemma SlashAtEnd(front: string, rest: string)
    ensures EndsInSlash(front + rest) == if rest == "" then EndsInSlash(front) else EndsInSlash(rest)
  {
    if rest == "" { assert front + rest == front; }
  }

  /** One piece more, and a slash. */
  lemma StepBehind(front: string, piece: string, there: string)
    requires EndsInSlash(front) && '/' !in piece && there == front + (piece + "/")
    ensures EndsInSlash(there) && there[0] == front[0]
    ensures Walk([], Split(there)) == Step(Walk([], Split(front)), piece)
  {
    WalkBehind([], front, piece + "/");
    OnePiece(Walk([], Split(front)), piece);
  }

  /** ".." undoes the segment in front of it. */
  lemma DotDotUndoes(front: string, segment: string, rest: string, directory: string)
    requires (front == "" || front[0] == '/') && Proper(segment)
    ensures Absolute(front + "/" + segment + "/../" + rest, directory) == Absolute(front + "/" + rest, directory)
  {
    var start := front + "/";
    var there := start + (segment + "/");
    var back := there + (".." + "/");
    StepBehind(start, segment, there);
    StepBehind(there, "..", back);
    GoOnAlike(back, start, rest, directory);
    DetourText(front, segment, rest);
  }

  lemma DetourText(front: string, segment: string, rest: string)
    ensures front + "/" + segment + "/../" + rest == front + "/" + (segment + "/") + (".." + "/") + rest
  {
    assert "/../" == "/" + (".." + "/");
  }

  /** ".." at the root stays at the root. */
  lemma DotDotAtRoot(rest: string, directory: string)
    ensures Absolute("/../" + rest, directory) == Absolute("/" + rest, directory)
  {
    SplitFirst('/', "");
    assert ['/'] + "" == "/" && Walk([], Split("/"))
           == [] by { SlashLeadsNowhere([], ""); assert "" + "/" == "/"; EmptyLeadsNowhere([]); }
    WalkBehind([], "/", "../");
    OnePiece([], "..");
    assert ".." + "/" == "../" && "/" + "../" == "/../";
    GoOnAlike("/../", "/", rest, directory);
  }

  lemma EmptyLeadsNowhere(stack: seq<string>)
    ensures Walk(stack, Split("")) == stack
  {
    assert [""][1..] == [] && Walk(stack, [""]) == Walk(stack, []);
  }

  /** "." stays where it is. */
  lemma DotStays(front: string, rest: string, directory: string)
    requires front == "" || front[0] == '/'
    ensures Absolute(front + "/./" + rest, directory) == Absolute(front + "/" + rest, directory)
  {
    var start := front + "/";
    var there := start + ("." + "/");
    StepBehind(start, ".", there);
    GoOnAlike(there, start, rest, directory);
    assert front + "/./" + rest == there + rest;
  }

  /** Several slashes are as good as one. */
  lemma SlashesAreOne(front: string, rest: string, directory: string)
    requires front == "" || front[0] == '/'
    ensures Absolute(front + "//" + rest, directory) == Absolute(front + "/" + rest, directory)
  {
    var start := front + "/";
    SlashLeadsNowhere([], start);
    GoOnAlike(start + "/", start, rest, directory);
    assert front + "//" + rest == start + "/" + rest;
  }

  /** A relative path starts at the directory. */
  lemma RelativeToDirectory(path: string, directory: string)
    requires path != "" && path[0] != '/' && IsDirectory(directory)
    ensures Absolute(path, directory) == Absolute(directory + "/" + path, directory)
  {
    var stack, front := Walk([], Split(directory)), directory + "/";
    DirectoryStarts(directory);
    SlashLeadsNowhere([], directory);
    WalkBehind([], front, path);
    SlashAtEnd(front, path);
    assert (front + path)[0] == '/';
  }

  lemma DirectoryStarts(directory: string)
    requires IsDirectory(directory)
    ensures directory != "" && directory[0] == '/'
  {
    PiecesHaveNoSlash(directory);
    WalkIsProper([], Split(directory));
    JoinedShape(Walk([], Split(directory)));
  }

  /** A segment behind an absolute path stands behind its absolute form. */
  lemma SegmentIsAppended(path: string, segment: string, directory: string)
    requires path != "" && path[0] == '/' && Proper(segment)
    ensures var before := Absolute(path, directory);
            Absolute(path + "/" + segment, directory) == before + (if EndsInSlash(before) then "" else "/") + segment
  {
    var stack := Walk([], Split(path));
    FinalIsProper(path, directory);
    SegmentLeads(path, segment);
    RenderMore(stack, segment);
    RenderShape(stack);
  }

  lemma SegmentLeads(path: string, segment: string)
    requires Proper(segment)
    ensures Walk([], Split(path + "/" + segment)) == Walk([], Split(path)) + [segment]
            && !EndsInSlash(path + "/" + segment)
  {
    SlashLeadsNowhere([], path);
    WalkBehind([], path + "/", segment);
    OnePiece(Walk([], Split(path)), segment);
    SlashAtEnd(path + "/", segment);
    assert segment[|segment| - 1] in segment;
  }

  lemma RenderMore(stack: seq<string>, segment: string)
    ensures Render(stack + [segment]) == (if stack == [] then "/" else Render(stack) + "/") + segment
  {
    var more := stack + [segment];
    assert more[..|more| - 1] == stack && more[|more| - 1] == segment;
    assert Render(more) == Joined(stack) + "/" + segment;
    assert "" + "/" == "/";
  }

  lemma RenderShape(stack: seq<string>)
    requires AllProper(stack)
    ensures Render(stack) != "" && Render(stack)[0] == '/' && (EndsInSlash(Render(stack)) <==> stack == [])
  {
    JoinedShape(stack);
  }

  /** A slash at the end is kept, and is not doubled. */
  lemma SlashIsKept(path: string, directory: string)
    requires path != "" && path[0] == '/'
    ensures var before := Absolute(path, directory);
            Absolute(path + "/", directory) == before + (if EndsInSlash(before) then "" else "/")
  {
    var stack := Walk([], Split(path));
    SlashLeadsNowhere([], path);
    FinalIsProper(path, directory);
    RenderShape(stack);
    SlashAtEnd(path, "/");
  }

  lemma RootIsAbsolute(directory: string)
    ensures Absolute("/", directory) == "/"
  {
    EmptyLeadsNowhere([]);
    SlashLeadsNowhere([], "");
    assert "" + "/" == "/";
  }
}
