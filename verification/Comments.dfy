/** The comment stripper: a five-state machine that blanks comments in a buffer, in place. */
module Comments {
  import opened Text

  predicate OpensLine(s: string) { |s| >= 2 && s[0] == '/' && s[1] == '/' }

  predicate OpensBlock(s: string) { |s| >= 2 && s[0] == '/' && s[1] == '*' }

  predicate ClosesBlock(s: string) { |s| >= 2 && s[0] == '*' && s[1] == '/' }

  // ---- What stripping means, by segments ----

  // `s` with every comment blanked: from `//` up to the end of its line, from `/*` through `*/`.
  function Strip(s: string): (r: string)
    ensures |r| == |s|
    decreases |s|, 2
  {
    if s == [] then []
    else if OpensLine(s) then "  " + StripLine(s[2..])
    else if OpensBlock(s) then "  " + StripBlock(s[2..])
    else [s[0]] + Strip(s[1..])
  }

  /** The rest of a line comment: blanks up to, and not including, the newline. */
  function StripLine(s: string): (r: string)
    ensures |r| == |s|
    decreases |s|, 3
  {
    if s == [] || s[0] == '\n' then Strip(s) else " " + StripLine(s[1..])
  }

  // The rest of a block comment: blanks through the closing `*/`.
  function StripBlock(s: string): (r: string)
    ensures |r| == |s|
    decreases |s|, 1
  {
    if s == [] then []
    else if ClosesBlock(s) then "  " + Strip(s[2..])
    else " " + StripBlock(s[1..])
  }

  /** Does the text end inside a block comment, other than on a `*` within it? */
  predicate Unclosed(s: string)
    decreases |s|, 2
  {
    if s == [] then false
    else if OpensLine(s) then UnclosedAfterLine(s[2..])
    else if OpensBlock(s) then UnclosedBlock(s[2..])
    else Unclosed(s[1..])
  }

  predicate UnclosedAfterLine(s: string)
    decreases |s|, 3
  {
    if s == [] || s[0] == '\n' then Unclosed(s) else UnclosedAfterLine(s[1..])
  }

  predicate UnclosedBlock(s: string)
    decreases |s|, 1
  {
    if s == [] then true
    else if ClosesBlock(s) then Unclosed(s[2..])
    else if s == "*" then false
    else UnclosedBlock(s[1..])
  }

  // ---- The machine ----

  datatype Scanner = Normal | Slash | Block | Star | Line

  /** What the finished buffer looks like, from the machine's state after `done`, with `rest` still to read. */
  ghost function Finish(state: Scanner, done: string, rest: string): string
    requires state in {Slash, Star} ==> done != []
  {
    match state
    case Normal => done + Strip(rest)
    case Slash => done[..|done| - 1] + Strip("/" + rest)
    case Block => done + StripBlock(rest)
    case Star => done[..|done| - 1] + StripBlock("*" + rest)
    case Line => done + StripLine(rest)
  }

  ghost predicate FinishUnclosed(state: Scanner, rest: string) {
    match state
    case Normal => Unclosed(rest)
    case Slash => Unclosed("/" + rest)
    case Block => UnclosedBlock(rest)
    case Star => UnclosedBlock("*" + rest)
    case Line => UnclosedAfterLine(rest)
  }

  /** What one step writes: its own character, and in state Slash possibly the one before. */
  ghost function Step(state: Scanner, c: char): Scanner {
    match state
    case Normal => if c == '/' then Slash else Normal
    case Slash => if c == '*' then Block else if c == '/' then Line else Normal
    case Block => if c == '*' then Star else Block
    case Star => if c == '/' then Normal else if c == '*' then Star else Block
    case Line => if c == '\n' then Normal else Line
  }

  ghost function Written(state: Scanner, done: string, c: char): string
    requires state in {Slash, Star} ==> done != []
  {
    match state
    case Normal => done + [c]
    case Slash => if c == '*' || c == '/' then done[..|done| - 1] + "  " else done + [c]
    case Block => done + " "
    case Star => done + " "
    case Line => if c == '\n' then done + [c] else done + " "
  }

  lemma StepFinishes(state: Scanner, done: string, c: char, rest: string)
    requires state == Slash ==> done != [] && done[|done| - 1] == '/'
    requires state == Star ==> done != [] && done[|done| - 1] == ' '
    ensures Finish(state, done, [c] + rest) == Finish(Step(state, c), Written(state, done, c), rest)
  {
    hide Strip, StripLine, StripBlock;
    match state
    case Normal => NormalFinishes(done, c, rest);
    case Slash => SlashFinishes(done, c, rest);
    case Block => BlockFinishes(done, c, rest);
    case Star => StarFinishes(done, c, rest);
    case Line => LineFinishes(done, c, rest);
  }

  lemma NormalFinishes(done: string, c: char, rest: string)
    ensures Finish(Normal, done, [c] + rest) == Finish(Step(Normal, c), done + [c], rest)
  {
    var s := [c] + rest;
    assert s[1..] == rest;
    if c == '/' {
      assert "/" + rest == s;
    } else {
      assert Strip(s) == [c] + Strip(rest);
    }
  }

  lemma SlashFinishes(done: string, c: char, rest: string)
    requires done != [] && done[|done| - 1] == '/'
    ensures Finish(Slash, done, [c] + rest) == Finish(Step(Slash, c), Written(Slash, done, c), rest)
  {
    var s := [c] + rest;
    var t := "/" + s;
    assert t[1..] == s && t[2..] == rest && s[1..] == rest;
    if c != '*' && c != '/' {
      assert done == done[..|done| - 1] + "/";
      assert Strip(s) == [c] + Strip(rest);
      assert Strip(t) == "/" + ([c] + Strip(rest));
    }
  }

  lemma BlockFinishes(done: string, c: char, rest: string)
    ensures Finish(Block, done, [c] + rest) == Finish(Step(Block, c), done + " ", rest)
  {
    var s := [c] + rest;
    assert s[1..] == rest;
    if c == '*' {
      assert "*" + rest == s;
    } else {
      assert StripBlock(s) == " " + StripBlock(rest);
    }
  }

  lemma LineFinishes(done: string, c: char, rest: string)
    ensures Finish(Line, done, [c] + rest) == Finish(Step(Line, c), Written(Line, done, c), rest)
  {
    var s := [c] + rest;
    assert s[1..] == rest;
    if c == '\n' {
      assert Strip(s) == [c] + Strip(rest);
    } else {
      assert StripLine(s) == " " + StripLine(rest);
    }
  }

  lemma StarFinishes(done: string, c: char, rest: string)
    requires done != [] && done[|done| - 1] == ' '
    ensures Finish(Star, done, [c] + rest) == Finish(Step(Star, c), done + " ", rest)
  {
    var s := [c] + rest;
    var t := "*" + s;
    assert t[1..] == s && t[2..] == rest && s[1..] == rest;
    assert done == done[..|done| - 1] + " ";
    if c == '/' {
      assert StripBlock(t) == "  " + Strip(rest);
    } else {
      assert StripBlock(t) == " " + StripBlock(s);
      if c == '*' {
        assert "*" + rest == s;
        assert (done + " ")[..|done|] == done;
      } else {
        assert StripBlock(s) == " " + StripBlock(rest);
      }
    }
  }

  lemma StepKeepsVerdict(state: Scanner, c: char, rest: string)
    ensures FinishUnclosed(state, [c] + rest) == FinishUnclosed(Step(state, c), rest)
  {
    var s := [c] + rest;
    assert s[1..] == rest;
    match state
    case Normal =>
      if c == '/' {
        assert "/" + rest == s;
      }
    case Slash =>
      var t := "/" + s;
      assert t[1..] == s && t[2..] == rest;
      if c != '*' && c != '/' {
        assert Unclosed(t) == Unclosed(s);
      }
    case Block =>
      if c == '*' {
        assert "*" + rest == s;
      }
    case Star =>
      var t := "*" + s;
      assert t[1..] == s && t[2..] == rest;
      if c != '/' {
        assert UnclosedBlock(t) == UnclosedBlock(s);
      }
      if c == '*' {
        assert "*" + rest == s;
      }
    case Line =>
      if c == '\n' {
        assert Unclosed(s) == Unclosed(rest);
      }
  }

  /** The loop invariant: from here the machine still produces what `Strip` and `Unclosed` say about `s`. */
  ghost predicate OnTrack(s: string, state: Scanner, done: string, rest: string) {
    && (state == Slash ==> done != [] && done[|done| - 1] == '/')
    && (state == Star ==> done != [] && done[|done| - 1] == ' ')
    && Finish(state, done, rest) == Strip(s)
    && FinishUnclosed(state, rest) == Unclosed(s)
  }

  lemma StaysOnTrack(s: string, state: Scanner, done: string, rest: string)
    requires rest != [] && OnTrack(s, state, done, rest)
    ensures OnTrack(s, Step(state, rest[0]), Written(state, done, rest[0]), rest[1..])
    ensures |Written(state, done, rest[0])| == |done| + 1
  {
    assert rest == [rest[0]] + rest[1..];
    StepFinishes(state, done, rest[0], rest[1..]);
    StepKeepsVerdict(state, rest[0], rest[1..]);
  }

  lemma EndsOnTrack(s: string, state: Scanner, done: string)
    requires OnTrack(s, state, done, [])
    ensures done == Strip(s)
    ensures Unclosed(s) <==> state == Block
  {
    match state
    case Normal =>
    case Slash =>
      assert Strip("/") == "/";
    case Block =>
    case Star =>
      assert StripBlock("*") == " ";
    case Line =>
  }

  /** One turn of the loop: the new state, and at most two characters blanked. */
  method Advance(buffer: array<char>, p: nat, before: Scanner, ghost done: string, c: char, ghost rest: string)
      returns (state: Scanner)
    requires p == |done| && rest != [] && c == rest[0] && buffer[..] == done + rest
    requires before in {Slash, Star} ==> done != []
    modifies buffer
    ensures state == Step(before, c)
    ensures buffer[..] == Written(before, done, c) + rest[1..]
  {
    state := before;
    match before {
      case Normal =>
        if c == '/' { state := Slash; }
      case Slash =>
        if c == '*' {
          buffer[p - 1] := ' ';
          buffer[p] := ' ';
          state := Block;
        } else if c == '/' {
          buffer[p - 1] := ' ';
          buffer[p] := ' ';
          state := Line;
        } else {
          state := Normal;
        }
      case Block =>
        if c == '*' { state := Star; }
        buffer[p] := ' ';
      case Star =>
        if c == '/' { state := Normal; }
        else if c != '*' { state := Block; }
        buffer[p] := ' ';
      case Line =>
        if c == '\n' { state := Normal; }
        else { buffer[p] := ' '; }
    }
  }

  /** Blanks the comments of the C string `s` in `buffer`; the answer says whether a block comment was left open. */
  method Uncomment(buffer: array<char>, ghost s: string) returns (failed: bool)
    requires ReadsAs(buffer[..], 0, s)
    modifies buffer
    ensures buffer[..] == Strip(s) + old(buffer[..])[|s|..]
    ensures failed <==> Unclosed(s)
  {
    var state := Normal;
    var p := 0;
    ghost var done, rest, t := "", buffer[..], s;
    ghost var tail := rest[|s|..];
    while buffer[p] != NUL
      invariant p == |done| && buffer[..] == done + rest
      invariant ReadsAs(rest, 0, t) && |done| + |t| == |s|
      invariant rest[|t|..] == tail
      invariant OnTrack(s, state, done, t)
      decreases |t|
    {
      var c := buffer[p];
      ReadHead(rest, t);
      StaysOnTrack(s, state, done, t);
      ghost var before := state;
      state := Advance(buffer, p, state, done, c, rest);
      done, rest, t := Written(before, done, c), rest[1..], t[1..];
      p := p + 1;
    }
    ReadHead(rest, t);
    EndsOnTrack(s, state, done);
    return state == Block;
  }

  // ---- What stripping does, position by position ----

  // Does position i of s belong to a comment? (The newline that ends a line comment does not.)
  ghost predicate InComment(s: string, i: int)
    decreases |s|, 2
  {
    if s == [] || i < 0 then false
    else if OpensLine(s) then i < 2 || InLine(s[2..], i - 2)
    else if OpensBlock(s) then i < 2 || InBlock(s[2..], i - 2)
    else InComment(s[1..], i - 1)
  }

  ghost predicate InLine(s: string, i: int)
    decreases |s|, 3
  {
    if s == [] || s[0] == '\n' then InComment(s, i) else i == 0 || InLine(s[1..], i - 1)
  }

  ghost predicate InBlock(s: string, i: int)
    decreases |s|, 1
  {
    if s == [] || i < 0 then false
    else if ClosesBlock(s) then i < 2 || InComment(s[2..], i - 2)
    else i == 0 || InBlock(s[1..], i - 1)
  }

  ghost predicate Blanked(s: string, r: string, i: int, hidden: bool)
    requires 0 <= i < |s| == |r|
  {
    r[i] == if hidden then ' ' else s[i]
  }

  lemma {:induction false} StripAt(s: string, i: int)
    requires 0 <= i < |s|
    ensures Blanked(s, Strip(s), i, InComment(s, i))
    decreases |s|, 2
  {
    if OpensLine(s) {
      if i >= 2 { StripLineAt(s[2..], i - 2); }
    } else if OpensBlock(s) {
      if i >= 2 { StripBlockAt(s[2..], i - 2); }
    } else if i > 0 {
      StripAt(s[1..], i - 1);
    }
  }

  lemma {:induction false} StripLineAt(s: string, i: int)
    requires 0 <= i < |s|
    ensures Blanked(s, StripLine(s), i, InLine(s, i))
    decreases |s|, 3
  {
    if s[0] == '\n' {
      StripAt(s, i);
    } else if i > 0 {
      StripLineAt(s[1..], i - 1);
    }
  }

  lemma {:induction false} StripBlockAt(s: string, i: int)
    requires 0 <= i < |s|
    ensures Blanked(s, StripBlock(s), i, InBlock(s, i))
    decreases |s|, 1
  {
    if ClosesBlock(s) {
      if i >= 2 { StripAt(s[2..], i - 2); }
    } else if i > 0 {
      StripBlockAt(s[1..], i - 1);
    }
  }

  /** Stripping introduces no NUL. */
  lemma StripIsNulFree(s: string)
    requires NUL !in s
    ensures NUL !in Strip(s)
  {
    forall i | 0 <= i < |s|
      ensures Strip(s)[i] != NUL
    {
      StripAt(s, i);
    }
  }

  // No comment opener is left.
  ghost predicate CommentFree(s: string) {
    forall i | 0 <= i < |s| - 1 :: s[i] == '/' ==> s[i + 1] != '/' && s[i + 1] != '*'
  }

  lemma {:induction false} StripIsCommentFree(s: string)
    ensures CommentFree(Strip(s))
    ensures s != [] && s[0] != '/' ==> Strip(s)[0] == s[0]
    ensures s != [] && s[0] == '/' ==> Strip(s)[0] in "/ "
    decreases |s|, 2
  {
    if s == [] {
    } else if OpensLine(s) {
      StripLineIsCommentFree(s[2..]);
    } else if OpensBlock(s) {
      StripBlockIsCommentFree(s[2..]);
    } else {
      StripIsCommentFree(s[1..]);
      assert Strip(s) == [s[0]] + Strip(s[1..]);
      assert |s| > 1 ==> s[1..][0] == s[1];
    }
  }

  lemma {:induction false} StripLineIsCommentFree(s: string)
    ensures CommentFree(StripLine(s))
    decreases |s|, 3
  {
    if s == [] || s[0] == '\n' {
      StripIsCommentFree(s);
    } else {
      StripLineIsCommentFree(s[1..]);
    }
  }

  lemma {:induction false} StripBlockIsCommentFree(s: string)
    ensures CommentFree(StripBlock(s))
    decreases |s|, 1
  {
    if s == [] {
    } else if ClosesBlock(s) {
      StripIsCommentFree(s[2..]);
    } else {
      StripBlockIsCommentFree(s[1..]);
    }
  }

  /** Text without a comment opener is left alone and accepted. */
  lemma {:induction false} CommentFreeIsKept(s: string)
    requires CommentFree(s)
    ensures Strip(s) == s && !Unclosed(s)
  {
    if s != [] {
      assert !OpensLine(s) && !OpensBlock(s);
      var t := s[1..];
      assert forall i | 0 <= i < |t| :: t[i] == s[i + 1];
      CommentFreeIsKept(s[1..]);
    }
  }

  /** A second pass succeeds and changes nothing, even after a pass that failed. */
  lemma StripTwice(s: string)
    ensures Strip(Strip(s)) == Strip(s) && !Unclosed(Strip(s))
  {
    StripIsCommentFree(s);
    CommentFreeIsKept(Strip(s));
  }

  // ---- When the stripper complains ----

  // The body of the block comment that the text ends in, if it ends in one.
  ghost function OpenBody(s: string): Option<string>
    decreases |s|, 2
  {
    if s == [] then None
    else if OpensLine(s) then OpenBodyAfterLine(s[2..])
    else if OpensBlock(s) then OpenBodyIn(s[2..], s[2..])
    else OpenBody(s[1..])
  }

  ghost function OpenBodyAfterLine(s: string): Option<string>
    decreases |s|, 3
  {
    if s == [] || s[0] == '\n' then OpenBody(s) else OpenBodyAfterLine(s[1..])
  }

  // Looks for the close of a comment with this body in what is left of it.
  ghost function OpenBodyIn(body: string, s: string): Option<string>
    decreases |s|, 1
  {
    if s == [] then Some(body)
    else if ClosesBlock(s) then OpenBody(s[2..])
    else OpenBodyIn(body, s[1..])
  }

  predicate EndsWithStar(s: string) { s != [] && s[|s| - 1] == '*' }

  // The stripper reports exactly the texts that end in a block comment whose body does not end on '*'.
  lemma {:induction false} ReportedExactlyWhenOpen(s: string)
    ensures Unclosed(s) <==> OpenBody(s).Some? && !EndsWithStar(OpenBody(s).value)
    decreases |s|, 2
  {
    if s == [] {
    } else if OpensLine(s) {
      ReportedAfterLine(s[2..]);
    } else if OpensBlock(s) {
      ReportedInBlock(s[2..], s[2..]);
    } else {
      ReportedExactlyWhenOpen(s[1..]);
    }
  }

  lemma {:induction false} ReportedAfterLine(s: string)
    ensures UnclosedAfterLine(s) <==> OpenBodyAfterLine(s).Some? && !EndsWithStar(OpenBodyAfterLine(s).value)
    decreases |s|, 3
  {
    if s == [] || s[0] == '\n' {
      ReportedExactlyWhenOpen(s);
    } else {
      ReportedAfterLine(s[1..]);
    }
  }

  lemma {:induction false} ReportedInBlock(body: string, s: string)
    requires |s| <= |body| && body[|body| - |s|..] == s
    requires s == [] ==> !EndsWithStar(body)
    ensures UnclosedBlock(s) <==> OpenBodyIn(body, s).Some? && !EndsWithStar(OpenBodyIn(body, s).value)
    decreases |s|, 1
  {
    if s == [] {
    } else if ClosesBlock(s) {
      ReportedExactlyWhenOpen(s[2..]);
    } else if s == "*" {
      assert OpenBodyIn(body, s[1..]) == Some(body);
      assert body[|body| - 1] == s[0];
    } else {
      assert |s| == 1 ==> body[|body| - 1] == s[0];
      ReportedInBlock(body, s[1..]);
    }
  }

  // A comment left open on a star goes unreported.
  lemma OpenOnStarIsAccepted()
    ensures OpenBody("/* *") == Some(" *") && !Unclosed("/* *")
  {
    var s := "/* *";
    assert s[2..] == " *" && " *"[1..] == "*" && "*"[1..] == "";
    assert OpenBodyIn(" *", "*") == Some(" *");
    assert OpenBodyIn(" *", " *") == Some(" *");
    assert !UnclosedBlock("*");
  }
}
