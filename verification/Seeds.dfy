/** Once the seed is fixed, `+seed` arguments might as well not be there. */
module Seeds {
  import opened Text
  import opened World
  import opened Comments
  import opened Random
  import opened Choice
  import opened Eval
  import opened Knobs
  import opened Loader

  /** `+seed` and `+seed=...`, and no other way of writing a knob. */
  predicate IsSeedToken(token: string) {
    && IsKnob(token)
    && !Rejected(token[1..]) && Recorded(token[1..]) == []
    && HasToken(token[1..], "=\n") && PatternOf(token[1..]) == SEED
  }

  /** As text: `+seed` alone, or with an '=' behind it. */
  lemma IsSeedTokenIff(token: string)
    requires '\n' !in token
    ensures IsSeedToken(token) <==> token == "+seed" || HasPrefix(token, "+seed=")
  {
    hide HasToken, PatternOf, Recorded, Rejected;
    if IsSeedToken(token) {
      SeedTokenShape(token);
    }
    if token == "+seed" {
      ShapeIsSeed([]);
    }
    if HasPrefix(token, "+seed=") {
      var value := token[6..];
      assert token == token[..6] + value;
      ShapeIsSeed(value);
      assert token == "+seed=" + value;
    }
  }

  lemma ShapeIsSeed(value: string)
    ensures IsSeedToken("+seed") && IsSeedToken("+seed=" + value)
  {
    hide Tokens, FirstToken, HasToken, AfterToken;
    TokensOne("seed", "=\n");
    TokensCons("seed", '=', value, "=\n");
    assert "+seed"[1..] == "seed";
    var s := "seed" + ['='] + value;
    assert ("+seed=" + value)[1..] == s;
    NotRecorded("seed");
    NotRecorded(s);
  }

  lemma NotRecorded(s: string)
    requires s != [] && s[0] == 's'
    ensures Recorded(s) == [] && !Rejected(s)
  {
    if |s| >= 7 { assert s[..7][0] == 's' && "define+"[0] == 'd'; }
    if |s| >= 9 { assert s[..9][0] == 's' && "undefine+"[0] == 'u'; }
  }

  lemma SeedTokenShape(token: string)
    requires IsSeedToken(token) && '\n' !in token
    ensures token == "+seed" || HasPrefix(token, "+seed=")
  {
    var s := token[1..];
    assert forall c | c in s :: c in token;
    assert s[0] != '=' && s[0] in s;
    OneSeparator(s[0]);
    assert SkipLen(s, "=\n") == 0;
    var e := TokenEnd(s, "=\n");
    assert s[..e] == "seed";
    assert token == "+" + s;
    if e < |s| {
      SeparatorBehind(s);
      assert s[e] in s;
      OneSeparator(s[e]);
      assert token[..6] == "+" + s[..5] && s[..5] == s[..4] + [s[4]];
    } else {
      assert s == s[..e];
    }
  }

  lemma SeparatorBehind(s: string)
    requires SkipLen(s, "=\n") == 0 && TokenEnd(s, "=\n") < |s|
    ensures s[TokenEnd(s, "=\n")] in "=\n"
  {
    assert s[0..] == s;
  }

  lemma OneSeparator(c: char)
    ensures c in "=\n" <==> c == '=' || c == '\n'
  {
    var two := "=\n";
    assert two[0] == '=' && two[1] == '\n';
  }

  /** The arguments without the seed tokens at START. */
  function DropSeeds(mode: Mode, args: seq<string>): seq<string>
    decreases |args|
  {
    if args == [] then []
    else if mode == Start && IsSeedToken(args[0]) then DropSeeds(Start, args[1..])
    else [args[0]] + DropSeeds(NextMode(mode, args[0]), args[1..])
  }

  /** `w'` is `w` with the seed tokens deleted from every file. */
  ghost predicate SeedsErased(w: World, w': World) {
    && w' == w.(files := w'.files)
    && w'.files.Keys == w.files.Keys
    && forall p | p in w.files ::
         && (Unclosed(UpToNul(w'.files[p])) <==> Unclosed(UpToNul(w.files[p])))
         && (!Unclosed(UpToNul(w.files[p])) ==> FileArgs(w', p) == DropSeeds(Start, FileArgs(w, p)))
  }

  lemma {:induction false} SameFnmatch(w: World, w': World, p: string, name: string)
    requires w' == w.(files := w'.files)
    ensures Fnmatch(w, p, name) == Fnmatch(w', p, name)
    decreases |p| + |name|
  {
    if p != [] {
      if p[0] == '*' {
        SameFnmatch(w, w', p[1..], name);
        if name != [] { SameFnmatch(w, w', p, name[1..]); }
      } else if name != [] {
        SameFnmatch(w, w', p[1..], name[1..]);
        if |p| > 1 { SameFnmatch(w, w', p[2..], name[1..]); }
      }
    }
  }

  lemma SameLookup(w: World, w': World, db: Db, file: string)
    requires w' == w.(files := w'.files) && w'.files.Keys == w.files.Keys
    ensures FindFile(w, db, file) == FindFile(w', db, file)
  {
    SameFirstHit(w, w', db, file, 0);
  }

  lemma {:induction false} SameFirstHit(w: World, w': World, db: Db, file: string, from: nat)
    requires w' == w.(files := w'.files) && w'.files.Keys == w.files.Keys && from <= |db|
    ensures FirstHit(w, db, file, from) == FirstHit(w', db, file, from)
    decreases |db| - from
  {
    if from < |db| {
      SameFnmatch(w, w', db[from].pattern, SEARCH_PATH);
      SameFirstHit(w, w', db, file, from + 1);
    }
  }

  /** With the seed fixed, a plain token does the same in both worlds, and a seed token does nothing. */
  lemma SamePlain(w: World, w': World, st: State, arg: string)
    requires w' == w.(files := w'.files) && st.dice.seed.Some?
    ensures LoadPlain(w, st, arg) == LoadPlain(w', st, arg)
    ensures IsSeedToken(arg) ==> LoadPlain(w, st, arg) == Done(st, true)
  {
    hide HasToken, PatternOf, ValueOf, SetValue;
    if IsSeedToken(arg) {
      assert st.db + [] == st.db;
    }
  }

  lemma SeedTokenKeepsMode(mode: Mode, arg: string)
    requires mode == Start && IsSeedToken(arg)
    ensures NextMode(mode, arg) == Start && Included(mode, arg) == None
  {
    if |arg| >= 3 {
      assert arg[..3][0] == '+' && "-f "[0] == '-';
    }
  }

  lemma SameOne(w: World, w': World, st: State, mode: Mode, arg: string, depth: nat)
    requires SeedsErased(w, w') && st.dice.seed.Some?
    requires LoadOne(w, st, mode, arg, depth).Done?
    ensures LoadOne(w', st, mode, arg, depth) == LoadOne(w, st, mode, arg, depth)
    ensures LoadOne(w, st, mode, arg, depth).state.dice.seed.Some?
    decreases depth, 0, 1
  {
    hide LoadPlain, LoadDashF, SeedsErased;
    if Included(mode, arg).Some? {
      SameDashF(w, w', st, Included(mode, arg).value, depth);
    } else {
      SameWorldBut(w, w');
      SamePlain(w, w', st, arg);
      if mode == Start && NextMode(mode, arg) == Start {
        PlainKeepsSeed(w, st, arg);
      }
    }
  }

  lemma SameWorldBut(w: World, w': World)
    requires SeedsErased(w, w')
    ensures w' == w.(files := w'.files) && w'.files.Keys == w.files.Keys
  {
  }

  lemma PlainKeepsSeed(w: World, st: State, arg: string)
    requires st.dice.seed.Some? && LoadPlain(w, st, arg).Done?
    ensures LoadPlain(w, st, arg).state.dice == st.dice
  {
    hide HasToken, PatternOf, ValueOf, SetValue, Recorded;
  }

  lemma SameDraw(w: World, w': World, dice: Dice)
    requires w'.random == w.random
    ensures Draw(w, dice) == Draw(w', dice)
  {
  }

  lemma SameDashF(w: World, w': World, st: State, files: string, depth: nat)
    requires SeedsErased(w, w') && st.dice.seed.Some?
    requires LoadDashF(w, st, files, depth).Done?
    ensures LoadDashF(w', st, files, depth) == LoadDashF(w, st, files, depth)
    ensures LoadDashF(w, st, files, depth).state.dice.seed.Some?
    decreases depth, 0, 0
  {
    hide ChoiceDefined, Choose, FindFile, FileArgs, LoadDashF, LoadFile, UpToNul, Unclosed, Draw, DropSeeds;
    hide SeedsErased, Load;
    SameWorldBut(w, w');
    LoadDashFIs(w, st, files, depth);
    LoadDashFIs(w', st, files, depth);
    var choice := Choose(files, Draw(w, st.dice));
    var path, next := FindFile(w, st.db, choice), st.(dice := AfterChoice(st.dice, files));
    SameDraw(w, w', st.dice);
    SameLookup(w, w', st.db, choice);
    LoadFileIs(w, next, path, depth);
    LoadFileIs(w', next, path, depth);
    if path in w.files { ErasedFile(w, w', path); }
    if path in w.files && !Unclosed(UpToNul(w.files[path])) {
      DropSeedsShortens(Start, FileArgs(w, path));
      SeedsDoNotMatter(w, w', next, Start, FileArgs(w, path), depth - 1);
    }
  }

  lemma ErasedFile(w: World, w': World, path: string)
    requires SeedsErased(w, w') && path in w.files
    ensures Unclosed(UpToNul(w'.files[path])) <==> Unclosed(UpToNul(w.files[path]))
    ensures !Unclosed(UpToNul(w.files[path])) ==> FileArgs(w', path) == DropSeeds(Start, FileArgs(w, path))
  {
  }

  lemma {:induction false} DropSeedsShortens(mode: Mode, args: seq<string>)
    ensures |DropSeeds(mode, args)| <= |args|
    decreases |args|
  {
    hide IsSeedToken;
    if args != [] {
      DropSeedsShortens(if mode == Start && IsSeedToken(args[0]) then Start else NextMode(mode, args[0]), args[1..]);
    }
  }

  /** Deleting every seed token from the arguments and from all files changes neither the database, nor the
  position of the random source, nor the return code. */
  lemma {:induction false} SeedsDoNotMatter(w: World, w': World, st: State, mode: Mode, args: seq<string>, depth: nat)
    requires SeedsErased(w, w') && st.dice.seed.Some?
    requires Load(w, st, mode, args, depth).Done?
    ensures Load(w', st, mode, DropSeeds(mode, args), depth) == Load(w, st, mode, args, depth)
    ensures Load(w, st, mode, args, depth).state.dice.seed.Some?
    decreases depth, |args|, 2
  {
    hide LoadPlain, IsSeedToken, SeedsErased, Included;
    if args != [] {
      SameOne(w, w', st, mode, args[0], depth);
      var run := LoadOne(w, st, mode, args[0], depth);
      if mode == Start && IsSeedToken(args[0]) {
        SeedTokenKeepsMode(mode, args[0]);
        SameWorldBut(w, w');
        SamePlain(w, w', st, args[0]);
        SeedsDoNotMatter(w, w', st, Start, args[1..], depth);
      } else {
        var dropped := DropSeeds(mode, args);
        assert dropped[0] == args[0] && dropped[1..] == DropSeeds(NextMode(mode, args[0]), args[1..]);
        if run.ok {
          SeedsDoNotMatter(w, w', run.state, NextMode(mode, args[0]), args[1..], depth);
        }
      }
    }
  }

  // ---- The seed is final ----

  /** A generator that goes on from another one: same seed, at least as many calls answered. */
  predicate GoesOn(before: Dice, after: Dice) {
    after.seed == before.seed && before.calls <= after.calls
  }

  lemma {:induction false} LoadKeepsSeed(w: World, st: State, mode: Mode, args: seq<string>, depth: nat)
    requires st.dice.seed.Some? && Load(w, st, mode, args, depth).Done?
    ensures GoesOn(st.dice, Load(w, st, mode, args, depth).state.dice)
    decreases depth, |args|, 2
  {
    hide LoadPlain, Included, LoadDashF;
    if args != [] {
      if Included(mode, args[0]).Some? {
        LoadDashFKeepsSeed(w, st, Included(mode, args[0]).value, depth);
      } else if mode == Start && NextMode(mode, args[0]) == Start {
        PlainKeepsSeed(w, st, args[0]);
      }
      var run := LoadOne(w, st, mode, args[0], depth);
      if run.ok {
        LoadKeepsSeed(w, run.state, NextMode(mode, args[0]), args[1..], depth);
      }
    }
  }

  lemma LoadDashFKeepsSeed(w: World, st: State, files: string, depth: nat)
    requires st.dice.seed.Some? && LoadDashF(w, st, files, depth).Done?
    ensures GoesOn(st.dice, LoadDashF(w, st, files, depth).state.dice)
    decreases depth, 0, 1
  {
    hide ChoiceDefined, Draw, Choose, FindFile, LoadDashF, LoadFile;
    LoadDashFIs(w, st, files, depth);
    var path := FindFile(w, st.db, Choose(files, Draw(w, st.dice)));
    LoadFileKeepsSeed(w, st.(dice := AfterChoice(st.dice, files)), path, depth);
  }

  lemma LoadFileKeepsSeed(w: World, st: State, path: string, depth: nat)
    requires st.dice.seed.Some? && LoadFile(w, st, path, depth).Done?
    ensures GoesOn(st.dice, LoadFile(w, st, path, depth).state.dice)
    decreases depth, 0, 0
  {
    hide LoadFile, Unclosed, UpToNul, FileArgs, Load;
    LoadFileIs(w, st, path, depth);
    if path in w.files && !Unclosed(UpToNul(w.files[path])) {
      LoadKeepsSeed(w, st, Start, FileArgs(w, path), depth - 1);
    }
  }

  // ---- The deletion can be carried out ----

  /** A file rewritten without its seed tokens, one token a line. */
  function EraseFile(delimiters: string, text: string): string {
    if Unclosed(UpToNul(text)) then text
    else Join(DropSeeds(Start, Tokens(Strip(UpToNul(text)), delimiters)), '\n')
  }

  function EraseSeeds(w: World): World {
    w.(files := map p | p in w.files :: EraseFile(w.delimiters, w.files[p]))
  }

  lemma {:induction false} DropSeedsKeeps(mode: Mode, args: seq<string>)
    ensures forall t | t in DropSeeds(mode, args) :: t in args
    decreases |args|
  {
    hide IsSeedToken;
    if args != [] {
      DropSeedsKeeps(if mode == Start && IsSeedToken(args[0]) then Start else NextMode(mode, args[0]), args[1..]);
    }
  }

  lemma {:induction false} TokensAreCommentFree(s: string, d: string)
    requires CommentFree(s)
    ensures forall t | t in Tokens(s, d) :: CommentFree(t)
    decreases |s|
  {
    if HasToken(s, d) {
      SliceIsCommentFree(s, SkipLen(s, d), TokenEnd(s, d));
      if TokenEnd(s, d) < |s| {
        SliceIsCommentFree(s, TokenEnd(s, d) + 1, |s|);
        assert s[TokenEnd(s, d) + 1..|s|] == AfterToken(s, d);
      }
      TokensAreCommentFree(AfterToken(s, d), d);
    }
  }

  lemma SliceIsCommentFree(s: string, a: nat, b: nat)
    requires CommentFree(s) && a <= b <= |s|
    ensures CommentFree(s[a..b])
  {
    forall i | 0 <= i < b - a - 1
      ensures s[a..b][i] == '/' ==> s[a..b][i + 1] != '/' && s[a..b][i + 1] != '*'
    {
      assert s[a..b][i] == s[a + i] && s[a..b][i + 1] == s[a + i + 1];
    }
  }

  lemma {:induction false} JoinIsCommentFree(parts: seq<string>)
    requires forall t | t in parts :: CommentFree(t)
    ensures CommentFree(Join(parts, '\n'))
  {
    if |parts| == 1 {
      assert parts[0] in parts;
    } else if |parts| > 1 {
      JoinIsCommentFree(parts[1..]);
      assert parts[0] in parts;
      LinesAreCommentFree(parts[0], Join(parts[1..], '\n'));
    }
  }

  lemma LinesAreCommentFree(a: string, b: string)
    requires CommentFree(a) && CommentFree(b)
    ensures CommentFree(a + ['\n'] + b)
  {
    var s := a + ['\n'] + b;
    forall i | 0 <= i < |s| - 1
      ensures s[i] == '/' ==> s[i + 1] != '/' && s[i + 1] != '*'
    {
      if i + 1 < |a| {
        assert s[i] == a[i] && s[i + 1] == a[i + 1];
      } else if i > |a| {
        assert s[i] == b[i - |a| - 1] && s[i + 1] == b[i - |a|];
      } else {
        assert i == |a| - 1 ==> s[i + 1] == '\n';
        assert i == |a| ==> s[i] == '\n';
      }
    }
  }

  lemma {:induction false} JoinIsNulFree(parts: seq<string>)
    requires forall t | t in parts :: NUL !in t
    ensures NUL !in Join(parts, '\n')
  {
    if |parts| == 1 {
      assert parts[0] in parts;
    } else if |parts| > 1 {
      JoinIsNulFree(parts[1..]);
      assert parts[0] in parts;
    }
  }

  lemma UpToNulKeeps(s: string)
    requires NUL !in s
    ensures UpToNul(s) == s
  {
    RunUnique(s, [NUL], |s|);
  }

  lemma EraseFileErases(delimiters: string, text: string)
    requires '\n' in delimiters && !Unclosed(UpToNul(text))
    ensures var erased := UpToNul(EraseFile(delimiters, text));
            && !Unclosed(erased)
            && Tokens(Strip(erased), delimiters) == DropSeeds(Start, Tokens(Strip(UpToNul(text)), delimiters))
  {
    hide IsSeedToken, Strip, Unclosed;
    var stripped := Strip(UpToNul(text));
    var tokens := Tokens(stripped, delimiters);
    var kept := DropSeeds(Start, tokens);
    DropSeedsKeeps(Start, tokens);
    TokensAreTokens(stripped, delimiters);
    StripIsNulFree(UpToNul(text));
    TokensAreParts(stripped, delimiters, NUL);
    StripIsCommentFree(UpToNul(text));
    TokensAreCommentFree(stripped, delimiters);
    JoinIsNulFree(kept);
    JoinIsCommentFree(kept);
    var joined := Join(kept, '\n');
    UpToNulKeeps(joined);
    CommentFreeIsKept(joined);
    assert forall i | 0 <= i < |kept| :: kept[i] in kept;
    TokensOfJoin(kept, '\n', delimiters);
  }

  /** For both delimiter sets of the engine there is such a world without seed tokens. */
  lemma EraseSeedsErases(w: World)
    requires '\n' in w.delimiters
    ensures SeedsErased(w, EraseSeeds(w))
  {
    hide EraseFile, Unclosed, Strip, DropSeeds, UpToNul, Tokens;
    forall p | p in w.files
      ensures Unclosed(UpToNul(EraseFile(w.delimiters, w.files[p]))) <==> Unclosed(UpToNul(w.files[p]))
      ensures !Unclosed(UpToNul(w.files[p])) ==> FileArgs(EraseSeeds(w), p) == DropSeeds(Start, FileArgs(w, p))
    {
      if Unclosed(UpToNul(w.files[p])) {
        UnclosedIsKept(w.delimiters, w.files[p]);
      } else {
        EraseFileErases(w.delimiters, w.files[p]);
      }
    }
  }

  lemma UnclosedIsKept(delimiters: string, text: string)
    requires Unclosed(UpToNul(text))
    ensures EraseFile(delimiters, text) == text
  {
  }

  /** Both at once: the arguments with seed tokens, over the files as they are, load like the arguments without
  them over the files without them. */
  lemma SeedArgumentsAreIgnored(w: World, st: State, args: seq<string>, depth: nat)
    requires '\n' in w.delimiters && st.dice.seed.Some?
    requires Load(w, st, Start, args, depth).Done?
    ensures Load(EraseSeeds(w), st, Start, DropSeeds(Start, args), depth) == Load(w, st, Start, args, depth)
  {
    EraseSeedsErases(w);
    SeedsDoNotMatter(w, EraseSeeds(w), st, Start, args, depth);
  }
}
