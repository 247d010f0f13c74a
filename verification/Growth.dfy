/** Once the seed is fixed, loading only appends: what that means for the search, where the last match wins. */
module Growth {
  import opened World
  import opened Comments
  import opened Random
  import opened Knobs
  import opened Loader
  import opened Inclusion
  import opened Seeds
  import opened Paths

  /** Knobs have been added behind those there were, none of them named `seed`; the seed is as it was. */
  ghost predicate Grown(before: State, after: State) {
    && before.db <= after.db && after.dice.seed == before.dice.seed
    && forall i | |before.db| <= i < |after.db| :: after.db[i].pattern != SEED
  }

  lemma GrownTwice(a: State, b: State, c: State)
    requires Grown(a, b) && Grown(b, c)
    ensures Grown(a, c)
  {
  }

  lemma GrownBy(before: State, added: Db, dice: Dice)
    requires dice.seed == before.dice.seed && forall e | e in added :: e.pattern != SEED
    ensures Grown(before, State(before.db + added, dice))
  {
    var db := before.db + added;
    assert forall i | |before.db| <= i < |db| :: db[i] == added[i - |before.db|];
  }

  lemma TokenAddsNoSeed(w: World, token: string)
    ensures forall e | e in TokenKnobs(w, token) :: e.pattern != SEED
  {
  }

  lemma {:induction false} KnobsOfHasNoSeed(w: World, mode: Mode, tokens: seq<string>)
    ensures forall e | e in KnobsOf(w, mode, tokens) :: e.pattern != SEED
    decreases |tokens|
  {
    hide TokenKnobs;
    if tokens != [] {
      TokenAddsNoSeed(w, tokens[0]);
      KnobsOfHasNoSeed(w, NextMode(mode, tokens[0]), tokens[1..]);
    }
  }

  lemma LoadGrows(w: World, st: State, args: seq<string>, depth: nat)
    requires st.dice.seed.Some? && Load(w, st, Start, args, depth).Done?
    ensures Grown(st, Load(w, st, Start, args, depth).state)
  {
    hide Load, SpliceAll, KnobsOf;
    LoadIsSplicing(w, st, args, depth);
    var s := SpliceAll(w, st.db, [], st.dice, Start, args, depth);
    LoadKeepsSeed(w, st, Start, args, depth);
    KnobsOfHasNoSeed(w, Start, s.flat);
    GrownBy(st, KnobsOf(w, Start, s.flat), s.dice);
  }

  /** With the seed fixed, loading a file adds knobs behind the others, none of them named `seed`. */
  lemma LoadFileGrows(w: World, st: State, path: string, depth: nat)
    requires st.dice.seed.Some? && LoadFile(w, st, path, depth).Done?
    ensures Grown(st, LoadFile(w, st, path, depth).state)
  {
    hide Load, LoadFile, FileArgs, Unclosed, UpToNul;
    LoadFileIs(w, st, path, depth);
    if path in w.files && !Unclosed(UpToNul(w.files[path])) {
      LoadGrows(w, st, FileArgs(w, path), depth - 1);
    }
  }

  lemma AddStringGrows(w: World, st: State, s: string)
    requires st.dice.seed.Some? && AddString(w, st, s).Done?
    ensures Grown(st, AddString(w, st, s).state)
  {
    hide AddString, TokenKnobs;
    var token := "+" + s;
    assert token[1..] == s;
    if s == [] {
      EmptyIsRejected(w, st);
    } else {
      PlainAdds(w, st, token);
      TokenAddsNoSeed(w, token);
      GrownBy(st, TokenKnobs(w, token), st.dice);
    }
  }

  lemma EmptyIsRejected(w: World, st: State)
    ensures AddString(w, st, []) == Done(st, false)
  {
  }

  // ---- The nearest directory wins ----

  lemma {:induction false} LoadPathsGrows(w: World, st: State, paths: seq<string>, depth: nat)
    requires st.dice.seed.Some? && LoadPaths(w, st, paths, depth).Done?
    ensures Grown(st, LoadPaths(w, st, paths, depth).state)
    decreases |paths|
  {
    hide LoadFile, Grown;
    if paths == [] {
      GrownNot(st);
    } else {
      LoadFileGrows(w, st, paths[0], depth);
      var run := LoadFile(w, st, paths[0], depth);
      GrownKeepsSeed(st, run.state);
      if run.ok {
        LoadPathsGrows(w, run.state, paths[1..], depth);
        GrownTwice(st, run.state, LoadPaths(w, st, paths, depth).state);
      }
    }
  }

  lemma GrownNot(st: State)
    ensures Grown(st, st)
  {
  }

  lemma GrownKeepsSeed(before: State, after: State)
    requires Grown(before, after)
    ensures after.dice.seed == before.dice.seed
  {
  }

  lemma {:induction false} LoadDirsGrows(w: World, st: State, dirs: seq<string>, depth: nat)
    requires st.dice.seed.Some? && LoadDirs(w, st, dirs, depth).Done?
    ensures Grown(st, LoadDirs(w, st, dirs, depth).state)
    decreases |dirs|
  {
    hide LoadPaths, Grown;
    if dirs == [] {
      GrownNot(st);
    } else {
      var run := LoadPaths(w, st, w.knobsrc(dirs[0]), depth);
      LoadPathsGrows(w, st, w.knobsrc(dirs[0]), depth);
      GrownKeepsSeed(st, run.state);
      if run.ok {
        LoadDirsGrows(w, run.state, dirs[1..], depth);
        GrownTwice(st, run.state, LoadDirs(w, st, dirs, depth).state);
      }
    }
  }

  /** Loading one more directory is loading the others and then, if that succeeded, its files. */
  lemma {:induction false} LoadDirsSnoc(w: World, st: State, dirs: seq<string>, dir: string, depth: nat)
    ensures LoadDirs(w, st, dirs + [dir], depth) ==
            match LoadDirs(w, st, dirs, depth)
            case Done(next, true) => LoadPaths(w, next, w.knobsrc(dir), depth)
            case failed => failed
    decreases |dirs|
  {
    hide LoadPaths;
    if dirs == [] {
      assert (dirs + [dir])[1..] == [];
    } else {
      assert (dirs + [dir])[0] == dirs[0] && (dirs + [dir])[1..] == dirs[1..] + [dir];
      var run := LoadPaths(w, st, w.knobsrc(dirs[0]), depth);
      if run.Done? && run.ok {
        LoadDirsSnoc(w, run.state, dirs[1..], dir, depth);
      }
    }
  }

  /** What is appended takes over exactly the names that it matches. */
  lemma LastMatchOfLonger(w: World, db: Db, db': Db, name: string)
    requires db <= db'
    ensures LastMatch(w, db', name) >= |db| <==> exists i | |db| <= i < |db'| :: Matches(w, db'[i].pattern, name)
    ensures LastMatch(w, db', name) < |db| ==> LastMatch(w, db', name) == LastMatch(w, db, name)
  {
    hide Matches;
    var k := LastMatch(w, db', name);
    if k < |db| {
      LastMatchUnique(w, db, name, k);
    }
  }

  /** The nearest directory wins: a knob from the directory loaded last, which is the working directory itself,
  answers every name that it matches, and all other names are answered as the directories above decided. */
  lemma NearestDirectoryWins(w: World, st: State, dirs: seq<string>, dir: string, depth: nat)
    requires st.dice.seed.Some?
    requires LoadDirs(w, st, dirs, depth).Done? && LoadDirs(w, st, dirs, depth).ok
    requires LoadDirs(w, st, dirs + [dir], depth).Done?
    ensures var above, all := LoadDirs(w, st, dirs, depth).state.db, LoadDirs(w, st, dirs + [dir], depth).state.db;
            above <= all && forall name ::
              && (LastMatch(w, all, name) >= |above| <==>
                  exists i | |above| <= i < |all| :: Matches(w, all[i].pattern, name))
              && (LastMatch(w, all, name) < |above| ==> LastMatch(w, all, name) == LastMatch(w, above, name))
  {
    hide LoadPaths, LoadDirs, Matches, LastMatch;
    LoadDirsSnoc(w, st, dirs, dir, depth);
    LoadDirsGrows(w, st, dirs, depth);
    var mid := LoadDirs(w, st, dirs, depth).state;
    LoadPathsGrows(w, mid, w.knobsrc(dir), depth);
    var all := LoadDirs(w, st, dirs + [dir], depth).state.db;
    forall name: string
      ensures LastMatch(w, all, name) >= |mid.db| <==>
              exists i | |mid.db| <= i < |all| :: Matches(w, all[i].pattern, name)
      ensures LastMatch(w, all, name) < |mid.db| ==> LastMatch(w, all, name) == LastMatch(w, mid.db, name)
    {
      LastMatchOfLonger(w, mid.db, all, name);
    }
  }
}
