/** Inclusion is in-order splicing, and it ends when the files do not include each other in a circle. */
module Inclusion {
  import opened Text
  import opened World
  import opened Comments
  import opened Random
  import opened Choice
  import opened Eval
  import opened Knobs
  import opened Loader

  // ---- What the tokens of a flat argument list add, once the seed is fixed ----

  /** The knobs one plain token adds; on a rejected token, those added before the rejection. */
  function TokenKnobs(w: World, token: string): Db {
    if token == "+" then []
    else if IsKnob(token) then StringKnobs(w, token[1..])
    else [Entry(FILES, Some(token))]
  }

  function StringKnobs(w: World, s: string): Db {
    if Rejected(s) then []
    else if PatternOf(Body(s)) == SEED then Recorded(s)
    else Add(w, Recorded(s), PatternOf(Body(s)), Some(ValueOf(Body(s))))
  }

  predicate TokenOk(w: World, token: string) {
    IsKnob(token) ==>
      var s := token[1..];
      !Rejected(s) && (PatternOf(Body(s)) == SEED || Acceptable(w, PatternOf(Body(s))))
  }

  /** The knobs of a list without inclusions, in order; the token behind `-pli` is ignored. */
  function KnobsOf(w: World, mode: Mode, tokens: seq<string>): Db
    decreases |tokens|
  {
    if tokens == [] then []
    else HeadKnobs(w, mode, tokens[0]) + KnobsOf(w, NextMode(mode, tokens[0]), tokens[1..])
  }

  function HeadKnobs(w: World, mode: Mode, token: string): Db {
    if mode == Start && token != "-pli" then TokenKnobs(w, token) else []
  }

  /** No token at START asks for an inclusion. */
  predicate Flat(mode: Mode, tokens: seq<string>)
    decreases |tokens|
  {
    tokens != [] ==>
      && mode != DashF && Included(mode, tokens[0]) == None && NextMode(mode, tokens[0]) != DashF
      && Flat(NextMode(mode, tokens[0]), tokens[1..])
  }

  lemma PlainAdds(w: World, st: State, token: string)
    requires st.dice.seed.Some? && LoadPlain(w, st, token).Done?
    ensures LoadPlain(w, st, token) == Done(st.(db := st.db + TokenKnobs(w, token)), TokenOk(w, token))
  {
    if IsKnob(token) {
      var s := token[1..];
      assert st.db + [] == st.db;
      if !Rejected(s) && PatternOf(Body(s)) != SEED {
        var e := Entry(PatternOf(Body(s)), Some(ValueOf(Body(s))));
        assert st.db + Recorded(s) + [e] == st.db + (Recorded(s) + [e]);
      }
    } else {
      assert token == "+" ==> st.db + [] == st.db;
    }
  }

  lemma {:induction false} EndModeConcat(mode: Mode, xs: seq<string>, ys: seq<string>)
    ensures EndMode(mode, xs + ys) == EndMode(EndMode(mode, xs), ys)
    decreases |xs|
  {
    if xs == [] {
      assert xs + ys == ys;
    } else {
      assert (xs + ys)[0] == xs[0] && (xs + ys)[1..] == xs[1..] + ys;
      EndModeConcat(NextMode(mode, xs[0]), xs[1..], ys);
    }
  }

  lemma {:induction false} FlatConcat(mode: Mode, xs: seq<string>, ys: seq<string>)
    ensures Flat(mode, xs + ys) <==> Flat(mode, xs) && Flat(EndMode(mode, xs), ys)
    decreases |xs|
  {
    if xs == [] {
      assert xs + ys == ys;
    } else {
      assert (xs + ys)[0] == xs[0] && (xs + ys)[1..] == xs[1..] + ys;
      FlatConcat(NextMode(mode, xs[0]), xs[1..], ys);
    }
  }

  lemma {:induction false} KnobsOfConcat(w: World, mode: Mode, xs: seq<string>, ys: seq<string>)
    ensures KnobsOf(w, mode, xs + ys) == KnobsOf(w, mode, xs) + KnobsOf(w, EndMode(mode, xs), ys)
    decreases |xs|
  {
    hide HeadKnobs;
    if xs == [] {
      assert xs + ys == ys;
      assert KnobsOf(w, mode, xs) == [];
    } else {
      var next, rest := NextMode(mode, xs[0]), xs[1..];
      assert (xs + ys)[0] == xs[0] && (xs + ys)[1..] == rest + ys;
      KnobsOfConcat(w, next, rest, ys);
      var first := HeadKnobs(w, mode, xs[0]);
      assert KnobsOf(w, mode, xs + ys) == first + KnobsOf(w, next, rest + ys);
      assert KnobsOf(w, mode, xs) == first + KnobsOf(w, next, rest);
    }
  }

  // ---- Splicing: the reference meaning of inclusion ----

  /** Which file an inclusion loads, given the knobs and the generator at that point. */
  ghost function Target(w: World, db: Db, dice: Dice, files: string): string
    requires ChoiceDefined(files)
  {
    FindFile(w, db, Choose(files, Draw(w, dice)))
  }

  /** A list with every inclusion replaced by what the included file comes to. `ok` is false where a token or
  a file failed; the list then ends there. */
  datatype Splice = Spliced(flat: seq<string>, dice: Dice, ok: bool) | Undefined

  /** Splices `args`, with `flat` already produced from what came before and `base` the knobs before that. */
  ghost function SpliceAll(w: World, base: Db, flat: seq<string>, dice: Dice, mode: Mode, args: seq<string>,
                           depth: nat): Splice
    decreases depth, |args|, 1
  {
    if args == [] then Spliced(flat, dice, mode == Start)
    else
      match SpliceOne(w, base, flat, dice, mode, args[0], depth)
      case Spliced(flat', dice', true) => SpliceAll(w, base, flat', dice', NextMode(mode, args[0]), args[1..], depth)
      case failed => failed
  }

  ghost function SpliceOne(w: World, base: Db, flat: seq<string>, dice: Dice, mode: Mode, arg: string,
                           depth: nat): Splice
    decreases depth, 0, 2
  {
    var included := Included(mode, arg);
    if included.Some? then SpliceFile(w, base, flat, dice, included.value, depth)
    else if arg == "-f" && mode == Start then Spliced(flat, dice, true)
    else Spliced(flat + [arg], dice, mode == Start && arg != "-pli" ==> TokenOk(w, arg))
  }

  ghost function SpliceFile(w: World, base: Db, flat: seq<string>, dice: Dice, files: string, depth: nat): Splice
    decreases depth, 0, 1
  {
    if !ChoiceDefined(files) then Undefined
    else
      var path := Target(w, base + KnobsOf(w, Start, flat), dice, files);
      var after := AfterChoice(dice, files);
      if path !in w.files || Unclosed(UpToNul(w.files[path])) then Spliced(flat, after, false)
      else if depth == 0 then Undefined
      else SpliceAll(w, base, flat, after, Start, FileArgs(w, path), depth - 1)
  }

  /** The state that a partly spliced list stands for. */
  ghost function StateOf(w: World, base: Db, flat: seq<string>, dice: Dice): State {
    State(base + KnobsOf(w, Start, flat), dice)
  }

  /** A mode of the argument machine, as it is after the spliced tokens: at DASHF nothing has been emitted yet. */
  function EmittedMode(mode: Mode): Mode {
    if mode == Ignore then Ignore else Start
  }

  /** A list spliced so far, at which the argument machine stands in `mode`. */
  ghost predicate Ready(flat: seq<string>, dice: Dice, mode: Mode) {
    dice.seed.Some? && Flat(Start, flat) && EndMode(Start, flat) == EmittedMode(mode)
  }

  /** If the run is defined, splicing stands for the same state and answer. */
  ghost predicate SpliceMatches(w: World, base: Db, run: Run, s: Splice, mode: Mode) {
    run.Done? ==>
      && s.Spliced?
      && run == Done(StateOf(w, base, s.flat, s.dice), s.ok)
      && s.dice.seed.Some? && Flat(Start, s.flat)
      && (s.ok ==> Ready(s.flat, s.dice, mode))
  }

  /** Emitting a token that asks for no inclusion. */
  lemma EmitToken(w: World, base: Db, flat: seq<string>, dice: Dice, mode: Mode, token: string)
    requires Ready(flat, dice, mode) && mode != DashF
    requires Included(mode, token) == None && NextMode(mode, token) != DashF
    ensures Ready(flat + [token], dice, NextMode(mode, token))
    ensures StateOf(w, base, flat + [token], dice).db == StateOf(w, base, flat, dice).db + HeadKnobs(w, mode, token)
  {
    hide TokenKnobs, Included;
    var one := [token];
    assert one[1..] == [];
    EndModeConcat(Start, flat, one);
    FlatConcat(Start, flat, one);
    KnobsOfConcat(w, Start, flat, one);
    assert KnobsOf(w, mode, one) == HeadKnobs(w, mode, token) + [];
  }

  lemma IncludedAtStart(mode: Mode, arg: string)
    requires Included(mode, arg).Some?
    ensures mode != Ignore && NextMode(mode, arg) == Start
  {
    assert IsDashFPair(arg) ==> arg[..3][1] == arg[1] && "-pli"[1] == 'p';
  }

  lemma SpliceOneIsLoadOne(w: World, base: Db, flat: seq<string>, dice: Dice, mode: Mode, arg: string, depth: nat)
    requires Ready(flat, dice, mode)
    ensures SpliceMatches(w, base, LoadOne(w, StateOf(w, base, flat, dice), mode, arg, depth),
                          SpliceOne(w, base, flat, dice, mode, arg, depth), NextMode(mode, arg))
    decreases depth, 0, 2
  {
    hide KnobsOf, LoadPlain, TokenOk, TokenKnobs, SpliceFile, LoadDashF, Flat, EndMode;
    var included := Included(mode, arg);
    if included.Some? {
      IncludedAtStart(mode, arg);
      SpliceFileIsLoadDashF(w, base, flat, dice, included.value, depth);
    } else if arg != "-f" || mode != Start {
      EmitToken(w, base, flat, dice, mode, arg);
      var st := StateOf(w, base, flat, dice);
      if mode == Start && arg != "-pli" {
        if LoadPlain(w, st, arg).Done? {
          PlainAdds(w, st, arg);
        }
      }
      assert mode == Ignore || arg == "-pli" ==> st.db + [] == st.db;
    }
  }

  lemma SpliceFileIsLoadDashF(w: World, base: Db, flat: seq<string>, dice: Dice, files: string, depth: nat)
    requires Ready(flat, dice, Start)
    ensures SpliceMatches(w, base, LoadDashF(w, StateOf(w, base, flat, dice), files, depth),
                          SpliceFile(w, base, flat, dice, files, depth), Start)
    decreases depth, 0, 1
  {
    hide KnobsOf, ChoiceDefined, Flat, EndMode, Choose, FindFile, FileArgs, Load, SpliceAll, Unclosed;
    if ChoiceDefined(files) {
      var st := StateOf(w, base, flat, dice);
      var path := Target(w, st.db, dice, files);
      LoadDashFIs(w, st, files, depth);
      LoadFileIs(w, StateOf(w, base, flat, AfterChoice(dice, files)), path, depth);
      if path in w.files && !Unclosed(UpToNul(w.files[path])) && depth > 0 {
        SpliceAllIsLoad(w, base, flat, AfterChoice(dice, files), Start, FileArgs(w, path), depth - 1);
      }
    }
  }

  /** Loading is loading the spliced list: the same knobs in the same order, the same generator, the same answer. */
  lemma {:induction false} SpliceAllIsLoad(w: World, base: Db, flat: seq<string>, dice: Dice, mode: Mode,
                                           args: seq<string>, depth: nat)
    requires Ready(flat, dice, mode)
    ensures SpliceMatches(w, base, Load(w, StateOf(w, base, flat, dice), mode, args, depth),
                          SpliceAll(w, base, flat, dice, mode, args, depth), Start)
    decreases depth, |args|, 3
  {
    if args != [] {
      SpliceOneIsLoadOne(w, base, flat, dice, mode, args[0], depth);
      var run := LoadOne(w, StateOf(w, base, flat, dice), mode, args[0], depth);
      if run.Done? && run.ok {
        var s := SpliceOne(w, base, flat, dice, mode, args[0], depth);
        SpliceAllIsLoad(w, base, s.flat, s.dice, NextMode(mode, args[0]), args[1..], depth);
      }
    }
  }

  /** `sknobs_load` with the seed fixed only appends, and what it appends is what the spliced tokens add. */
  lemma LoadIsSplicing(w: World, st: State, args: seq<string>, depth: nat)
    requires st.dice.seed.Some? && Load(w, st, Start, args, depth).Done?
    ensures var s := SpliceAll(w, st.db, [], st.dice, Start, args, depth);
            && s.Spliced? && Flat(Start, s.flat)
            && Load(w, st, Start, args, depth) == Done(State(st.db + KnobsOf(w, Start, s.flat), s.dice), s.ok)
  {
    assert st.db + [] == st.db;
    assert StateOf(w, st.db, [], st.dice) == st;
    SpliceAllIsLoad(w, st.db, [], st.dice, Start, args, depth);
  }

  // ---- Termination ----

  /** The file strings that a list of arguments asks to be included. */
  function FileStrings(mode: Mode, args: seq<string>): seq<string>
    decreases |args|
  {
    if args == [] then []
    else
      (if Included(mode, args[0]).Some? then [Included(mode, args[0]).value] else []) +
      FileStrings(NextMode(mode, args[0]), args[1..])
  }

  predicate HasSuffix(s: string, t: string) {
    |t| <= |s| && s[|s| - |t|..] == t
  }

  /** A file string can lead to a path: the path is one of its alternatives, as it stands or in some directory. */
  predicate Names(files: string, path: string) {
    exists k | 0 <= k < |Tokens(files, ",")| :: Resolves(Head(Tokens(files, ",")[k]), path)
  }

  predicate Resolves(file: string, path: string) {
    path == file || HasSuffix(path, "/" + file)
  }

  /** No file leads back to itself: inclusion always leads to files of lower rank. */
  ghost predicate Acyclic(w: World, rank: string -> nat) {
    forall p, q | p in w.files && q in w.files :: Leads(FileStrings(Start, FileArgs(w, p)), q) ==> rank(q) < rank(p)
  }

  predicate Leads(strings: seq<string>, path: string) {
    exists k | 0 <= k < |strings| :: Names(strings[k], path)
  }

  ghost predicate Below(w: World, rank: string -> nat, mode: Mode, args: seq<string>, depth: nat) {
    forall q | q in w.files :: Leads(FileStrings(mode, args), q) ==> rank(q) < depth
  }

  lemma FindFileResolves(w: World, db: Db, file: string)
    ensures Resolves(file, FindFile(w, db, file))
  {
    var k := FirstHit(w, db, file, 0);
    if k < |db| {
      var path := Candidate(db[k], file);
      var dir := if db[k].value.Some? then db[k].value.value else "(null)";
      assert path == dir + ("/" + file);
      assert path[|path| - |"/" + file|..] == "/" + file;
    }
  }

  lemma DashFStays(w: World, st: State, files: string, rank: string -> nat, depth: nat)
    requires Acyclic(w, rank)
    requires forall q | q in w.files :: Names(files, q) ==> rank(q) < depth
    ensures LoadDashF(w, st, files, depth) != TooDeep
    decreases depth, 0, 0
  {
    hide ChoiceDefined, Draw, Unclosed, Choose, FindFile, FileArgs, LoadDashF, LoadFile, UpToNul, Names, Acyclic, Below;
    hide Load, AfterChoice;
    LoadDashFIs(w, st, files, depth);
    if ChoiceDefined(files) {
      var draw := Draw(w, st.dice);
      var path := FindFile(w, st.db, Choose(files, draw));
      var next := st.(dice := AfterChoice(st.dice, files));
      LoadFileIs(w, next, path, depth);
      if path in w.files {
        ChosenIsNamed(w, st.db, files, draw);
        if depth > 0 {
          IncludedIsBelow(w, rank, path, depth - 1);
          LoadStays(w, next, Start, FileArgs(w, path), rank, depth - 1);
        }
      }
    }
  }

  lemma IncludedIsBelow(w: World, rank: string -> nat, path: string, depth: nat)
    requires Acyclic(w, rank) && path in w.files && rank(path) <= depth
    ensures Below(w, rank, Start, FileArgs(w, path), depth)
  {
    hide Leads, FileStrings, FileArgs;
  }

  lemma ChosenIsNamed(w: World, db: Db, files: string, draw: nat)
    requires ChoiceDefined(files)
    ensures Names(files, FindFile(w, db, Choose(files, draw)))
  {
    FindFileResolves(w, db, Choose(files, draw));
    assert Choose(files, draw) == Head(Tokens(files, ",")[ChosenIndex(files, draw)]);
  }

  lemma LeadsCons(mode: Mode, args: seq<string>, q: string)
    requires args != []
    ensures Leads(FileStrings(mode, args), q) <==>
            (Included(mode, args[0]).Some? && Names(Included(mode, args[0]).value, q)) ||
            Leads(FileStrings(NextMode(mode, args[0]), args[1..]), q)
  {
    hide Names, Included;
    var rest := FileStrings(NextMode(mode, args[0]), args[1..]);
    if Included(mode, args[0]).Some? {
      var all := FileStrings(mode, args);
      assert all[0] == Included(mode, args[0]).value;
      assert forall k | 0 <= k < |rest| :: all[k + 1] == rest[k];
      assert forall k | 1 <= k < |all| :: all[k] == rest[k - 1];
    } else {
      assert FileStrings(mode, args) == rest;
    }
  }

  lemma {:induction false} LoadStays(w: World, st: State, mode: Mode, args: seq<string>, rank: string -> nat,
                                     depth: nat)
    requires Acyclic(w, rank) && Below(w, rank, mode, args, depth)
    ensures Load(w, st, mode, args, depth) != TooDeep
    decreases depth, |args|, 1
  {
    hide Leads, Names, LoadPlain, Acyclic, Included;
    if args != [] {
      forall q | q in w.files
        ensures Included(mode, args[0]).Some? && Names(Included(mode, args[0]).value, q) ==> rank(q) < depth
        ensures Leads(FileStrings(NextMode(mode, args[0]), args[1..]), q) ==> rank(q) < depth
      {
        LeadsCons(mode, args, q);
      }
      if Included(mode, args[0]).Some? {
        DashFStays(w, st, Included(mode, args[0]).value, rank, depth);
      } else {
        PlainIsNotDeep(w, st, args[0]);
      }
      var run := LoadOne(w, st, mode, args[0], depth);
      if run.Done? && run.ok {
        LoadStays(w, run.state, NextMode(mode, args[0]), args[1..], rank, depth);
      }
    }
  }

  lemma PlainIsNotDeep(w: World, st: State, arg: string)
    ensures LoadPlain(w, st, arg) != TooDeep
  {
  }

  /** A bound above the ranks of all files. */
  ghost function RankBound(paths: set<string>, rank: string -> nat): (bound: nat)
    ensures forall p | p in paths :: rank(p) < bound
  {
    if paths == {} then 0
    else
      var p :| p in paths;
      var rest := RankBound(paths - {p}, rank);
      if rank(p) < rest then rest else rank(p) + 1
  }

  /** So over files that do not include each other in a circle, loading ends: one bound, given by the files alone,
  is enough for all arguments, from every state and with every random source. */
  lemma LoadEnds(w: World, w': World, rank: string -> nat, st: State, mode: Mode, args: seq<string>)
    requires Acyclic(w, rank) && w' == w.(random := w'.random)
    ensures Load(w', st, mode, args, RankBound(w.files.Keys, rank)) != TooDeep
  {
    hide Leads, FileStrings;
    forall p | p in w.files
      ensures FileArgs(w', p) == FileArgs(w, p)
    {
    }
    assert Acyclic(w', rank);
    LoadStays(w', st, mode, args, rank, RankBound(w.files.Keys, rank));
  }

  // ---- The bound does not matter ----

  lemma {:induction false} MoreDepth(w: World, st: State, mode: Mode, args: seq<string>, d: nat, e: nat)
    requires d <= e && Load(w, st, mode, args, d) != TooDeep
    ensures Load(w, st, mode, args, e) == Load(w, st, mode, args, d)
    decreases d, |args|, 1
  {
    hide LoadPlain, Included, LoadDashF;
    if args != [] {
      if Included(mode, args[0]).Some? {
        MoreDepthDashF(w, st, Included(mode, args[0]).value, d, e);
      }
      assert LoadOne(w, st, mode, args[0], d) == LoadOne(w, st, mode, args[0], e);
      var run := LoadOne(w, st, mode, args[0], d);
      if run.Done? && run.ok {
        MoreDepth(w, run.state, NextMode(mode, args[0]), args[1..], d, e);
      }
    }
  }

  lemma MoreDepthDashF(w: World, st: State, files: string, d: nat, e: nat)
    requires d <= e && LoadDashF(w, st, files, d) != TooDeep
    ensures LoadDashF(w, st, files, e) == LoadDashF(w, st, files, d)
    decreases d, 0, 0
  {
    hide ChoiceDefined, Draw, Unclosed, Choose, FindFile, FileArgs, LoadDashF, LoadFile, UpToNul, Load, AfterChoice;
    LoadDashFIs(w, st, files, d);
    LoadDashFIs(w, st, files, e);
    if ChoiceDefined(files) {
      var path := FindFile(w, st.db, Choose(files, Draw(w, st.dice)));
      var next := st.(dice := AfterChoice(st.dice, files));
      LoadFileIs(w, next, path, d);
      LoadFileIs(w, next, path, e);
      if path in w.files && d > 0 {
        if !Unclosed(UpToNul(w.files[path])) && |FileArgs(w, path)| < MAX_ARGV_SIZE {
          MoreDepth(w, next, Start, FileArgs(w, path), d - 1, e - 1);
        }
      }
    }
  }
}
