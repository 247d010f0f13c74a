/** The knob engine as it runs: one database, one tokenizer cursor, one random source, and the buffers they share. */
module EngineModule {
  import opened Text
  import opened Numbers
  import opened World
  import opened Comments
  import opened Random
  import opened Choice
  import opened Eval
  import opened Knobs
  import opened Loader
  import opened StrtokModule
  import opened Gather
  import opened EvaluatorModule
  import opened DatabaseModule
  import opened SavedTableModule

  const ARGV_SIZE_CHUNK: nat := 1000

  /** A `char *`: a place in a character buffer. */
  datatype Pointer = Pointer(text: array<char>, off: nat)

  /** The arguments behind argv[0] read as `args`. */
  ghost predicate ArgsRead(argv: array<Pointer>, argc: nat, args: seq<string>)
    reads argv, set p | p in argv[..] :: p.text
  {
    && argc == |args| + 1 <= argv.Length
    && forall i | 0 <= i < |args| :: ReadsAs(argv[i + 1].text[..], argv[i + 1].off, args[i])
  }

  class Engine {
    const world: World
    const db: Database
    const eval: Evaluator
    const table: SavedTable
    const shared: array<char>

    /** What loading may change: the database, the random source, the tokenizer cursor, the two static buffers. */
    ghost function Frame(): set<object>
      reads db
    {
      db.Repr + {eval.random, eval.strtok, eval.buffer, shared}
    }

    ghost predicate Valid()
      reads db, Frame(), table, table.buckets
    {
      && db.Valid() && eval.Valid() && table.Valid()
      && db.world == world && eval.random.world == world
      && shared.Length == MAX_LENGTH && shared != eval.buffer
      && {eval.random, eval.strtok, eval.buffer, shared, table, table.buckets} !! db.Repr
    }

    /** What the engine's memory stands for. */
    ghost function State(): Loader.State
      reads db, eval.random
    {
      Loader.State(db.entries, eval.random.dice)
    }

    constructor (w: World)
      ensures Valid() && fresh(Frame()) && fresh(table) && fresh(table.buckets)
      ensures table !in Frame() && table.buckets !in Frame()
      ensures world == w && State() == Loader.State([], Dice(None, 0)) && table.cache == map[]
    {
      hide Database.Valid, SavedTable.Valid;
      world := w;
      db := new Database(w);
      eval := new Evaluator(w);
      table := new SavedTable();
      shared := new char[MAX_LENGTH];
    }

    /** sknobs_add, seen from the engine */
    method AddKnob(pattern: string, value: Option<string>, comment: string) returns (failed: bool)
      requires Valid()
      modifies Frame()
      ensures Valid() && fresh(Frame() - old(Frame()))
      ensures State() == old(State()).(db := Knobs.Add(world, old(State()).db, pattern, value))
      ensures failed <==> !Acceptable(world, pattern)
      ensures shared[..] == old(shared[..])
    {
      hide Acceptable, Knobs.Add, db.Valid;
      failed := db.Add(pattern, value, comment);
    }

    /** snprintf(buffer, SKNOBS_MAX_LENGTH, "%lld", value) */
    method PrintShared(value: nat)
      requires Valid() && value < TWO64
      modifies shared
      ensures Valid() && ReadsAs(shared[..], 0, PrintLLD(value))
      ensures State() == old(State()) && Frame() == old(Frame())
    {
      hide PrintLLD, Matches;
      PrintIsShort(value);
      WriteText(shared, PrintLLD(value));
    }

    /** sknobs_set_value */
    method SetWord(name: string, value: nat)
      requires Valid() && value < TWO64
      modifies Frame()
      ensures Valid() && fresh(Frame() - old(Frame()))
      ensures State() == old(State()).(db := SetValue(world, old(State()).db, name, value))
    {
      hide Valid;
      PrintShared(value);
      var text := ReadCString(shared, 0, PrintLLD(value));
      SetText(name, text, "set_value");
    }

    /** sknobs_set_string, with the comment it leaves if it has to append */
    method SetText(name: string, text: string, comment: string)
      requires Valid()
      modifies Frame()
      ensures Valid() && fresh(Frame() - old(Frame()))
      ensures State() == old(State()).(db := Knobs.SetString(world, old(State()).db, name, text))
      ensures shared[..] == old(shared[..])
    {
      hide Knobs.SetString, LastMatch, db.Valid;
      db.SetString(name, text, comment);
    }

    /** sknobs_set_seed */
    method SetSeed(seed: nat)
      requires Valid() && seed < TWO32
      modifies Frame()
      ensures Valid() && fresh(Frame() - old(Frame()))
      ensures State() == Loader.SetSeed(world, old(State()), seed)
      ensures old(State()).dice.seed.Some? ==> shared[..] == old(shared[..])
    {
      if eval.random.dice.seed.Some? {
        return;
      }
      eval.random.dice := Dice(Some(seed), 0);
      SetWord(SEED, seed);
    }

    /** sknobs_set_seed_from_string */
    method SetSeedFromString(s: string) returns (failed: bool)
      requires Valid()
      modifies Frame()
      ensures Valid() && fresh(Frame() - old(Frame()))
      ensures State() == Loader.SetSeedFromString(world, old(State()), s)
      ensures failed <==> ParseULL(s).overflow
      ensures old(State()).dice.seed.Some? ==> shared[..] == old(shared[..])
    {
      var p := ParseULL(s);
      if p.overflow {
        return true;
      }
      SetSeed(p.value % TWO32);
      return false;
    }

    /** The two strtok calls of the parser, on a copy of the text from `off` on. */
    method SplitKnob(lbuffer: array<char>, off: nat, ghost body: string) returns (pattern: string, value: string)
      requires Valid() && lbuffer !in Frame()
      requires ReadsAs(lbuffer[..], off, body) && HasToken(body, "=\n")
      modifies eval.strtok, lbuffer
      ensures Valid()
      ensures pattern == PatternOf(body) && value == ValueOf(body)
    {
      hide db.Valid, Scanned, HasToken, FirstToken, AfterToken;
      ghost var before := lbuffer[..];
      var p := eval.strtok.First(lbuffer, off, "=\n", body);
      ghost var middle, from, rest := lbuffer[..], eval.strtok.next, AfterToken(body, "=\n");
      ScannedReads(before, middle, off, body, "=\n", p, from);
      pattern := ReadCString(lbuffer, p.value, PatternOf(body));
      var v := eval.strtok.Next("", rest);
      ScannedReads(middle, lbuffer[..], from, rest, "", v, eval.strtok.next);
      NoDelimiters(rest);
      if v == None {
        return pattern, ONE;
      }
      value := ReadCString(lbuffer, v.value, FirstToken(rest, ""));
    }

    /** Adds the knob that records a define or an undefine. */
    method RecordDefine(s: string, comment: string)
      requires Valid()
      modifies Frame()
      ensures Valid() && fresh(Frame() - old(Frame()))
      ensures State() == old(State()).(db := old(State()).db + Recorded(s))
      ensures shared[..] == old(shared[..])
    {
      hide Valid;
      if HasPrefix(s, "undefine+") {
        var failed := AddKnob(UNDEFINES, Some(s[9..]), comment);
      } else if HasPrefix(s, "define+") {
        var failed := AddKnob(DEFINES, Some(s[7..]), comment);
      }
    }

    /** Adds the parsed knob, or sets the seed with it. */
    method StoreKnob(pattern: string, value: string, comment: string) returns (failed: bool)
      requires Valid()
      modifies Frame()
      ensures Valid() && fresh(Frame() - old(Frame()))
      ensures State() == Stored(world, old(State()), pattern, value)
      ensures failed <==> pattern != SEED && !Acceptable(world, pattern)
      ensures old(State()).dice.seed.Some? ==> shared[..] == old(shared[..])
    {
      hide Valid, Acceptable, Loader.SetSeedFromString;
      if pattern == SEED {
        var ignored := SetSeedFromString(value);
        return false;
      }
      failed := AddKnob(pattern, Some(value), comment);
    }

    /** sknobs_add_string, with the string not NULL */
    method AddString(s: string, comment: string) returns (failed: bool)
      requires Valid() && NUL !in s && Loader.AddString(world, State(), s).Done?
      modifies Frame()
      ensures Valid() && fresh(Frame() - old(Frame()))
      ensures Loader.AddString(world, old(State()), s) == Done(State(), !failed)
      ensures old(State()).dice.seed.Some? ==> State().dice.seed.Some? && shared[..] == old(shared[..])
    {
      hide Valid, Recorded, HasToken, PatternOf, ValueOf, Acceptable, Loader.SetSeedFromString;
      if s == [] || s[0] == '=' {
        return true;
      }
      var lbuffer := StringCopy(s, |s| + 1);
      assert lbuffer !in Frame();
      RecordDefine(s, comment);
      var off := if HasPrefix(s, "define+") then 7 else 0;
      ReadsSuffix(lbuffer[..], 0, s, off);
      assert s[0..] == s;
      var pattern, value := SplitKnob(lbuffer, off, Body(s));
      SeedStays(world, State(), value);
      failed := StoreKnob(pattern, value, comment);
    }

    // ---- Arguments ----

    /** sknobs_load on an argument vector. `depth` bounds the nesting of inclusions. */
    method Load(argc: nat, argv: array<Pointer>, comment: string, ghost args: seq<string>, ghost depth: nat)
        returns (failed: bool)
      requires Valid() && ArgsRead(argv, argc, args) && Apart(argv, Frame())
      requires Loader.Load(world, State(), Start, args, depth).Done?
      modifies Frame()
      ensures Valid() && fresh(Frame() - old(Frame()))
      ensures Loader.Load(world, old(State()), Start, args, depth) == Done(State(), !failed)
      ensures old(State()).dice.seed.Some? ==> State().dice.seed.Some? && shared[..] == old(shared[..])
      decreases depth, 4
    {
      hide Valid, Loader.LoadOne;
      var mode := Start;
      var i := 1;
      while i < argc
        invariant 1 <= i <= argc
        invariant Valid() && fresh(Frame() - old(Frame()))
        invariant ArgsRead(argv, argc, args) && Apart(argv, Frame())
        invariant Loader.Load(world, old(State()), Start, args, depth) ==
                  Loader.Load(world, State(), mode, args[i - 1..], depth)
        invariant old(State()).dice.seed.Some? ==> State().dice.seed.Some? && shared[..] == old(shared[..])
        decreases argc - i
      {
        var arg := ReadCString(argv[i].text, argv[i].off, args[i - 1]);
        ReadsNulFree(argv[i].text[..], argv[i].off, args[i - 1]);
        assert args[i - 1..][0] == arg && args[i - 1..][1..] == args[i..];
        failed := LoadOne(mode, arg, comment, depth);
        if failed {
          return true;
        }
        mode := NextMode(mode, arg);
        i := i + 1;
      }
      return mode != Start;
    }

    /** One turn of the argument loop. */
    method LoadOne(mode: Mode, arg: string, comment: string, ghost depth: nat) returns (failed: bool)
      requires Valid() && NUL !in arg && Loader.LoadOne(world, State(), mode, arg, depth).Done?
      modifies Frame()
      ensures Valid() && fresh(Frame() - old(Frame()))
      ensures Loader.LoadOne(world, old(State()), mode, arg, depth) == Done(State(), !failed)
      ensures old(State()).dice.seed.Some? ==> State().dice.seed.Some? && shared[..] == old(shared[..])
      decreases depth, 3
    {
      hide Valid, Loader.LoadDashF, Loader.AddString;
      failed := false;
      match mode {
        case Start =>
          if arg == "-f" {
          } else if HasPrefix(arg, "-f ") {
            failed := LoadDashF(arg[3..], depth);
          } else if arg == "-pli" {
          } else if arg != [] && arg[0] == '+' {
            if |arg| > 1 {
              failed := AddString(arg[1..], comment);
            }
          } else {
            AddFile(arg);
          }
        case DashF =>
          failed := LoadDashF(arg, depth);
        case Ignore =>
      }
    }

    method AddFile(arg: string)
      requires Valid()
      modifies Frame()
      ensures Valid() && fresh(Frame() - old(Frame()))
      ensures State() == old(State()).(db := old(State()).db + [Entry(FILES, Some(arg))])
      ensures shared[..] == old(shared[..])
    {
      hide Valid;
      var failed := AddKnob(FILES, Some(arg), "file");
    }

    /** sknobs_load_dashf: the chosen name is a pointer into the evaluation buffer, and is used up before anything
    is loaded. */
    method LoadDashF(files: string, ghost depth: nat) returns (failed: bool)
      requires Valid() && NUL !in files && Loader.LoadDashF(world, State(), files, depth).Done?
      modifies Frame()
      ensures Valid() && fresh(Frame() - old(Frame()))
      ensures Loader.LoadDashF(world, old(State()), files, depth) == Done(State(), !failed)
      ensures old(State()).dice.seed.Some? ==> State().dice.seed.Some? && shared[..] == old(shared[..])
      decreases depth, 2
    {
      hide Valid, Loader.LoadDashF, Loader.LoadFile, Choose, ChoiceDefined, Knobs.FindFile, Draw;
      LoadDashFIs(world, State(), files, depth);
      var name := ChooseFile(files);
      var path := FindFile(name);
      failed := LoadFile(path, depth);
    }

    method ChooseFile(files: string) returns (name: string)
      requires Valid() && ChoiceDefined(files)
      modifies Frame()
      ensures Valid() && Frame() == old(Frame())
      ensures name == Choose(files, Draw(world, old(State()).dice))
      ensures State() == old(State()).(dice := AfterChoice(old(State()).dice, files))
      ensures shared[..] == old(shared[..])
    {
      hide Choose, ChoiceDefined, Draw;
      ghost var choice := Choose(files, Draw(world, State().dice));
      var p := eval.ChooseFromWeightedList(files);
      name := ReadCString(eval.buffer, p, choice);
    }

    method FindFile(name: string) returns (path: string)
      requires Valid()
      modifies Frame()
      ensures Valid() && Frame() == old(Frame()) && State() == old(State())
      ensures path == Knobs.FindFile(world, State().db, name)
      ensures shared[..] == old(shared[..])
    {
      hide Knobs.FindFile;
      path := db.FindFile(name);
    }

    /** sknobs_load_file */
    method LoadFile(path: string, ghost depth: nat) returns (failed: bool)
      requires Valid() && Loader.LoadFile(world, State(), path, depth).Done?
      modifies Frame()
      ensures Valid() && fresh(Frame() - old(Frame()))
      ensures Loader.LoadFile(world, old(State()), path, depth) == Done(State(), !failed)
      ensures old(State()).dice.seed.Some? ==> State().dice.seed.Some? && shared[..] == old(shared[..])
      decreases depth, 1
    {
      hide Valid, Loader.LoadFile, Strip, Unclosed, UpToNul, Tokens;
      LoadFileIs(world, State(), path, depth);
      if path !in world.files {
        return true;
      }
      var contents := ReadFile(path);
      ghost var text := UpToNul(world.files[path]);
      ghost var tail := contents[..][|text|..];
      var unclosed := Uncomment(contents, text);
      if unclosed {
        return true;
      }
      StripIsNulFree(text);
      ReadsFront(Strip(text), tail);
      failed := LoadString(contents, path, Strip(text), depth - 1);
    }

    /** Reads a file into a buffer of its own, with a NUL behind it. */
    method ReadFile(path: string) returns (contents: array<char>)
      requires path in world.files
      ensures fresh(contents) && ReadsAs(contents[..], 0, UpToNul(world.files[path]))
    {
      var file := world.files[path];
      contents := new char[|file| + 1](i => NUL);
      var i := 0;
      while i < |file|
        invariant 0 <= i <= |file|
        invariant forall k | 0 <= k < i :: contents[k] == file[k]
      {
        contents[i] := file[i];
        i := i + 1;
      }
      contents[|file|] := NUL;
      ghost var text := UpToNul(file);
      assert forall k | 0 <= k < |text| :: text[k] in text;
    }

    /** sknobs_load_string: all tokens are gathered before anything is loaded. */
    method LoadString(s: array<char>, comment: string, ghost text: string, ghost depth: nat) returns (failed: bool)
      requires Valid() && s !in Frame() && ReadsAs(s[..], 0, text)
      requires |Tokens(text, world.delimiters)| < MAX_ARGV_SIZE
      requires Loader.Load(world, State(), Start, Tokens(text, world.delimiters), depth).Done?
      modifies Frame(), s
      ensures Valid() && fresh(Frame() - old(Frame()))
      ensures Loader.Load(world, old(State()), Start, Tokens(text, world.delimiters), depth) == Done(State(), !failed)
      ensures old(State()).dice.seed.Some? ==> State().dice.seed.Some? && shared[..] == old(shared[..])
      decreases depth, 5
    {
      hide Valid, Tokens, Loader.Load;
      var argc, argv := GatherArguments(s, text);
      failed := Load(argc, argv, comment, Tokens(text, world.delimiters), depth);
    }

    /** The tokens of a buffer as an argument vector. */
    method GatherArguments(s: array<char>, ghost text: string) returns (argc: nat, argv: array<Pointer>)
      requires Valid() && s !in Frame() && ReadsAs(s[..], 0, text)
      requires |Tokens(text, world.delimiters)| < MAX_ARGV_SIZE
      modifies eval.strtok, s
      ensures Valid()
      ensures fresh(argv) && argc <= argv.Length <= MAX_ARGV_SIZE
      ensures ArgsRead(argv, argc, Tokens(text, world.delimiters))
      ensures forall p | p in argv[..] :: p.text == s
    {
      hide Tokens;
      argc, argv := GatherTokens(eval.strtok, s, text, world.delimiters);
    }
  }

  /** The tokenizer loop, with an argument vector that grows by chunks: entries already made survive, and the
  vector never outgrows its maximum. */
  method GatherTokens(strtok: Strtok, s: array<char>, ghost text: string, d: string)
      returns (argc: nat, argv: array<Pointer>)
    requires ReadsAs(s[..], 0, text) && |Tokens(text, d)| < MAX_ARGV_SIZE
    modifies strtok, s
    ensures fresh(argv) && argc <= argv.Length <= MAX_ARGV_SIZE
    ensures ArgsRead(argv, argc, Tokens(text, d))
    ensures forall p | p in argv[..] :: p.text == s
  {
    hide Tokens, Progress, Holds, PointsAt, FirstToken, AfterToken;
    ghost var offs, done, first, rest := [], [], FirstToken(text, d), AfterToken(text, d);
    argv := StartVector(s);
    argc := 1;
    ghost var before := s[..];
    ProgressStart(text, d, before, 0);
    var token := strtok.First(s, 0, d, text);
    ProgressStep(text, d, before, s[..], offs, done, 0, text, token, strtok.next);
    while token.Some?
      invariant |offs| == |done| == argc - 1
      invariant fresh(argv) && PointsAt(argv, s, offs)
      invariant strtok.text == s
      invariant token.Some? ==> |done| < |Tokens(text, d)|
      invariant token.Some? ==> Progress(text, d, s[..], offs + [token.value], done + [first], strtok.next, rest)
      invariant token == None ==> Holds(s[..], offs, Tokens(text, d))
      decreases token.Some?, |rest|
    {
      ProgressReads(text, d, s[..], offs + [token.value], done + [first], strtok.next, rest);
      argv := Push(argv, argc, s, token.value, offs);
      argc := argc + 1;
      offs, done := offs + [token.value], done + [first];
      before := s[..];
      ghost var from := strtok.next;
      token := strtok.Next(d, rest);
      ProgressStep(text, d, before, s[..], offs, done, from, rest, token, strtok.next);
      first, rest := FirstToken(rest, d), AfterToken(rest, d);
    }
    PointsAtReads(argv, s, offs, Tokens(text, d));
  }

  /** The vector holds, behind argv[0], pointers into `s` at the given offsets. */
  ghost predicate PointsAt(argv: array<Pointer>, s: array<char>, offs: seq<nat>)
    reads argv
  {
    && |offs| < argv.Length <= MAX_ARGV_SIZE && argv.Length % ARGV_SIZE_CHUNK == 0
    && (forall i | 0 <= i < |offs| :: argv[i + 1] == Pointer(s, offs[i]))
    && (forall i | 0 <= i < argv.Length :: argv[i].text == s)
  }

  lemma PointsAtReads(argv: array<Pointer>, s: array<char>, offs: seq<nat>, args: seq<string>)
    requires PointsAt(argv, s, offs) && Holds(s[..], offs, args)
    ensures ArgsRead(argv, |offs| + 1, args)
    ensures |offs| + 1 <= argv.Length <= MAX_ARGV_SIZE
    ensures forall p | p in argv[..] :: p.text == s
  {
  }

  method StartVector(s: array<char>) returns (argv: array<Pointer>)
    ensures fresh(argv) && PointsAt(argv, s, [])
  {
    argv := new Pointer[ARGV_SIZE_CHUNK](i => Pointer(s, 0));
  }

  /** argv[argc++] = token, after growing the vector if it is full. */
  method Push(argv: array<Pointer>, argc: nat, s: array<char>, off: nat, ghost offs: seq<nat>)
      returns (longer: array<Pointer>)
    requires PointsAt(argv, s, offs) && argc == |offs| + 1 < MAX_ARGV_SIZE
    modifies argv
    ensures PointsAt(longer, s, offs + [off])
    ensures longer == argv || fresh(longer)
  {
    longer := argv;
    if argc >= argv.Length {
      longer := Grow(argv, s);
    }
    longer[argc] := Pointer(s, off);
  }

  /** realloc: a longer vector with the same entries in front. */
  method Grow(argv: array<Pointer>, s: array<char>) returns (longer: array<Pointer>)
    ensures fresh(longer) && longer.Length == argv.Length + ARGV_SIZE_CHUNK
    ensures forall i | 0 <= i < argv.Length :: longer[i] == argv[i]
    ensures forall i | argv.Length <= i < longer.Length :: longer[i] == Pointer(s, 0)
  {
    longer := new Pointer[argv.Length + ARGV_SIZE_CHUNK](i => Pointer(s, 0));
    var i := 0;
    while i < argv.Length
      invariant 0 <= i <= argv.Length
      invariant forall k | 0 <= k < i :: longer[k] == argv[k]
      invariant forall k | argv.Length <= k < longer.Length :: longer[k] == Pointer(s, 0)
    {
      longer[i] := argv[i];
      i := i + 1;
    }
  }

  /** The argument vector and the texts it points into lie outside a set of objects. */
  ghost predicate Apart(argv: array<Pointer>, objects: set<object>)
    reads argv
  {
    argv !in objects && forall p | p in argv[..] :: p.text !in objects
  }

  lemma ReadsFront(s: string, tail: string)
    requires NUL !in s && tail != [] && tail[0] == NUL
    ensures ReadsAs(s + tail, 0, s)
  {
    assert forall k | 0 <= k < |s| :: s[k] in s;
  }

  ghost function Stored(w: World, st: Loader.State, pattern: string, value: string): Loader.State {
    if pattern == SEED then Loader.SetSeedFromString(w, st, value)
    else st.(db := Knobs.Add(w, st.db, pattern, Some(value)))
  }

  lemma SeedStays(w: World, st: Loader.State, value: string)
    ensures st.dice.seed.Some? ==> Loader.SetSeedFromString(w, st, value) == st
  {
  }

  lemma NoDelimiters(s: string)
    ensures HasToken(s, "") <==> s != []
    ensures HasToken(s, "") ==> FirstToken(s, "") == s
  {
    SkipUnique(s, "", 0);
    assert s[0..] == s;
    RunUnique(s, "", |s|);
    assert s[0..|s|] == s;
  }
}
