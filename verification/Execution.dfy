/** Whole runs on the running engine: what is proved of runs in general holds of them. */
module Execution {
  import opened Text
  import opened World
  import opened StrtokModule
  import opened EngineModule
  import opened Loader
  import opened Runs
  import Answers

  /** The texts of a call are C strings. */
  predicate CStrings(c: Call) {
    match c
    case AddText(text) => NUL !in text
    case LoadArguments(args) => forall i | 0 <= i < |args| :: NUL !in args[i]
    case _ => true
  }

  /** An argument vector, each argument in memory of its own. */
  method MakeArguments(args: seq<string>) returns (argc: nat, argv: array<Pointer>)
    requires forall i | 0 <= i < |args| :: NUL !in args[i]
    ensures fresh(argv) && ArgsRead(argv, argc, args)
    ensures forall p | p in argv[..] :: fresh(p.text)
  {
    var empty := StringCopy("", 1);
    argc := |args| + 1;
    argv := new Pointer[argc](_ => Pointer(empty, 0));
    for i := 0 to |args|
      invariant fresh(argv) && argv.Length == argc
      invariant forall j | 0 <= j < argc :: fresh(argv[j].text)
      invariant forall j | 0 <= j < i :: ReadsAs(argv[j + 1].text[..], argv[j + 1].off, args[j])
    {
      var text := StringCopy(args[i], |args[i]| + 1);
      argv[i + 1] := Pointer(text, 0);
    }
  }

  /** Loading does not reach the saved values. */
  lemma TableIsApart(e: Engine)
    requires e.Valid()
    ensures e.table !in e.Frame() && e.table.buckets !in e.Frame()
  {
  }

  method LoadVector(e: Engine, args: seq<string>, ghost depth: nat)
    requires e.Valid() && forall i | 0 <= i < |args| :: NUL !in args[i]
    requires Loader.Load(e.world, e.State(), Start, args, depth).Done?
    modifies e.Frame()
    ensures e.Valid() && fresh(e.Frame() - old(e.Frame())) && e.table.cache == old(e.table.cache)
    ensures Loader.Load(e.world, old(e.State()), Start, args, depth).state == e.State()
  {
    hide Loader.Load, e.Valid;
    TableIsApart(e);
    var argc, argv := MakeArguments(args);
    assert Apart(argv, e.Frame());
    var failed := e.Load(argc, argv, "command line", args, depth);
  }

  /** One call. */
  method Perform(e: Engine, c: Call, ghost depth: nat) returns (answer: Option<nat>)
    requires e.Valid() && CallOk(c) && CStrings(c)
    requires Step(e.world, Answers.MachineOf(e), c, depth).Some?
    modifies e.Frame(), e.table, e.table.buckets
    ensures e.Valid() && fresh(e.Frame() - old(e.Frame()))
    ensures Step(e.world, old(Answers.MachineOf(e)), c, depth) == Some((Answers.MachineOf(e), answer))
  {
    hide e.Valid, Loader.Load, Loader.LoadFile, Loader.AddString, GetValue;
    TableIsApart(e);
    answer := None;
    match c
    case AddKnob(pattern, value) =>
      var failed := e.AddKnob(pattern, value, "add");
    case AddText(text) =>
      var failed := e.AddString(text, "add_string");
    case SetText(name, text) => e.SetText(name, text, "set_string");
    case SetWord(name, word) => e.SetWord(name, word);
    case SeedWith(seed) => e.SetSeed(seed);
    case LoadArguments(args) => LoadVector(e, args, depth);
    case LoadFrom(path) =>
      var failed := e.LoadFile(path, depth);
    case Dynamic(name, default) =>
      var value := Answers.GetDynamic(e, name, default);
      answer := Some(value);
    case Value(name, default) =>
      var value := Answers.GetValue(e, name, default);
      answer := Some(value);
  }

  /** A run of calls on the engine is the run that the theorems are about: same answers, and the memory stands for
  the same machine at the end. */
  method Execute(e: Engine, calls: seq<Call>, ghost depth: nat) returns (answers: seq<Option<nat>>)
    requires e.Valid() && forall c | c in calls :: CallOk(c) && CStrings(c)
    requires RunAll(e.world, Answers.MachineOf(e), calls, depth).Some?
    modifies e.Frame(), e.table, e.table.buckets
    ensures e.Valid() && fresh(e.Frame() - old(e.Frame()))
    ensures RunAll(e.world, old(Answers.MachineOf(e)), calls, depth) == Some((Answers.MachineOf(e), answers))
  {
    hide Step, CallOk, CStrings, e.Valid, Answers.MachineOf;
    answers := [];
    ghost var start := Answers.MachineOf(e);
    ReachedStart(e.world, start, calls, depth);
    for i := 0 to |calls|
      invariant e.Valid() && fresh(e.Frame() - old(e.Frame()))
      invariant Reached(e.world, start, calls, i, Answers.MachineOf(e), answers, depth)
    {
      ReachedStep(e.world, start, calls, i, Answers.MachineOf(e), answers, depth);
      var answer := Perform(e, calls[i], depth);
      answers := answers + [answer];
    }
    ReachedEnd(e.world, start, calls, Answers.MachineOf(e), answers, depth);
  }

  /** The first `i` calls of a defined run lead to this machine, with these answers. */
  ghost predicate Reached(w: World, start: Machine, calls: seq<Call>, i: nat,
                          m: Machine, answers: seq<Option<nat>>, depth: nat)
  {
    && i <= |calls|
    && (forall c | c in calls :: CallOk(c))
    && RunAll(w, m, calls[i..], depth).Some?
    && var (last, more) := RunAll(w, m, calls[i..], depth).value;
       RunAll(w, start, calls, depth) == Some((last, answers + more))
  }

  lemma ReachedStart(w: World, start: Machine, calls: seq<Call>, depth: nat)
    requires (forall c | c in calls :: CallOk(c)) && RunAll(w, start, calls, depth).Some?
    ensures Reached(w, start, calls, 0, start, [], depth)
  {
    assert calls[0..] == calls;
    var (last, answers) := RunAll(w, start, calls, depth).value;
    assert [] + answers == answers;
  }

  lemma ReachedStep(w: World, start: Machine, calls: seq<Call>, i: nat,
                    m: Machine, answers: seq<Option<nat>>, depth: nat)
    requires i < |calls| && Reached(w, start, calls, i, m, answers, depth)
    ensures CallOk(calls[i]) && Step(w, m, calls[i], depth).Some?
    ensures var (next, answer) := Step(w, m, calls[i], depth).value;
            Reached(w, start, calls, i + 1, next, answers + [answer], depth)
  {
    hide Step, CallOk;
    var rest := calls[i..];
    assert rest[0] == calls[i] && rest[1..] == calls[i + 1..];
    var (next, answer) := Step(w, m, calls[i], depth).value;
    var (last, more) := RunAll(w, next, calls[i + 1..], depth).value;
    assert answers + ([answer] + more) == (answers + [answer]) + more;
  }

  lemma ReachedEnd(w: World, start: Machine, calls: seq<Call>, m: Machine, answers: seq<Option<nat>>, depth: nat)
    requires Reached(w, start, calls, |calls|, m, answers, depth)
    ensures RunAll(w, start, calls, depth) == Some((m, answers))
  {
    assert calls[|calls|..] == [];
    assert answers + [] == answers;
  }
}
