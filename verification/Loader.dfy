/** What loading knobs means: the argument machine, `-f` inclusion, and the pattern=value parser. */
module Loader {
  import opened Text
  import opened Numbers
  import opened World
  import opened Comments
  import opened Random
  import opened Choice
  import opened Eval
  import opened Knobs

  /** The state that loading reads and changes. */
  datatype State = State(db: Db, dice: Dice)

  /** `ok` is false where the C function returns 1. `Crash` stands for a run without defined behaviour (a null
  token dereferenced, more than 100 alternatives, a total weight of 0, an argument vector beyond its maximum),
  `TooDeep` for one that includes more deeply than the given bound. */
  datatype Run = Done(state: State, ok: bool) | Crash | TooDeep

  const FILES: string := "sknobs.files"
  const DEFINES: string := "sknobs.defines"
  const UNDEFINES: string := "sknobs.undefines"
  const SEED: string := "seed"
  const ONE: string := "1"
  const MAX_ARGV_SIZE: nat := 100000
  const TWO32: nat := 0x1_0000_0000

  // ---- Seeds ----

  /** sknobs_set_value */
  function SetValue(w: World, db: Db, name: string, value: nat): Db
    requires value < TWO64
  {
    SetString(w, db, name, PrintLLD(value))
  }

  /** sknobs_set_seed: only the first call has any effect. */
  function SetSeed(w: World, st: State, seed: nat): State
    requires seed < TWO32
  {
    if st.dice.seed.Some? then st else State(SetValue(w, st.db, SEED, seed), Dice(Some(seed), 0))
  }

  /** sknobs_set_seed_from_string: the low 32 bits; nothing on overflow. */
  function SetSeedFromString(w: World, st: State, s: string): State {
    var p := ParseULL(s);
    if p.overflow then st else SetSeed(w, st, p.value % TWO32)
  }

  // ---- pattern=value ----

  /** The knob that records a define or an undefine. */
  function Recorded(s: string): Db {
    if HasPrefix(s, "undefine+") then [Entry(UNDEFINES, Some(s[9..]))]
    else if HasPrefix(s, "define+") then [Entry(DEFINES, Some(s[7..]))]
    else []
  }

  /** The text that is parsed as pattern=value. */
  function Body(s: string): string {
    if HasPrefix(s, "define+") then s[7..] else s
  }

  function PatternOf(body: string): string {
    FirstToken(body, "=\n")
  }

  /** Everything behind the first '=', or "1". */
  function ValueOf(body: string): string {
    if AfterToken(body, "=\n") == [] then ONE else AfterToken(body, "=\n")
  }

  predicate Rejected(s: string) {
    s == [] || s[0] == '='
  }

  /** sknobs_add_string, with the string not NULL */
  function AddString(w: World, st: State, s: string): Run {
    if Rejected(s) then Done(st, false)
    else
      var db, body := st.db + Recorded(s), Body(s);
      if !HasToken(body, "=\n") then Crash
      else if PatternOf(body) == SEED then Done(SetSeedFromString(w, st.(db := db), ValueOf(body)), true)
      else Done(st.(db := Add(w, db, PatternOf(body), Some(ValueOf(body)))), Acceptable(w, PatternOf(body)))
  }

  // ---- Arguments ----

  datatype Mode = Start | DashF | Ignore

  predicate IsDashFPair(arg: string) { HasPrefix(arg, "-f ") }

  predicate IsKnob(arg: string) { |arg| > 1 && arg[0] == '+' }

  /** How a token moves the argument machine. */
  function NextMode(mode: Mode, arg: string): Mode {
    if mode == Start && arg == "-f" then DashF else if mode == Start && arg == "-pli" then Ignore else Start
  }

  /** One argument at START that is neither `-f` nor `-pli`. */
  function LoadPlain(w: World, st: State, arg: string): Run {
    if arg == "+" then Done(st, true)
    else if IsKnob(arg) then AddString(w, st, arg[1..])
    else Done(st.(db := st.db + [Entry(FILES, Some(arg))]), true)
  }

  /** The file string that a token asks to be included, if it does. */
  function Included(mode: Mode, arg: string): Option<string> {
    if mode == DashF then Some(arg) else if mode == Start && IsDashFPair(arg) then Some(arg[3..]) else None
  }

  /** sknobs_load on the arguments behind argv[0], from a given state of the argument machine. */
  ghost function Load(w: World, st: State, mode: Mode, args: seq<string>, depth: nat): Run
    decreases depth, |args|, 1
  {
    if args == [] then Done(st, mode == Start)
    else
      match LoadOne(w, st, mode, args[0], depth)
      case Done(next, true) => Load(w, next, NextMode(mode, args[0]), args[1..], depth)
      case failed => failed
  }

  /** One turn of the argument loop. */
  ghost function LoadOne(w: World, st: State, mode: Mode, arg: string, depth: nat): Run
    decreases depth, 0, 3
  {
    var included := Included(mode, arg);
    if included.Some? then LoadDashF(w, st, included.value, depth)
    else if mode == Start && NextMode(mode, arg) == Start then LoadPlain(w, st, arg)
    else Done(st, true)
  }

  /** sknobs_load_dashf: choose a file, look it up, load it. */
  ghost function LoadDashF(w: World, st: State, files: string, depth: nat): Run
    decreases depth, 0, 2
  {
    if !ChoiceDefined(files) then Crash
    else
      var path := FindFile(w, st.db, Choose(files, Draw(w, st.dice)));
      LoadFile(w, st.(dice := AfterChoice(st.dice, files)), path, depth)
  }

  /** The C string that the contents of a file amount to. */
  function UpToNul(text: string): (s: string)
    ensures NUL !in s
  {
    text[..RunLen(text, [NUL])]
  }

  /** The arguments a file holds. */
  ghost function FileArgs(w: World, path: string): seq<string>
    requires path in w.files
  {
    Tokens(Strip(UpToNul(w.files[path])), w.delimiters)
  }

  /** sknobs_load_file */
  ghost function LoadFile(w: World, st: State, path: string, depth: nat): Run
    decreases depth, 0, 1
  {
    if path !in w.files then Done(st, false)
    else if Unclosed(UpToNul(w.files[path])) then Done(st, false)
    else if depth == 0 then TooDeep
    else LoadArgs(w, st, FileArgs(w, path), depth - 1)
  }

  /** sknobs_load on an argument vector made by sknobs_load_string; argv[0] counts. */
  ghost function LoadArgs(w: World, st: State, args: seq<string>, depth: nat): Run
    decreases depth, |args|, 2
  {
    if |args| >= MAX_ARGV_SIZE then Crash else Load(w, st, Start, args, depth)
  }

  /** The loading of a file in one equation. */
  lemma LoadFileIs(w: World, st: State, path: string, depth: nat)
    ensures LoadFile(w, st, path, depth) ==
            if path !in w.files || Unclosed(UpToNul(w.files[path])) then Done(st, false)
            else if depth == 0 then TooDeep
            else if |FileArgs(w, path)| >= MAX_ARGV_SIZE then Crash
            else Load(w, st, Start, FileArgs(w, path), depth - 1)
  {
    hide Strip, Unclosed, Tokens, UpToNul;
  }

  lemma LoadDashFIs(w: World, st: State, files: string, depth: nat)
    ensures LoadDashF(w, st, files, depth) ==
            if !ChoiceDefined(files) then Crash
            else
              var path := FindFile(w, st.db, Choose(files, Draw(w, st.dice)));
              LoadFile(w, st.(dice := AfterChoice(st.dice, files)), path, depth)
  {
    hide Strip, Unclosed, Tokens, UpToNul, FindFile, Draw, LoadFile;
  }

  /** Where the argument machine stands after some tokens. */
  function EndMode(mode: Mode, args: seq<string>): Mode
    decreases |args|
  {
    if args == [] then mode else EndMode(NextMode(mode, args[0]), args[1..])
  }

  /** Loading a list in two parts is loading the first part and then, if that succeeded, the second. */
  lemma {:induction false} LoadConcat(w: World, st: State, mode: Mode, xs: seq<string>, ys: seq<string>, depth: nat)
    requires EndMode(mode, xs) == Start
    ensures Load(w, st, mode, xs + ys, depth) ==
            match Load(w, st, mode, xs, depth)
            case Done(next, true) => Load(w, next, Start, ys, depth)
            case failed => failed
    decreases |xs|
  {
    if xs == [] {
      assert xs + ys == ys;
    } else {
      assert (xs + ys)[0] == xs[0] && (xs + ys)[1..] == xs[1..] + ys;
      var first := LoadOne(w, st, mode, xs[0], depth);
      if first.Done? && first.ok {
        LoadConcat(w, first.state, NextMode(mode, xs[0]), xs[1..], ys, depth);
      }
    }
  }
}
