/** Whole runs of the engine, and what the saved-value table promises over them. */
module Runs {
  import opened Text
  import opened Numbers
  import opened World
  import opened Random
  import opened Knobs
  import opened Loader
  import opened Eval
  import opened Seeds
  import opened Values

  /** The engine between two calls: what loading works on, and the values already given out. */
  datatype Machine = Machine(st: State, cache: map<string, Word>)

  datatype Call =
    | AddKnob(pattern: string, value: Option<string>)
    | AddText(text: string)
    | SetText(name: string, text: string)
    | SetWord(name: string, word: nat)
    | SeedWith(seed: nat)
    | LoadArguments(args: seq<string>)
    | LoadFrom(path: string)
    | Dynamic(name: string, default: nat)
    | Value(name: string, default: nat)

  predicate CallOk(c: Call) {
    match c
    case SetWord(_, word) => word < TWO64
    case SeedWith(seed) => seed < TWO32
    case Dynamic(_, default) => default < TWO64
    case Value(_, default) => default < TWO64
    case _ => true
  }

  /** sknobs_get_value */
  function GetValue(w: World, m: Machine, name: string, default: nat): (r: Option<(Machine, nat)>)
    requires default < TWO64
    ensures r.Some? ==> name in r.value.0.cache && r.value.0.cache[name] == r.value.1
    ensures r.Some? ==> r.value.0.cache.Keys == m.cache.Keys + {name}
    ensures r.Some? ==> forall n | n in m.cache :: r.value.0.cache[n] == m.cache[n]
  {
    if name in m.cache then Some((m, m.cache[name]))
    else
      match GetDynamic(w, m.st, name, default)
      case None => None
      case Some((v, dice)) => Some((Machine(m.st.(dice := dice), m.cache[name := v]), v))
  }

  /** One call: the engine afterwards and the answer, if the call has one. `None` for an undefined run. */
  ghost function Step(w: World, m: Machine, c: Call, depth: nat): Option<(Machine, Option<nat>)>
    requires CallOk(c)
  {
    match c
    case AddKnob(p, v) => Some((m.(st := m.st.(db := Add(w, m.st.db, p, v))), None))
    case AddText(s) => AfterRun(m, AddString(w, m.st, s))
    case SetText(n, s) => Some((m.(st := m.st.(db := SetString(w, m.st.db, n, s))), None))
    case SetWord(n, v) => Some((m.(st := m.st.(db := SetValue(w, m.st.db, n, v))), None))
    case SeedWith(s) => Some((m.(st := SetSeed(w, m.st, s)), None))
    case LoadArguments(args) => AfterRun(m, Load(w, m.st, Start, args, depth))
    case LoadFrom(path) => AfterRun(m, LoadFile(w, m.st, path, depth))
    case Dynamic(n, d) =>
      (match GetDynamic(w, m.st, n, d)
       case None => None
       case Some((v, dice)) => Some((m.(st := m.st.(dice := dice)), Some(v))))
    case Value(n, d) =>
      match GetValue(w, m, n, d)
      case None => None
      case Some((m', v)) => Some((m', Some(v)))
  }

  function AfterRun(m: Machine, run: Run): Option<(Machine, Option<nat>)> {
    if run.Done? then Some((m.(st := run.state), None)) else None
  }

  /** A run: the engine at the end and all answers. */
  ghost function RunAll(w: World, m: Machine, calls: seq<Call>, depth: nat): (r: Option<(Machine, seq<Option<nat>>)>)
    requires forall c | c in calls :: CallOk(c)
    ensures r.Some? ==> |r.value.1| == |calls|
    decreases |calls|
  {
    if calls == [] then Some((m, []))
    else
      match Step(w, m, calls[0], depth)
      case None => None
      case Some((next, answer)) =>
        match RunAll(w, next, calls[1..], depth)
        case None => None
        case Some((last, answers)) => Some((last, [answer] + answers))
  }

  ghost predicate Extends(earlier: map<string, Word>, later: map<string, Word>) {
    forall n | n in earlier :: n in later && later[n] == earlier[n]
  }

  lemma StepExtends(w: World, m: Machine, c: Call, depth: nat)
    requires CallOk(c) && Step(w, m, c, depth).Some?
    ensures Extends(m.cache, Step(w, m, c, depth).value.0.cache)
    ensures c.Value? ==> c.name in Step(w, m, c, depth).value.0.cache
    ensures c.Value? ==> Step(w, m, c, depth).value.1 == Some(Step(w, m, c, depth).value.0.cache[c.name])
  {
    hide Load, LoadFile, AddString, SetString, SetValue, SetSeed, GetDynamic;
  }

  /** Every get_value answer is what the table holds at the end. */
  lemma {:induction false} AnswersAreInTheTable(w: World, m: Machine, calls: seq<Call>, depth: nat, i: nat)
    requires forall c | c in calls :: CallOk(c)
    requires RunAll(w, m, calls, depth).Some? && i <= |calls|
    ensures Extends(m.cache, RunAll(w, m, calls, depth).value.0.cache)
    ensures i < |calls| && calls[i].Value? ==>
              var (last, answers) := RunAll(w, m, calls, depth).value;
              calls[i].name in last.cache && answers[i] == Some(last.cache[calls[i].name])
    decreases |calls|
  {
    hide Step, CallOk;
    if calls != [] {
      StepExtends(w, m, calls[0], depth);
      var next := Step(w, m, calls[0], depth).value.0;
      AnswersAreInTheTable(w, next, calls[1..], depth, if i > 0 then i - 1 else 0);
    }
  }

  /** `sknobs_get_value` answers the same forever: whatever is added, set, seeded or loaded in between, all its
  answers for one name are equal, and if the name was cached before the run they equal that value. */
  lemma SameAnswerForever(w: World, m: Machine, calls: seq<Call>, depth: nat, i: nat, j: nat)
    requires forall c | c in calls :: CallOk(c)
    requires RunAll(w, m, calls, depth).Some? && i < |calls| && j < |calls|
    requires calls[i].Value? && calls[j].Value? && calls[i].name == calls[j].name
    ensures RunAll(w, m, calls, depth).value.1[i] == RunAll(w, m, calls, depth).value.1[j]
    ensures calls[i].name in m.cache ==> RunAll(w, m, calls, depth).value.1[i] == Some(m.cache[calls[i].name])
  {
    AnswersAreInTheTable(w, m, calls, depth, i);
    AnswersAreInTheTable(w, m, calls, depth, j);
  }

  lemma {:induction false} RunConcat(w: World, m: Machine, xs: seq<Call>, ys: seq<Call>, depth: nat)
    requires forall c | c in xs + ys :: CallOk(c)
    requires RunAll(w, m, xs, depth).Some?
    ensures var mid := RunAll(w, m, xs, depth).value;
            RunAll(w, m, xs + ys, depth) ==
              match RunAll(w, mid.0, ys, depth)
              case None => None
              case Some((last, answers)) => Some((last, mid.1 + answers))
    decreases |xs|
  {
    hide Step, CallOk;
    if xs == [] {
      assert xs + ys == ys;
      if RunAll(w, m, ys, depth).Some? {
        assert [] + RunAll(w, m, ys, depth).value.1 == RunAll(w, m, ys, depth).value.1;
      }
    } else {
      assert (xs + ys)[0] == xs[0] && (xs + ys)[1..] == xs[1..] + ys;
      var next := Step(w, m, xs[0], depth).value.0;
      RunConcat(w, next, xs[1..], ys, depth);
      var answer, mid := Step(w, m, xs[0], depth).value.1, RunAll(w, next, xs[1..], depth).value;
      if RunAll(w, mid.0, ys, depth).Some? {
        var answers := RunAll(w, mid.0, ys, depth).value.1;
        assert [answer] + (mid.1 + answers) == ([answer] + mid.1) + answers;
      }
    }
  }

  lemma CachedCall(w: World, m: Machine, name: string, default: nat, depth: nat)
    requires name in m.cache && default < TWO64
    ensures CallOk(Value(name, default)) && Step(w, m, Value(name, default), depth) == Some((m, Some(m.cache[name])))
  {
  }

  /** An extra call for a name that is already cached changes nothing else in the run: the other answers, the
  database, the table and the random position at the end are as they were. */
  lemma ExtraCallIsInvisible(w: World, m: Machine, before: seq<Call>, name: string, default: nat, after: seq<Call>,
                             depth: nat)
    requires forall c | c in before + after :: CallOk(c)
    requires RunAll(w, m, before + after, depth).Some? && default < TWO64
    requires RunAll(w, m, before, depth).Some? && name in RunAll(w, m, before, depth).value.0.cache
    ensures var answer := Some(RunAll(w, m, before, depth).value.0.cache[name]);
            var (last, answers) := RunAll(w, m, before + after, depth).value;
            && (forall c | c in before + ([Value(name, default)] + after) :: CallOk(c))
            && RunAll(w, m, before + ([Value(name, default)] + after), depth) ==
               Some((last, answers[..|before|] + [answer] + answers[|before|..]))
  {
    hide Step, CallOk, RunAll;
    var (mid, first) := RunAll(w, m, before, depth).value;
    var extra := [Value(name, default)] + after;
    CachedCall(w, mid, name, default, depth);
    assert forall c | c in before + extra :: c in before + after || c == Value(name, default);
    RunConcat(w, m, before, after, depth);
    RunConcat(w, m, before, extra, depth);
    CachedCallFirst(w, mid, name, default, after, depth);
    InsertBetween(first, Some(mid.cache[name]), RunAll(w, mid, after, depth).value.1);
  }

  lemma InsertBetween<T>(xs: seq<T>, x: T, ys: seq<T>)
    ensures xs + ([x] + ys) == (xs + ys)[..|xs|] + [x] + (xs + ys)[|xs|..]
  {
    assert (xs + ys)[..|xs|] == xs && (xs + ys)[|xs|..] == ys;
  }

  lemma CachedCallFirst(w: World, m: Machine, name: string, default: nat, after: seq<Call>, depth: nat)
    requires forall c | c in after :: CallOk(c)
    requires name in m.cache && default < TWO64 && RunAll(w, m, after, depth).Some?
    ensures (forall c | c in [Value(name, default)] + after :: CallOk(c))
    ensures var (last, answers) := RunAll(w, m, after, depth).value;
            RunAll(w, m, [Value(name, default)] + after, depth) == Some((last, [Some(m.cache[name])] + answers))
  {
    hide Step, CallOk;
    CachedCall(w, m, name, default, depth);
    var calls := [Value(name, default)] + after;
    assert calls[0] == Value(name, default) && calls[1..] == after;
  }

  lemma DynamicGoesOn(w: World, st: State, name: string, default: nat)
    requires default < TWO64 && GetDynamic(w, st, name, default).Some?
    ensures GoesOn(st.dice, GetDynamic(w, st, name, default).value.1)
  {
    hide LastMatch;
    var expr := GetString(w, st.db, name, None);
    if expr.Some? {
      EvaluateGoesOn(w, st.dice, expr.value);
    }
  }

  lemma EvaluateGoesOn(w: World, dice: Dice, l: string)
    requires Evaluate(w, dice, l).Some?
    ensures GoesOn(dice, Evaluate(w, dice, l).value.1)
  {
  }

  lemma AddStringGoesOn(w: World, st: State, s: string)
    requires st.dice.seed.Some? && AddString(w, st, s).Done?
    ensures GoesOn(st.dice, AddString(w, st, s).state.dice)
  {
    hide HasToken, PatternOf, ValueOf, Recorded, SetValue;
  }

  /** No call changes a seed once it is fixed, and none rewinds the random source. */
  lemma StepGoesOn(w: World, m: Machine, c: Call, depth: nat)
    requires CallOk(c) && m.st.dice.seed.Some? && Step(w, m, c, depth).Some?
    ensures GoesOn(m.st.dice, Step(w, m, c, depth).value.0.st.dice)
  {
    hide Load, LoadFile, AddString, SetString, SetValue, GetDynamic;
    match c
    case AddText(s) => AddStringGoesOn(w, m.st, s);
    case LoadArguments(args) => LoadKeepsSeed(w, m.st, Start, args, depth);
    case LoadFrom(path) => LoadFileKeepsSeed(w, m.st, path, depth);
    case Dynamic(n, d) => DynamicGoesOn(w, m.st, n, d);
    case Value(n, d) => if n !in m.cache { DynamicGoesOn(w, m.st, n, d); }
    case _ =>
  }

  /** After the seed has been determined it cannot be overridden: over any run it stays what it was, and the
  random source only moves forward. */
  lemma {:induction false} SeedIsFinal(w: World, m: Machine, calls: seq<Call>, depth: nat)
    requires forall c | c in calls :: CallOk(c)
    requires m.st.dice.seed.Some? && RunAll(w, m, calls, depth).Some?
    ensures GoesOn(m.st.dice, RunAll(w, m, calls, depth).value.0.st.dice)
    decreases |calls|
  {
    hide Step, CallOk;
    if calls != [] {
      StepGoesOn(w, m, calls[0], depth);
      SeedIsFinal(w, Step(w, m, calls[0], depth).value.0, calls[1..], depth);
    }
  }
}
