/** The ways in which a value can come into the engine, and that it answers with that value. */
module Routes {
  import opened Text
  import opened Numbers
  import Numerals
  import opened World
  import Comments
  import opened Eval
  import opened Expressions
  import opened Knobs
  import opened Loader
  import opened Arguments
  import opened Values
  import opened Runs

  /** A name that every way in takes as it is. */
  predicate IsOrdinary(name: string) {
    && IsLiteral(name) && IsKnobName(name) && name != "seed"
    && !HasPrefix(name, "define+") && !HasPrefix(name, "undefine+")
  }

  /** A call that gives `name` the value `text`, directly, as a knob text, as an argument, or from a file. */
  ghost predicate Gives(w: World, c: Call, name: string, text: string) {
    match c
    case AddKnob(pattern, value) => pattern == name && value == Some(text)
    case AddText(s) => s == name + "=" + text
    case SetText(n, s) => n == name && s == text
    case LoadArguments(args) => args == ["+" + (name + "=" + text)]
    case LoadFrom(path) => path in w.files && Holds(w, w.files[path], "+" + (name + "=" + text))
    case _ => false
  }

  /** A file that holds one argument and nothing else. */
  ghost predicate Holds(w: World, contents: string, arg: string) {
    contents == arg && IsToken(arg, w.delimiters) && Comments.CommentFree(arg) && NUL !in arg
  }

  lemma LiteralIsTaken(name: string)
    requires IsOrdinary(name)
    ensures name != [] && name[0] != '+'
  {
  }

  lemma TextGives(w: World, st: State, name: string, text: string)
    requires IsOrdinary(name) && text != []
    ensures AddString(w, st, name + "=" + text) == Done(st.(db := st.db + [Entry(name, Some(text))]), true)
  {
    hide AddString;
    LiteralIsTaken(name);
    KnobIsAdded(w, st, name, text);
  }

  lemma ArgumentGives(w: World, st: State, name: string, text: string, depth: nat)
    requires IsOrdinary(name) && text != []
    ensures Load(w, st, Start, ["+" + (name + "=" + text)], depth) ==
            Done(st.(db := st.db + [Entry(name, Some(text))]), true)
  {
    hide AddString, Load, IsOrdinary;
    TextGives(w, st, name, text);
    var arg := "+" + (name + "=" + text);
    PlusAdds(w, st, name + "=" + text, [], depth);
    assert [arg] + [] == [arg];
    NothingBehind(w, st.(db := st.db + [Entry(name, Some(text))]), depth);
  }

  lemma FileGives(w: World, st: State, path: string, name: string, text: string, depth: nat)
    requires IsOrdinary(name) && text != [] && depth > 0
    requires path in w.files && Holds(w, w.files[path], "+" + (name + "=" + text))
    ensures LoadFile(w, st, path, depth) == Done(st.(db := st.db + [Entry(name, Some(text))]), true)
  {
    hide Load, LoadFile, IsOrdinary, Comments.Strip, Comments.Unclosed, Comments.CommentFree, Tokens, IsToken;
    var arg := "+" + (name + "=" + text);
    Comments.CommentFreeIsKept(arg);
    TokensOne(arg, w.delimiters);
    FileIsItsTokens(w, st, path, arg, depth - 1);
    ArgumentGives(w, st, name, text, depth - 1);
  }

  /** Whichever way it comes in, a later question for the name finds it. */
  lemma GivenIsFound(w: World, m: Machine, c: Call, name: string, text: string, depth: nat)
    requires IsOrdinary(name) && text != [] && depth > 0 && Gives(w, c, name, text) && CallOk(c)
    ensures Step(w, m, c, depth).Some?
    ensures var (next, answer) := Step(w, m, c, depth).value;
            && answer == None && next.cache == m.cache && next.st.dice == m.st.dice
            && GetString(w, next.st.db, name, None) == Some(text)
  {
    hide AddString, Load, LoadFile, Matches, LastMatch, IsLiteral, Gives;
    LiteralMatchesItself(w, name, name);
    LastMatchSnoc(w, m.st.db, Entry(name, Some(text)), name);
    LiteralIsTaken(name);
    GivenAs(w, c, name, text);
    match c
    case AddKnob(pattern, value) =>
    case AddText(s) => TextGives(w, m.st, name, text);
    case SetText(n, s) =>
      LiteralIsSettable(w, m.st.db, name);
      SetThenGet(w, m.st.db, name, text);
    case LoadArguments(args) => ArgumentGives(w, m.st, name, text, depth);
    case LoadFrom(path) => FileGives(w, m.st, path, name, text, depth);
  }

  lemma GivenAs(w: World, c: Call, name: string, text: string)
    requires Gives(w, c, name, text)
    ensures c.AddKnob? || c.AddText? || c.SetText? || c.LoadArguments? || c.LoadFrom?
    ensures c.AddKnob? ==> c.pattern == name && c.value == Some(text)
    ensures c.AddText? ==> c.text == name + "=" + text
    ensures c.SetText? ==> c.name == name && c.text == text
    ensures c.LoadArguments? ==> c.args == ["+" + (name + "=" + text)]
    ensures c.LoadFrom? ==> c.path in w.files && Holds(w, w.files[c.path], "+" + (name + "=" + text))
  {
  }

  /** A number given in any way and in any base is what both questions for it answer, and nothing is drawn; the first
  answer of the remembering one is kept. */
  lemma GivenIsAnswered(w: World, m: Machine, c: Call, name: string, b: Numerals.Base, n: nat, default: nat, depth: nat)
    requires IsOrdinary(name) && depth > 0 && CallOk(c) && Gives(w, c, name, Numerals.PrintIn(b, n))
    requires n < 0x1_0000_0000_0000_0000 && default < TWO64 && name !in m.cache
    ensures var calls := [c, Dynamic(name, default), Value(name, default)];
            && (forall c | c in calls :: CallOk(c))
            && RunAll(w, m, calls, depth).Some?
            && RunAll(w, m, calls, depth).value.1 == [None, Some(n), Some(n)]
            && RunAll(w, m, calls, depth).value.0.st.dice == m.st.dice
            && RunAll(w, m, calls, depth).value.0.cache == m.cache[name := n]
  {
    hide Numerals.PrintIn, Gives, IsOrdinary, Step, RunAll, LastMatch, Evaluate;
    var text := Numerals.PrintIn(b, n);
    PrintIsSome(b, n);
    GivenIsFound(w, m, c, name, text, depth);
    var next := Step(w, m, c, depth).value.0;
    Numerals.NumeralIsShort(b, n);
    EvaluateNumeral(w, next.st.dice, b, n);
    var asked := QuestionsAnswer(w, next, name, default, n, depth);
    var calls := [c, Dynamic(name, default), Value(name, default)];
    assert calls[1..][1..][1..] == [];
    RunOne(w, m, calls, depth);
    RunOne(w, next, calls[1..], depth);
    RunOne(w, next, calls[1..][1..], depth);
    RunNone(w, asked, depth);
    var none: Option<nat> := None;
    assert [none] + ([Some(n)] + ([Some(n)] + [])) == [none, Some(n), Some(n)];
  }

  lemma QuestionsAnswer(w: World, m: Machine, name: string, default: nat, n: nat, depth: nat) returns (next: Machine)
    requires default < TWO64 && n < TWO64 && name !in m.cache
    requires GetDynamic(w, m.st, name, default) == Some((n, m.st.dice))
    ensures next == m.(cache := m.cache[name := n])
    ensures CallOk(Dynamic(name, default)) && Step(w, m, Dynamic(name, default), depth) == Some((m, Some(n)))
    ensures CallOk(Value(name, default)) && Step(w, m, Value(name, default), depth) == Some((next, Some(n)))
  {
    hide GetDynamic;
    next := m.(cache := m.cache[name := n]);
  }

  lemma RunNone(w: World, m: Machine, depth: nat)
    ensures RunAll(w, m, [], depth) == Some((m, []))
  {
  }

  lemma RunOne(w: World, m: Machine, calls: seq<Call>, depth: nat)
    requires calls != [] && (forall c | c in calls :: CallOk(c)) && Step(w, m, calls[0], depth).Some?
    ensures var (next, answer) := Step(w, m, calls[0], depth).value;
            RunAll(w, m, calls, depth) ==
              match RunAll(w, next, calls[1..], depth)
              case None => None
              case Some((last, answers)) => Some((last, [answer] + answers))
  {
    hide Step, CallOk;
  }
}
