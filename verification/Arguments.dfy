/** What arguments and knob texts do, form by form, in their own words. */
module Arguments {
  import opened Text
  import opened Numbers
  import opened Numerals
  import opened World
  import opened Comments
  import opened Random
  import opened Choice
  import opened Items
  import opened Knobs
  import opened Loader
  import opened Replay

  // ---- Knob texts ----

  /** A name as it can stand in front of an '='. */
  predicate IsKnobName(name: string) {
    name != [] && forall c | c in name :: c != '=' && c != '\n'
  }

  /** Is this name taken for a regular expression that does not compile? */
  predicate Refused(w: World, name: string) {
    |name| > 1 && name[0] == '+' && !w.compiles(name[1..])
  }

  /** The value of a text: what is behind the first '=', "1" if that is nothing. */
  function Given(value: string): string {
    if value == [] then "1" else value
  }

  lemma TextParses(name: string, value: string)
    requires IsKnobName(name)
    ensures var s := name + ['='] + value;
            HasToken(s, "=\n") && PatternOf(s) == name && ValueOf(s) == Given(value)
    ensures HasToken(name, "=\n") && PatternOf(name) == name && ValueOf(name) == "1"
  {
    hide Tokens;
    assert IsToken(name, "=\n");
    TokensCons(name, '=', value, "=\n");
    TokensOne(name, "=\n");
  }

  lemma NotSpecial(name: string, value: string)
    requires IsKnobName(name) && !HasPrefix(name, "define+") && !HasPrefix(name, "undefine+")
    ensures var s := name + ['='] + value; Recorded(s) == [] && Body(s) == s && !Rejected(s)
    ensures Recorded(name) == [] && Body(name) == name && !Rejected(name)
  {
    var s := name + ['='] + value;
    assert s[0] == name[0] && name[0] in name;
    if HasPrefix(s, "define+") { PrefixInsidePattern(name, value, "define+"); }
    if HasPrefix(s, "undefine+") { PrefixInsidePattern(name, value, "undefine+"); }
  }

  /** `name=value` adds that knob, and `name` alone one with the value "1"; a regular expression that does not compile
  is an error, and nothing is added. */
  lemma KnobIsAdded(w: World, st: State, name: string, value: string)
    requires IsKnobName(name) && name != "seed"
    requires !HasPrefix(name, "define+") && !HasPrefix(name, "undefine+")
    ensures AddString(w, st, name + ['='] + value) ==
            if Refused(w, name) then Done(st, false)
            else Done(st.(db := st.db + [Entry(name, Some(Given(value)))]), true)
    ensures AddString(w, st, name) ==
            if Refused(w, name) then Done(st, false) else Done(st.(db := st.db + [Entry(name, Some("1"))]), true)
  {
    hide PatternOf, ValueOf, HasToken, Recorded, Body, HasPrefix, Rejected, IsKnobName;
    TextParses(name, value);
    NotSpecial(name, value);
    assert st.db + [] == st.db;
  }

  /** `define+name=value` adds the text of the define to the recorded ones, and then the knob itself. */
  lemma DefineIsAdded(w: World, st: State, name: string, value: string)
    requires IsKnobName(name) && name != "seed" && !Refused(w, name)
    ensures AddString(w, st, "define+" + (name + ['='] + value)) ==
            Done(st.(db := st.db + [Entry("sknobs.defines", Some(name + ['='] + value)),
                                    Entry(name, Some(Given(value)))]), true)
    ensures AddString(w, st, "define+" + name) ==
            Done(st.(db := st.db + [Entry("sknobs.defines", Some(name)), Entry(name, Some("1"))]), true)
  {
    hide PatternOf, ValueOf, HasToken, Recorded, Body, IsKnobName;
    TextParses(name, value);
    DefineSplits(name + ['='] + value);
    DefineSplits(name);
    DefineAdds(w, st, name + ['='] + value);
    DefineAdds(w, st, name);
  }

  /** Apart from what it records, a define does what its text does by itself, for `seed` and refused names as well. */
  lemma DefineDoesAsItsText(w: World, st: State, name: string, value: string)
    requires IsKnobName(name) && !HasPrefix(name, "define+") && !HasPrefix(name, "undefine+")
    ensures var body := name + ['='] + value;
            AddString(w, st, "define+" + body) ==
            AddString(w, st.(db := st.db + [Entry("sknobs.defines", Some(body))]), body)
  {
    hide PatternOf, ValueOf, HasToken, Recorded, Body, IsKnobName, Rejected, SetSeedFromString, Add;
    var body := name + ['='] + value;
    TextParses(name, value);
    NotSpecial(name, value);
    DefineSplits(body);
    assert st.db + [Entry("sknobs.defines", Some(body))] + [] == st.db + [Entry("sknobs.defines", Some(body))];
  }

  /** A text without a name has no meaning: the program would use a token that is not there. */
  lemma NamelessIsUndefined(w: World, st: State)
    ensures AddString(w, st, "\n") == AddString(w, st, "define+") == Crash
  {
    hide SetSeedFromString, Add;
    assert "define+"[7..] == [];
    NoName("\n");
    NoName("");
    assert !HasPrefix("\n", "define+");
  }

  lemma NoName(s: string)
    requires s == "\n" || s == ""
    ensures !HasToken(s, "=\n")
  {
  }

  lemma DefineSplits(body: string)
    ensures var s := "define+" + body;
            !Rejected(s) && Body(s) == body && Recorded(s) == [Entry("sknobs.defines", Some(body))]
  {
    var s := "define+" + body;
    assert s[..7] == "define+" && s[7..] == body;
    if |s| >= 9 { assert s[..9][0] == 'd' && "undefine+"[0] == 'u'; }
  }

  lemma DefineAdds(w: World, st: State, body: string)
    requires HasToken(body, "=\n") && PatternOf(body) != "seed" && !Refused(w, PatternOf(body))
    ensures AddString(w, st, "define+" + body) ==
            Done(st.(db := st.db + [Entry("sknobs.defines", Some(body)),
                                    Entry(PatternOf(body), Some(ValueOf(body)))]), true)
  {
    hide PatternOf, ValueOf, HasToken, Recorded, Body, Rejected;
    DefineSplits(body);
    var recorded, knob := Entry("sknobs.defines", Some(body)), Entry(PatternOf(body), Some(ValueOf(body)));
    assert st.db + [recorded] + [knob] == st.db + [recorded, knob];
  }

  /** `undefine+name` records the name, and adds the whole text as a knob besides. */
  lemma UndefineIsAdded(w: World, st: State, name: string, value: string)
    requires forall c | c in name :: c != '=' && c != '\n'
    ensures AddString(w, st, "undefine+" + name) ==
            Done(st.(db := st.db + [Entry("sknobs.undefines", Some(name)), Entry("undefine+" + name, Some("1"))]), true)
    ensures AddString(w, st, "undefine+" + (name + ['='] + value)) ==
            Done(st.(db := st.db + [Entry("sknobs.undefines", Some(name + ['='] + value)),
                                    Entry("undefine+" + name, Some(Given(value)))]), true)
  {
    hide PatternOf, ValueOf, HasToken, Recorded, Body;
    var pattern := "undefine+" + name;
    forall c | c in pattern
      ensures c != '=' && c != '\n'
    {
      assert c in "undefine+" || c in name;
    }
    TextParses(pattern, value);
    assert pattern + ['='] + value == "undefine+" + (name + ['='] + value);
    UndefineAdds(w, st, name, pattern, "1");
    UndefineAdds(w, st, name + ['='] + value, pattern, Given(value));
  }

  lemma UndefineAdds(w: World, st: State, rest: string, pattern: string, value: string)
    requires var s := "undefine+" + rest; HasToken(s, "=\n") && PatternOf(s) == pattern && ValueOf(s) == value
    requires HasPrefix(pattern, "undefine+")
    ensures AddString(w, st, "undefine+" + rest) ==
            Done(st.(db := st.db + [Entry("sknobs.undefines", Some(rest)), Entry(pattern, Some(value))]), true)
  {
    hide PatternOf, ValueOf, HasToken;
    var s := "undefine+" + rest;
    assert s[..9] == "undefine+" && s[9..] == rest;
    assert s[0] == 'u' && pattern[..9][0] == 'u';
    if HasPrefix(s, "define+") { PrefixFirst(s, "define+"); }
    var recorded, knob := Entry("sknobs.undefines", Some(rest)), Entry(pattern, Some(value));
    assert st.db + [recorded] + [knob] == st.db + [recorded, knob];
  }

  lemma PrefixFirst(s: string, p: string)
    requires HasPrefix(s, p) && p != []
    ensures s[0] == p[0]
  {
  }

  /** Empty texts and texts that begin with '=' are errors, and nothing is added. */
  lemma EmptyNameIsError(w: World, st: State, rest: string)
    ensures AddString(w, st, "") == AddString(w, st, "=" + rest) == Done(st, false)
  {
  }

  /** `seed=n` sets the seed to the low 32 bits of n, if it has not been set, and the knob `seed` with it; a number that
  is too large is left unset, without an error. */
  lemma SeedIsSet(w: World, st: State, b: Base, n: nat)
    requires st.dice.seed == None
    ensures AddString(w, st, "seed=" + PrintIn(b, n)) ==
            if n >= 0x1_0000_0000_0000_0000 then Done(st, true)
            else
              var seed := n % 0x1_0000_0000;
              Done(State(SetString(w, st.db, "seed", PrintIn(Decimals, seed)), Dice(Some(seed), 0)), true)
  {
    hide PatternOf, ValueOf, HasToken, Recorded, Body, Rejected, ParseULL, PrintIn, SetString;
    var text := PrintIn(b, n);
    SeedText(w, st, text);
    ParseOfPrintIn(b, n);
    PrintIsSigned(n % 0x1_0000_0000);
    PrintIsSome(b, n);
  }

  lemma PrintIsSome(b: Base, n: nat)
    ensures PrintIn(b, n) != []
  {
  }

  lemma SeedText(w: World, st: State, text: string)
    ensures AddString(w, st, "seed=" + text) == Done(SetSeedFromString(w, st, Given(text)), true)
  {
    hide PatternOf, ValueOf, HasToken, Recorded, Body, Rejected, SetSeedFromString;
    TextParses("seed", text);
    assert "seed" + ['='] + text == "seed=" + text;
    NotSpecial("seed", text);
    assert st.db + [] == st.db;
  }

  // ---- Arguments, one by one ----

  /** How a run goes on behind an argument. */
  ghost function Then(w: World, run: Run, rest: seq<string>, depth: nat): Run {
    if run.Done? && run.ok then Load(w, run.state, Start, rest, depth) else run
  }

  lemma LoadFirst(w: World, st: State, mode: Mode, arg: string, rest: seq<string>, depth: nat)
    ensures var run := LoadOne(w, st, mode, arg, depth);
            Load(w, st, mode, [arg] + rest, depth) ==
            if run.Done? && run.ok then Load(w, run.state, NextMode(mode, arg), rest, depth) else run
  {
    hide LoadOne, NextMode;
    assert ([arg] + rest)[1..] == rest;
  }

  /** `+text` adds the text; a lone `+` is passed over. */
  lemma PlusAdds(w: World, st: State, text: string, rest: seq<string>, depth: nat)
    ensures Load(w, st, Start, ["+" + text] + rest, depth) ==
            Then(w, if text == [] then Done(st, true) else AddString(w, st, text), rest, depth)
  {
    hide AddString;
    var arg := "+" + text;
    assert arg[1..] == text && arg[0] == '+';
    if |arg| >= 3 { assert arg[..3][0] == '+' && "-f "[0] == '-'; }
    assert NextMode(Start, arg) == Start && Included(Start, arg) == None;
    LoadFirst(w, st, Start, arg, rest, depth);
  }

  /** `-f files`, in two arguments or in one, includes a file. */
  lemma DashFIncludes(w: World, st: State, files: string, rest: seq<string>, depth: nat)
    ensures Load(w, st, Start, ["-f", files] + rest, depth) == Then(w, LoadDashF(w, st, files, depth), rest, depth)
    ensures Load(w, st, Start, ["-f " + files] + rest, depth) == Then(w, LoadDashF(w, st, files, depth), rest, depth)
  {
    hide LoadDashF;
    assert ["-f", files] + rest == ["-f"] + ([files] + rest);
    LoadFirst(w, st, Start, "-f", [files] + rest, depth);
    assert Included(Start, "-f") == None;
    LoadFirst(w, st, DashF, files, rest, depth);
    var pair := "-f " + files;
    assert pair[..3] == "-f " && pair[3..] == files;
    assert pair != "-f" && pair[1] == 'f' && "-pli"[1] == 'p';
    LoadFirst(w, st, Start, pair, rest, depth);
  }

  /** `-pli` and the argument behind it, whatever it is, are passed over. */
  lemma PliIsPassedOver(w: World, st: State, arg: string, rest: seq<string>, depth: nat)
    ensures Load(w, st, Start, ["-pli", arg] + rest, depth) == Load(w, st, Start, rest, depth)
  {
    assert ["-pli", arg] + rest == ["-pli"] + ([arg] + rest);
    assert "-pli"[..3][1] == 'p' && "-f "[1] == 'f';
    LoadFirst(w, st, Start, "-pli", [arg] + rest, depth);
    LoadFirst(w, st, Ignore, arg, rest, depth);
  }

  /** Without an argument behind them, `-f` and `-pli` are errors. */
  lemma NothingBehind(w: World, st: State, depth: nat)
    ensures Load(w, st, Start, ["-f"], depth) == Load(w, st, Start, ["-pli"], depth) == Done(st, false)
    ensures Load(w, st, Start, [], depth) == Done(st, true)
  {
    assert "-pli"[..3][1] == 'p' && "-f "[1] == 'f';
    assert ["-f"] == ["-f"] + [] && ["-pli"] == ["-pli"] + [];
    LoadFirst(w, st, Start, "-f", [], depth);
    LoadFirst(w, st, Start, "-pli", [], depth);
  }

  /** Every other argument is recorded as a file. */
  lemma OthersAreFiles(w: World, st: State, arg: string, rest: seq<string>, depth: nat)
    requires arg != "-f" && arg != "-pli" && !HasPrefix(arg, "-f ") && !HasPrefix(arg, "+")
    ensures Load(w, st, Start, [arg] + rest, depth) ==
            Load(w, st.(db := st.db + [Entry("sknobs.files", Some(arg))]), Start, rest, depth)
  {
    if arg != [] { assert arg[..1] == [arg[0]]; }
    LoadFirst(w, st, Start, arg, rest, depth);
  }

  // ---- Files ----

  /** Which file is included: the name of one item of a weighted list, chosen by a draw unless the total weight is 1,
  and looked up along the search path. */
  lemma FileIsChosen(w: World, st: State, items: seq<Item>, depth: nat) returns (k: nat)
    requires (forall a | a in items :: ItemOk(a)) && ChoiceDefined(PrintItems(items))
    ensures Total(WeightsOf(items)) != 0 && k == Selected(WeightsOf(items), Draw(w, st.dice)) < |items|
    ensures var after := if Total(WeightsOf(items)) == 1 then st.dice else st.dice.(calls := st.dice.calls + 4);
            LoadDashF(w, st, PrintItems(items), depth) ==
            LoadFile(w, st.(dice := after), FindFile(w, st.db, items[k].name), depth)
  {
    hide ChoiceDefined, NeedsDraw, Choose, Selected, LoadDashF, LoadFile, FindFile, Draw, ItemOk;
    k := ChooseItem(items, Draw(w, st.dice));
    LoadDashFIs(w, st, PrintItems(items), depth);
  }

  /** A single name is included without a draw. */
  lemma OneFileIsLoaded(w: World, st: State, name: string, depth: nat)
    requires IsName(name) && |name| < 8192
    ensures LoadDashF(w, st, name, depth) == LoadFile(w, st, FindFile(w, st.db, name), depth)
  {
    hide ChoiceDefined, LoadDashF, LoadFile, FindFile, Draw, IsName, Selected;
    var items := [Item(name, None)];
    OneItem(name);
    ChoiceDefinedIff(items);
    var k := FileIsChosen(w, st, items, depth);
  }

  lemma OneItem(name: string)
    ensures var items := [Item(name, None)];
            PrintItems(items) == name && Sum(WeightsOf(items)) == 1 && Total(WeightsOf(items)) == 1
  {
    var item := Item(name, None);
    assert [item][1..] == [];
    assert PrintItem(item) == name + [] == name;
    assert PrintAll([item]) == [name] + [];
    var ws := WeightsOf([item]);
    assert ws == [1] && ws[..0] == [] && ws[..1] == ws;
    SumStep(ws, 0);
  }

  /** A file that is not there is an error, and so is one with a comment left open; nothing is added. */
  lemma UnreadableIsError(w: World, st: State, path: string, depth: nat)
    requires path in w.files ==> NUL !in w.files[path] && Unclosed(w.files[path])
    ensures LoadFile(w, st, path, depth) == Done(st, false)
  {
    hide LoadFile, Unclosed, FileArgs, Load;
    LoadFileIs(w, st, path, depth);
    if path in w.files { UpToNulIs(w.files[path], []); }
  }

  /** The contents of a file end at its first NUL. */
  lemma UpToNulIs(text: string, rest: string)
    requires NUL !in text
    ensures UpToNul(text) == text && UpToNul(text + [NUL] + rest) == text
  {
    RunUnique(text, [NUL], |text|);
    var s := text + [NUL] + rest;
    assert forall i | 0 <= i < |text| :: s[i] == text[i] && text[i] in text;
    RunUnique(s, [NUL], |text|);
    assert s[..|text|] == text && text[..|text|] == text;
  }

  /** Otherwise what is loaded are its tokens, comments blanked, up to 99999 of them. */
  lemma FileIsItsTokens(w: World, st: State, path: string, text: string, depth: nat)
    requires path in w.files && NUL !in text && !Unclosed(text)
    requires w.files[path] == text || exists rest :: w.files[path] == text + [NUL] + rest
    ensures LoadFile(w, st, path, depth + 1) ==
            if |Tokens(Strip(text), w.delimiters)| >= 100000 then Crash
            else Load(w, st, Start, Tokens(Strip(text), w.delimiters), depth)
  {
    hide LoadFile, Unclosed, Tokens, Strip, Load, UpToNul;
    LoadFileIs(w, st, path, depth + 1);
    if w.files[path] == text {
      UpToNulIs(text, []);
    } else {
      var rest :| w.files[path] == text + [NUL] + rest;
      UpToNulIs(text, rest);
    }
  }
}
