/** Answers: what `sknobs_get_dynamic_value` and `sknobs_get_value` say. */
module Values {
  import opened Text
  import opened Numbers
  import opened World
  import opened Random
  import opened Eval
  import opened Expressions
  import opened Knobs
  import opened Loader
  import opened Replay
  import opened SavedTableModule

  /** sknobs_get_dynamic_value: the answer and the generator afterwards. */
  function GetDynamic(w: World, st: State, name: string, default: nat): (r: Option<(nat, Dice)>)
    requires default < TWO64
    ensures r.Some? ==> r.value.0 < TWO64
  {
    var expr := GetString(w, st.db, name, None);
    if expr == None then Some((default, st.dice)) else Evaluate(w, st.dice, expr.value)
  }

  /** A knob whose value is NULL answers like no knob at all. */
  lemma NullIsDefault(w: World, st: State, pattern: string, name: string, default: nat)
    requires Matches(w, pattern, name) && default < TWO64
    ensures GetDynamic(w, st.(db := st.db + [Entry(pattern, None)]), name, default) == Some((default, st.dice))
  {
    hide Matches, LastMatch, Evaluate;
    LastMatchSnoc(w, st.db, Entry(pattern, None), name);
  }

  /** Every 64-bit word that can be set at all is read back as it was, whatever the default, drawing nothing. */
  lemma SetValueThenGet(w: World, st: State, name: string, value: nat, default: nat)
    requires value < TWO64 && default < TWO64 && Settable(w, st.db, name)
    ensures GetDynamic(w, st.(db := SetValue(w, st.db, name, value)), name, default) == Some((value, st.dice))
  {
    SetThenGet(w, st.db, name, PrintLLD(value));
    EvaluateLLD(w, st.dice, value);
  }

  /** Otherwise what is set is lost: the default comes back. */
  lemma UnsettableIsLost(w: World, st: State, name: string, value: nat, default: nat)
    requires value < TWO64 && default < TWO64 && !Settable(w, st.db, name)
    ensures GetDynamic(w, st.(db := SetValue(w, st.db, name, value)), name, default) == Some((default, st.dice))
  {
    SetStringChanges(w, st.db, name, PrintLLD(value), name, None);
  }

  /** There are such names: as a pattern, `a\b` matches `ab` only. */
  lemma BackslashIsLost(w: World, dice: Dice, value: nat, default: nat)
    requires value < TWO64 && default < TWO64
    ensures var name := "a\\b";
            !Settable(w, [], name) &&
            GetDynamic(w, State(SetValue(w, [], name, value), dice), name, default) == Some((default, dice))
  {
    var name := "a\\b";
    assert name[1..] == "\\b" && name[1..][0] == '\\' && name[1..][1] == 'b';
    assert !Matches(w, name, name);
    UnsettableIsLost(w, State([], dice), name, value, default);
  }

  // ---- Cached answers ----

  /** Cached names are plain words, each cached once. */
  ghost predicate PlainNames(saved: seq<Saved>) {
    && (forall s | s in saved :: IsLiteral(s.name))
    && (forall i, j | 0 <= i < j < |saved| :: saved[i].name != saved[j].name)
  }

  /** The last match of a name is the knob with that very pattern, holding this word. */
  ghost predicate Held(w: World, db: Db, name: string, value: Word) {
    var k := LastMatch(w, db, name);
    k >= 0 && db[k] == Entry(name, Some(PrintLLD(value)))
  }

  lemma HeldAnswers(w: World, st: State, name: string, value: Word, default: nat)
    requires Held(w, st.db, name, value) && default < TWO64
    ensures GetDynamic(w, st, name, default) == Some((value, st.dice))
  {
    hide LastMatch, Evaluate;
    EvaluateLLD(w, st.dice, value);
  }

  lemma AppendKeepsHeld(w: World, db: Db, e: Entry, name: string, value: Word)
    requires Held(w, db, name, value) && !Matches(w, e.pattern, name)
    ensures Held(w, db + [e], name, value)
  {
    hide LastMatch;
    LastMatchSnoc(w, db, e, name);
  }

  /** The seed setter writes to a knob that matches `seed`, which the knob of another plain word does not. */
  lemma SeedKeepsHeld(w: World, st: State, text: string, name: string, value: Word)
    requires Held(w, st.db, name, value) && IsLiteral(name) && name != SEED
    ensures Held(w, SetSeedFromString(w, st, text).db, name, value)
  {
    hide LastMatch, Matches, IsLiteral, ParseULL, PrintLLD, Held;
    var p := ParseULL(text);
    if !p.overflow && st.dice.seed == None {
      SetSeedWordKeepsHeld(w, st.db, p.value % TWO32, name, value);
    }
  }

  lemma SetSeedWordKeepsHeld(w: World, db: Db, word: Word, name: string, value: Word)
    requires Held(w, db, name, value) && IsLiteral(name) && name != SEED
    ensures Held(w, SetValue(w, db, SEED, word), name, value)
  {
    hide LastMatch, Matches, PrintLLD;
    LiteralMatchesItself(w, name, SEED);
    LiteralMatchesItself(w, SEED, name);
    var k := LastMatch(w, db, SEED);
    if k >= 0 {
      LastMatchByPatterns(w, db, SetValue(w, db, SEED, word), name);
    } else {
      LastMatchSnoc(w, db, Entry(SEED, Some(PrintLLD(word))), name);
    }
  }

  lemma OtherKeepsHeld(w: World, st: State, s: Saved, name: string, value: Word)
    requires Held(w, st.db, name, value) && IsLiteral(name) && name != SEED
    requires IsLiteral(s.name) && s.name != name
    ensures Held(w, RestoreOne(w, st, SavedRecord(s)).db, name, value)
  {
    hide Held, Matches, IsLiteral, SetSeedFromString, PrintLLD;
    var r := SavedRecord(s);
    if s.name == SEED {
      SeedKeepsHeld(w, st, ReloadedText(r.value), name, value);
    } else {
      LiteralMatchesItself(w, s.name, name);
      AppendKeepsHeld(w, st.db, Reloaded(r), name, value);
    }
  }

  lemma {:induction false} OthersKeepHeld(w: World, st: State, saved: seq<Saved>, name: string, value: Word)
    requires Held(w, st.db, name, value) && IsLiteral(name) && name != SEED
    requires forall s | s in saved :: IsLiteral(s.name) && s.name != name
    ensures Held(w, RestoreAll(w, st, SavedRecords(saved)).db, name, value)
    decreases |saved|
  {
    hide Held, IsLiteral, RestoreOne, RestoreAll, SavedRecord, SavedRecords;
    if saved == [] {
      RestoreNothing(w, st);
    } else {
      OtherKeepsHeld(w, st, saved[0], name, value);
      RestoreHead(w, st, saved);
      OthersKeepHeld(w, RestoreOne(w, st, SavedRecord(saved[0])), saved[1..], name, value);
    }
  }

  lemma RestoreNothing(w: World, st: State)
    ensures RestoreAll(w, st, SavedRecords([])) == st
  {
  }

  lemma SavedTail(saved: seq<Saved>)
    requires saved != []
    ensures SavedRecords(saved)[0] == SavedRecord(saved[0]) && SavedRecords(saved)[1..] == SavedRecords(saved[1..])
  {
  }

  lemma WordAppendedIsHeld(w: World, st: State, s: Saved)
    requires IsLiteral(s.name) && s.name != SEED
    ensures Held(w, RestoreOne(w, st, SavedRecord(s)).db, s.name, s.value)
  {
    hide LastMatch, Matches, IsLiteral, PrintLLD;
    LiteralMatchesItself(w, s.name, s.name);
    LastMatchSnoc(w, st.db, Reloaded(SavedRecord(s)), s.name);
  }

  lemma PlainTail(saved: seq<Saved>)
    requires PlainNames(saved) && saved != []
    ensures IsLiteral(saved[0].name) && PlainNames(saved[1..])
    ensures forall s | s in saved[1..] :: IsLiteral(s.name) && s.name != saved[0].name
  {
    hide IsLiteral;
    var rest := saved[1..];
    assert saved[0] in saved;
    assert forall i | 0 <= i < |rest| :: rest[i] == saved[i + 1];
  }

  lemma RestoreHead(w: World, st: State, saved: seq<Saved>)
    requires saved != []
    ensures RestoreAll(w, st, SavedRecords(saved)) ==
            RestoreAll(w, RestoreOne(w, st, SavedRecord(saved[0])), SavedRecords(saved[1..]))
  {
    hide RestoreOne, SavedRecord;
    SavedTail(saved);
  }

  /** Once the saved values have been read back, a cached name is last matched by the knob it was saved in. */
  lemma {:induction false} SavedIsHeld(w: World, st: State, saved: seq<Saved>, i: nat)
    requires PlainNames(saved) && i < |saved| && saved[i].name != SEED
    ensures Held(w, RestoreAll(w, st, SavedRecords(saved)).db, saved[i].name, saved[i].value)
    decreases |saved|
  {
    hide Held, IsLiteral, RestoreOne, RestoreAll, SavedRecord, SavedRecords, PlainNames;
    PlainTail(saved);
    RestoreHead(w, st, saved);
    var next := RestoreOne(w, st, SavedRecord(saved[0]));
    if i == 0 {
      WordAppendedIsHeld(w, st, saved[0]);
      OthersKeepHeld(w, next, saved[1..], saved[0].name, saved[0].value);
    } else {
      SavedIsHeld(w, next, saved[1..], i - 1);
    }
  }

  /** After a save file has been loaded, every cached name but `seed` answers what it answered before, for any
  default and any random source, drawing nothing, whatever else was saved. */
  lemma CachedAnswersSurvive(w: World, records: seq<Record>, saved: seq<Saved>, i: nat, default: nat)
    requires PlainNames(saved) && i < |saved| && saved[i].name != SEED && default < TWO64
    ensures var restored := RestoreAll(w, EMPTY, records + SavedRecords(saved));
            GetDynamic(w, restored, saved[i].name, default) == Some((saved[i].value, restored.dice))
  {
    hide Held, RestoreAll, GetDynamic;
    RestoreConcat(w, EMPTY, records, SavedRecords(saved));
    SavedIsHeld(w, RestoreAll(w, EMPTY, records), saved, i);
    HeldAnswers(w, RestoreAll(w, EMPTY, records + SavedRecords(saved)), saved[i].name, saved[i].value, default);
  }
}
