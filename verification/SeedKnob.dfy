/** The seed across sessions: the knob that holds it, what keeps that knob, and which seed a save file restores. */
module SeedKnob {
  import opened Text
  import opened Numbers
  import opened World
  import opened Random
  import opened Eval
  import opened Expressions
  import opened Knobs
  import opened Loader
  import opened SavedTableModule
  import opened Replay
  import opened Values
  import opened Growth
  import opened Runs

  // ---- The seed knob over a run ----

  /** The one knob named `seed`. */
  ghost predicate OnlySeed(db: Db, k: nat) {
    k < |db| && db[k].pattern == SEED && forall i | 0 <= i < |db| && i != k :: db[i].pattern != SEED
  }

  /** The one knob named `seed`, in front of which nothing matches that name. */
  ghost predicate IsSeedKnob(w: World, db: Db, k: nat) {
    OnlySeed(db, k) && forall i | 0 <= i < k :: !Matches(w, db[i].pattern, SEED)
  }

  /** That knob holds the seed that the generator was seeded with. */
  ghost predicate SeedHeld(w: World, st: State, k: nat) {
    && st.dice.seed.Some? && st.dice.seed.value < TWO32
    && IsSeedKnob(w, st.db, k) && st.db[k].value == Some(PrintLLD(st.dice.seed.value))
  }

  /** This is how the seed setter leaves it, if no knob matches `seed` yet. */
  lemma SetSeedMakesKnob(w: World, st: State, seed: nat)
    requires st.dice.seed == None && LastMatch(w, st.db, SEED) == -1 && seed < TWO32
    ensures SetSeed(w, st, seed).dice == Dice(Some(seed), 0) && SeedHeld(w, SetSeed(w, st, seed), |st.db|)
  {
    hide Matches, PrintLLD;
    LiteralMatchesItself(w, SEED, SEED);
  }

  lemma GrownKeepsKnob(w: World, before: State, after: State, k: nat)
    requires Grown(before, after)
    ensures IsSeedKnob(w, before.db, k) ==> IsSeedKnob(w, after.db, k) && after.db[k] == before.db[k]
    ensures SeedHeld(w, before, k) ==> SeedHeld(w, after, k)
  {
    hide Matches, PrintLLD;
  }

  lemma SetStringKeepsKnob(w: World, db: Db, name: string, value: string, k: nat)
    requires IsSeedKnob(w, db, k)
    ensures IsSeedKnob(w, SetString(w, db, name, value), k)
    ensures LastMatch(w, db, name) != k ==> SetString(w, db, name, value)[k] == db[k]
  {
    hide Matches;
    LiteralMatchesItself(w, SEED, SEED);
  }

  /** A call does not write to the seed knob `k`. */
  ghost predicate Spares(w: World, m: Machine, c: Call, k: nat) {
    match c
    case AddKnob(pattern, _) => pattern != SEED
    case SetText(name, _) => LastMatch(w, m.st.db, name) != k
    case SetWord(name, _) => LastMatch(w, m.st.db, name) != k
    case _ => true
  }

  ghost predicate AllSpare(w: World, m: Machine, calls: seq<Call>, depth: nat, k: nat)
    requires forall c | c in calls :: CallOk(c)
    decreases |calls|
  {
    calls != [] ==>
      && Spares(w, m, calls[0], k)
      && (Step(w, m, calls[0], depth).Some? ==> AllSpare(w, Step(w, m, calls[0], depth).value.0, calls[1..], depth, k))
  }

  lemma StepKeepsKnob(w: World, m: Machine, c: Call, depth: nat, k: nat)
    requires CallOk(c) && m.st.dice.seed.Some? && IsSeedKnob(w, m.st.db, k) && Step(w, m, c, depth).Some?
    requires c.AddKnob? ==> c.pattern != SEED
    ensures IsSeedKnob(w, Step(w, m, c, depth).value.0.st.db, k)
    ensures Spares(w, m, c, k) ==> Step(w, m, c, depth).value.0.st.db[k] == m.st.db[k]
  {
    hide IsSeedKnob, SetString, Load, LoadFile, AddString, GetDynamic, PrintLLD;
    match c
    case AddKnob(p, v) =>
      AddGrows(w, m.st, p, v);
      GrownKeepsKnob(w, m.st, m.st.(db := Add(w, m.st.db, p, v)), k);
    case AddText(s) =>
      AddStringGrows(w, m.st, s);
      GrownKeepsKnob(w, m.st, AddString(w, m.st, s).state, k);
    case SetText(n, s) => SetStringKeepsKnob(w, m.st.db, n, s, k);
    case SetWord(n, v) => SetStringKeepsKnob(w, m.st.db, n, PrintLLD(v), k);
    case LoadArguments(args) =>
      LoadGrows(w, m.st, args, depth);
      GrownKeepsKnob(w, m.st, Load(w, m.st, Start, args, depth).state, k);
    case LoadFrom(path) =>
      LoadFileGrows(w, m.st, path, depth);
      GrownKeepsKnob(w, m.st, LoadFile(w, m.st, path, depth).state, k);
    case _ =>
  }

  lemma AddGrows(w: World, st: State, pattern: string, value: Option<string>)
    requires pattern != SEED
    ensures Grown(st, st.(db := Add(w, st.db, pattern, value)))
  {
  }

  /** Over any run of a seeded engine, the seed knob stays where it is, unless one more knob named `seed` is added;
  and it goes on holding the seed, unless a setter writes to it. */
  lemma {:induction false} RunKeepsKnob(w: World, m: Machine, calls: seq<Call>, depth: nat, k: nat)
    requires forall c | c in calls :: CallOk(c) && (c.AddKnob? ==> c.pattern != SEED)
    requires m.st.dice.seed.Some? && IsSeedKnob(w, m.st.db, k) && RunAll(w, m, calls, depth).Some?
    ensures IsSeedKnob(w, RunAll(w, m, calls, depth).value.0.st.db, k)
    ensures RunAll(w, m, calls, depth).value.0.st.dice.seed == m.st.dice.seed
    ensures AllSpare(w, m, calls, depth, k) ==> RunAll(w, m, calls, depth).value.0.st.db[k] == m.st.db[k]
    decreases |calls|
  {
    hide Step, CallOk, IsSeedKnob, Spares;
    if calls != [] {
      StepGoesOn(w, m, calls[0], depth);
      StepKeepsKnob(w, m, calls[0], depth, k);
      RunKeepsKnob(w, Step(w, m, calls[0], depth).value.0, calls[1..], depth, k);
    }
  }

  lemma RunHoldsSeed(w: World, m: Machine, calls: seq<Call>, depth: nat, k: nat)
    requires forall c | c in calls :: CallOk(c) && (c.AddKnob? ==> c.pattern != SEED)
    requires SeedHeld(w, m.st, k) && AllSpare(w, m, calls, depth, k) && RunAll(w, m, calls, depth).Some?
    ensures SeedHeld(w, RunAll(w, m, calls, depth).value.0.st, k)
    ensures RunAll(w, m, calls, depth).value.0.st.dice.seed == m.st.dice.seed
  {
    hide RunAll, AllSpare, PrintLLD;
    RunKeepsKnob(w, m, calls, depth, k);
  }

  // ---- Which seed a save file restores ----

  /** The seed that a text gives: its low 32 bits, or none on a range error. */
  function ReadSeed(text: string): (seed: Option<nat>)
    ensures seed.Some? ==> seed.value < TWO32
  {
    var p := ParseULL(text);
    if p.overflow then None else Some(p.value % TWO32)
  }

  /** What the knob at an index gives when it is read back. */
  function SeedIn(db: Db, k: nat): Option<nat>
    requires k < |db|
  {
    ReadSeed(ReloadedText(db[k].value))
  }

  lemma SetSeedReads(w: World, st: State, text: string)
    requires st.dice.seed == None
    ensures SetSeedFromString(w, st, text) ==
            match ReadSeed(text)
            case None => st
            case Some(seed) => State(SetValue(w, st.db, SEED, seed), Dice(Some(seed), 0))
  {
    hide ParseULL, SetString;
  }

  lemma PrintedSeedReads(value: nat)
    requires value < TWO64
    ensures ReadSeed(ReloadedText(Some(PrintLLD(value)))) == Some(value % TWO32)
  {
    hide ParseULL;
    ParseOfPrint(value);
  }

  /** The first readable seed among some records. */
  function FirstSeed(rs: seq<Record>): Option<nat>
    decreases |rs|
  {
    if rs == [] then None
    else if rs[0].pattern == SEED && ReadSeed(ReloadedText(rs[0].value)).Some? then ReadSeed(ReloadedText(rs[0].value))
    else FirstSeed(rs[1..])
  }

  /** Whatever is saved, the seed that comes back is the first readable one. */
  lemma {:induction false} FirstSeedIsRestored(w: World, st: State, rs: seq<Record>)
    requires st.dice.seed == None
    ensures RestoreAll(w, st, rs).dice == if FirstSeed(rs).Some? then Dice(FirstSeed(rs), 0) else st.dice
    decreases |rs|
  {
    hide ReadSeed, ReloadedText, SetSeedFromString, SetValue;
    if rs != [] {
      var r, rest := rs[0], rs[1..];
      if r.pattern == SEED { SetSeedReads(w, st, ReloadedText(r.value)); }
      var next := RestoreOne(w, st, r);
      if next.dice.seed.Some? {
        RestoreSeeded(w, next, rest);
      } else {
        FirstSeedIsRestored(w, next, rest);
      }
    }
  }

  lemma {:induction false} FirstSeedConcat(xs: seq<Record>, ys: seq<Record>)
    ensures FirstSeed(xs + ys) == if FirstSeed(xs).Some? then FirstSeed(xs) else FirstSeed(ys)
    decreases |xs|
  {
    hide ReadSeed, ReloadedText;
    if xs == [] {
      assert xs + ys == ys;
    } else {
      assert (xs + ys)[0] == xs[0] && (xs + ys)[1..] == xs[1..] + ys;
      FirstSeedConcat(xs[1..], ys);
    }
  }

  lemma {:induction false} NoSeed(rs: seq<Record>)
    requires forall r | r in rs :: r.pattern != SEED
    ensures FirstSeed(rs) == None
    decreases |rs|
  {
    hide ReadSeed, ReloadedText;
    if rs != [] { NoSeed(rs[1..]); }
  }

  lemma {:induction false} OneSeed(rs: seq<Record>, k: nat)
    requires k < |rs| && rs[k].pattern == SEED
    requires forall i | 0 <= i < |rs| && i != k :: rs[i].pattern != SEED
    ensures FirstSeed(rs) == ReadSeed(ReloadedText(rs[k].value))
    decreases |rs|
  {
    hide ReadSeed, ReloadedText;
    if k > 0 {
      OneSeed(rs[1..], k - 1);
    } else {
      NoSeed(rs[1..]);
    }
  }

  /** The seed that a cached `seed` reads as. */
  lemma CachedSeed(saved: seq<Saved>, i: nat)
    requires PlainNames(saved) && i < |saved| && saved[i].name == SEED
    ensures FirstSeed(SavedRecords(saved)) == Some(saved[i].value % TWO32)
  {
    hide ReadSeed, ReloadedText, IsLiteral;
    OneSeed(SavedRecords(saved), i);
    PrintedSeedReads(saved[i].value);
  }

  lemma NoCachedSeed(saved: seq<Saved>)
    requires forall s | s in saved :: s.name != SEED
    ensures FirstSeed(SavedRecords(saved)) == None
  {
    hide ReadSeed, ReloadedText;
    NoSeed(SavedRecords(saved));
  }

  /** The seed that comes back is the one that the seed knob reads as, or, if that is not a number of 64 bits, the
  first one that the cached values read as. */
  lemma KnobIsRestored(w: World, records: seq<Record>, saved: seq<Saved>, k: nat)
    requires OnlySeed(Entries(records), k)
    ensures var read := SeedIn(Entries(records), k);
            RestoreAll(w, EMPTY, records + SavedRecords(saved)).dice.seed ==
              if read.Some? then read else FirstSeed(SavedRecords(saved))
  {
    hide RestoreAll, FirstSeed, ReadSeed, ReloadedText, Matches;
    FirstSeedIsRestored(w, EMPTY, records + SavedRecords(saved));
    FirstSeedConcat(records, SavedRecords(saved));
    OneSeed(records, k);
  }

  /** The seed comes back if and only if the seed knob still reads as that seed, modulo 2^32; or it does not read as
  a number of 64 bits at all, and a cached `seed` reads as the seed. */
  lemma SeedRestoredIff(w: World, records: seq<Record>, saved: seq<Saved>, k: nat, seed: nat)
    requires OnlySeed(Entries(records), k) && PlainNames(saved)
    ensures var read := SeedIn(Entries(records), k);
            RestoreAll(w, EMPTY, records + SavedRecords(saved)).dice.seed == Some(seed) <==>
            read == Some(seed) || (read == None && exists s | s in saved :: s.name == SEED && s.value % TWO32 == seed)
  {
    hide RestoreAll, FirstSeed, ReadSeed, ReloadedText, PlainNames;
    KnobIsRestored(w, records, saved, k);
    if i :| 0 <= i < |saved| && saved[i].name == SEED {
      CachedSeed(saved, i);
      OneCachedSeed(saved, i);
    } else {
      NoCachedSeed(saved);
    }
  }

  lemma OneCachedSeed(saved: seq<Saved>, i: nat)
    requires PlainNames(saved) && i < |saved|
    ensures forall s | s in saved && s.name == saved[i].name :: s == saved[i]
  {
    hide IsLiteral;
  }

  // ---- The database that comes back ----

  lemma {:induction false} ReloadedAt(records: seq<Record>)
    ensures |AllReloaded(records)| == |records|
    ensures forall i | 0 <= i < |records| :: AllReloaded(records)[i] == Reloaded(records[i])
  {
    hide Reloaded;
    if records != [] { ReloadedAt(records[1..]); }
  }

  lemma NoneMatches(w: World, rs: seq<Record>, name: string)
    requires forall i | 0 <= i < |rs| :: !Matches(w, rs[i].pattern, name)
    ensures LastMatch(w, AllReloaded(rs), name) == -1
  {
    hide Matches;
    ReloadedAt(rs);
    LastMatchUnique(w, AllReloaded(rs), name, -1);
  }

  lemma KnobSplits(w: World, records: seq<Record>, k: nat)
    requires IsSeedKnob(w, Entries(records), k)
    ensures k < |records| && records[k].pattern == SEED
    ensures forall r | r in records[..k] + records[k + 1..] :: r.pattern != SEED
    ensures LastMatch(w, AllReloaded(records[..k]), SEED) == -1
  {
    hide Matches;
    NoneMatches(w, records[..k], SEED);
  }

  lemma ReplacedAt(records: seq<Record>, k: nat, e: Entry)
    requires k < |records|
    ensures k < |AllReloaded(records)|
    ensures AllReloaded(records[..k]) + [e] + AllReloaded(records[k + 1..]) == AllReloaded(records)[k := e]
  {
    hide AllReloaded, Reloaded;
    ReloadedAt(records);
    ReloadedAt(records[..k]);
    ReloadedAt(records[k + 1..]);
    var parts := AllReloaded(records[..k]) + [e] + AllReloaded(records[k + 1..]);
    forall i | 0 <= i < |records| && i != k
      ensures parts[i] == Reloaded(records[i])
    {
      if i > k { assert records[k + 1..][i - k - 1] == records[i]; }
    }
  }

  lemma SeedRecordRestores(w: World, db: Db, r: Record, seed: nat)
    requires LastMatch(w, db, SEED) == -1 && r.pattern == SEED && ReadSeed(ReloadedText(r.value)) == Some(seed)
    ensures RestoreOne(w, State(db, Dice(None, 0)), r) ==
            State(db + [Entry(SEED, Some(PrintLLD(seed)))], Dice(Some(seed), 0))
  {
    hide ReadSeed, ReloadedText, PrintLLD;
    SetSeedReads(w, State(db, Dice(None, 0)), ReloadedText(r.value));
  }

  /** With a readable seed knob, the same knobs come back in the same order, and then one knob per cached value but
  `seed`; the seed knob holds the seed as it was read. */
  lemma SeedKnobRestores(w: World, records: seq<Record>, more: seq<Record>, k: nat, seed: nat)
    requires IsSeedKnob(w, Entries(records), k) && SeedIn(Entries(records), k) == Some(seed)
    ensures k < |AllReloaded(records)|
    ensures RestoreAll(w, EMPTY, records + more) ==
            State(AllReloaded(records)[k := Entry(SEED, Some(PrintLLD(seed)))] + Kept(more), Dice(Some(seed), 0))
  {
    hide RestoreAll, RestoreOne, ReadSeed, ReloadedText, IsSeedKnob, LastMatch, PrintLLD, AllReloaded, Kept;
    KnobSplits(w, records, k);
    var before, r, after := records[..k], records[k], records[k + 1..];
    RecordsSplit(records, more, k);
    RestoreConcat(w, EMPTY, before, [r] + (after + more));
    RestoreFromEmpty(w, before);
    RestFollows(w, AllReloaded(before), r, after, more, seed);
    ReplacedAt(records, k, Entry(SEED, Some(PrintLLD(seed))));
  }

  lemma RecordsSplit(records: seq<Record>, more: seq<Record>, k: nat)
    requires k < |records|
    ensures records + more == records[..k] + ([records[k]] + (records[k + 1..] + more))
  {
  }

  lemma RestoreFromEmpty(w: World, rs: seq<Record>)
    requires forall r | r in rs :: r.pattern != SEED
    ensures RestoreAll(w, EMPTY, rs) == State(AllReloaded(rs), Dice(None, 0))
  {
    hide RestoreAll, AllReloaded;
    RestoreSeedless(w, EMPTY, rs);
    assert [] + AllReloaded(rs) == AllReloaded(rs);
  }

  lemma RestFollows(w: World, db: Db, r: Record, after: seq<Record>, more: seq<Record>, seed: nat)
    requires LastMatch(w, db, SEED) == -1 && r.pattern == SEED && ReadSeed(ReloadedText(r.value)) == Some(seed)
    requires forall x | x in after :: x.pattern != SEED
    ensures RestoreAll(w, State(db, Dice(None, 0)), [r] + (after + more)) ==
            State(db + [Entry(SEED, Some(PrintLLD(seed)))] + AllReloaded(after) + Kept(more), Dice(Some(seed), 0))
  {
    hide RestoreAll, RestoreOne, ReadSeed, ReloadedText, LastMatch, PrintLLD, AllReloaded, Kept;
    var st := State(db, Dice(None, 0));
    SeedRecordRestores(w, db, r, seed);
    RestoreCons(w, st, r, after + more);
    var next := RestoreOne(w, st, r);
    RestoreConcat(w, next, after, more);
    RestoreSeedless(w, next, after);
    RestoreSeeded(w, next.(db := next.db + AllReloaded(after)), more);
  }

  lemma RestoreCons(w: World, st: State, r: Record, rest: seq<Record>)
    ensures RestoreAll(w, st, [r] + rest) == RestoreAll(w, RestoreOne(w, st, r), rest)
  {
    hide RestoreOne;
    assert ([r] + rest)[1..] == rest;
  }

  /** From the seeding on, whatever the engine does short of writing to the seed knob, a save file brings back the
  seed, all knobs as they were (an empty value as "1"), and the cached values. */
  lemma SeedSurvivesSession(w: World, m: Machine, calls: seq<Call>, depth: nat, k: nat,
                            records: seq<Record>, saved: seq<Saved>)
    requires forall c | c in calls :: CallOk(c) && (c.AddKnob? ==> c.pattern != SEED)
    requires SeedHeld(w, m.st, k) && AllSpare(w, m, calls, depth, k)
    requires RunAll(w, m, calls, depth).Some? && Entries(records) == RunAll(w, m, calls, depth).value.0.st.db
    ensures RestoreAll(w, EMPTY, records + SavedRecords(saved)) ==
            State(AllReloaded(records) + Kept(SavedRecords(saved)), Dice(m.st.dice.seed, 0))
  {
    hide IsSeedKnob, RestoreAll, RunAll, AllSpare, ReadSeed, PrintLLD;
    RunKeepsKnob(w, m, calls, depth, k);
    var seed := m.st.dice.seed.value;
    PrintedSeedReads(seed);
    KnobInside(w, Entries(records), k);
    SeedKnobRestores(w, records, SavedRecords(saved), k, seed);
    ReloadedAt(records);
    var db := AllReloaded(records);
    assert db[k] == Entry(SEED, Some(PrintLLD(seed)));
    assert db[k := db[k]] == db;
  }

  lemma KnobInside(w: World, db: Db, k: nat)
    requires IsSeedKnob(w, db, k)
    ensures k < |db| && db[k].pattern == SEED
  {
  }

  // ---- What a cached `seed` answers ----

  lemma {:induction false} NoSavedKnobMatchesSeed(w: World, db: Db, saved: seq<Saved>)
    requires forall s | s in saved :: IsLiteral(s.name)
    ensures LastMatch(w, db + Kept(SavedRecords(saved)), SEED) == LastMatch(w, db, SEED)
    decreases |saved|
  {
    hide Matches, IsLiteral, LastMatch, SavedRecord, SavedRecords, Kept;
    if saved == [] {
      KeptNothing(db);
    } else {
      var s, rest := saved[0], saved[1..];
      KeptHead(db, saved);
      var next := db + KeptEntry(SavedRecord(s));
      assert s in saved;
      if s.name == SEED {
        assert next == db;
      } else {
        LiteralMatchesItself(w, s.name, SEED);
        LastMatchSnoc(w, db, Reloaded(SavedRecord(s)), SEED);
      }
      NoSavedKnobMatchesSeed(w, next, rest);
    }
  }

  lemma KeptNothing(db: Db)
    ensures db + Kept(SavedRecords([])) == db
  {
  }

  lemma KeptHead(db: Db, saved: seq<Saved>)
    requires saved != []
    ensures SavedRecord(saved[0]).pattern == saved[0].name
    ensures db + Kept(SavedRecords(saved)) ==
            (db + KeptEntry(SavedRecord(saved[0]))) + Kept(SavedRecords(saved[1..]))
  {
    hide KeptEntry, SavedRecord, SavedRecords;
    SavedTail(saved);
    SavedPattern(saved[0]);
    var first, rest := KeptEntry(SavedRecord(saved[0])), Kept(SavedRecords(saved[1..]));
    assert Kept(SavedRecords(saved)) == first + rest;
    assert db + (first + rest) == (db + first) + rest;
  }

  lemma SavedPattern(s: Saved)
    ensures SavedRecord(s).pattern == s.name
  {
  }

  /** Saved knobs do not change what a seeded engine answers for `seed`. */
  lemma SavedKeepSeedText(w: World, st: State, saved: seq<Saved>)
    requires st.dice.seed.Some? && forall s | s in saved :: IsLiteral(s.name)
    ensures var restored := RestoreAll(w, st, SavedRecords(saved));
            restored.dice == st.dice && GetString(w, restored.db, SEED, None) == GetString(w, st.db, SEED, None)
  {
    hide RestoreAll, LastMatch, IsLiteral, Kept, SavedRecords;
    RestoreSeeded(w, st, SavedRecords(saved));
    NoSavedKnobMatchesSeed(w, st.db, saved);
  }

  /** If the database did not bring a seed, a cached one does, and it is what `seed` then reads as. */
  lemma {:induction false} CachedSeedText(w: World, st: State, saved: seq<Saved>, i: nat)
    requires PlainNames(saved) && i < |saved| && saved[i].name == SEED && st.dice.seed == None
    ensures GetString(w, RestoreAll(w, st, SavedRecords(saved)).db, SEED, None) ==
            Some(PrintLLD(saved[i].value % TWO32))
    decreases |saved|
  {
    hide RestoreAll, LastMatch, IsLiteral, SavedRecords, PlainNames, PrintLLD;
    PlainTail(saved);
    RestoreHead(w, st, saved);
    var next := RestoreOne(w, st, SavedRecord(saved[0]));
    if i == 0 {
      CachedSeedSets(w, st, saved[0]);
      SavedKeepSeedText(w, next, saved[1..]);
    } else {
      assert saved[i] == saved[1..][i - 1];
      CachedSeedText(w, next, saved[1..], i - 1);
    }
  }

  lemma CachedSeedSets(w: World, st: State, s: Saved)
    requires s.name == SEED && st.dice.seed == None
    ensures var next := RestoreOne(w, st, SavedRecord(s));
            next.dice.seed.Some? && GetString(w, next.db, SEED, None) == Some(PrintLLD(s.value % TWO32))
  {
    hide ReadSeed, ReloadedText, LastMatch, PrintLLD, Matches, Acceptable;
    SetSeedReads(w, st, ReloadedText(SavedRecord(s).value));
    PrintedSeedReads(s.value);
    LiteralIsSettable(w, st.db, SEED);
    SetThenGet(w, st.db, SEED, PrintLLD(s.value % TWO32));
  }

  /** What `seed` answers after a restart, whatever was saved: what the restored knobs say, if they brought a seed,
  and the low 32 bits of the cached value otherwise. */
  lemma SeedAnswer(w: World, records: seq<Record>, saved: seq<Saved>, i: nat, default: nat)
    requires PlainNames(saved) && i < |saved| && saved[i].name == SEED && default < TWO64
    ensures var before, restored := RestoreAll(w, EMPTY, records), RestoreAll(w, EMPTY, records + SavedRecords(saved));
            GetDynamic(w, restored, SEED, default) ==
              if before.dice.seed.Some? then GetDynamic(w, before, SEED, default)
              else Some((saved[i].value % TWO32, restored.dice))
  {
    hide RestoreAll, LastMatch, Evaluate, IsLiteral, SavedRecords, PrintLLD;
    RestoreConcat(w, EMPTY, records, SavedRecords(saved));
    var before := RestoreAll(w, EMPTY, records);
    if before.dice.seed.Some? {
      SavedKeepSeedText(w, before, saved);
    } else {
      CachedSeedText(w, before, saved, i);
      EvaluateLLD(w, RestoreAll(w, before, SavedRecords(saved)).dice, saved[i].value % TWO32);
    }
  }

  /** What `seed` answers after a restart from a database with a seed knob. */
  ghost function AnswerForSeed(w: World, db: Db, k: nat, cached: nat): Option<nat>
    requires k < |db|
  {
    var j := LastMatch(w, db, SEED);
    match SeedIn(db, k)
    case None => Some(cached % TWO32)
    case Some(seed) =>
      if j <= k then Some(seed)
      else
        match Evaluate(w, Dice(Some(seed), 0), ReloadedText(db[j].value))
        case None => None
        case Some((value, _)) => Some(value)
  }

  /** A cached `seed` answers as before if and only if: the last match of `seed` is the seed knob, and that reads as
  the cached value, modulo 2^32; or it is a later knob, and that evaluates to the cached value; or the seed knob
  does not read as a number of 64 bits at all, and the cached value has 32. */
  lemma CachedSeedSurvivesIff(w: World, records: seq<Record>, saved: seq<Saved>, i: nat, k: nat, default: nat)
    requires PlainNames(saved) && i < |saved| && saved[i].name == SEED && default < TWO64
    requires IsSeedKnob(w, Entries(records), k)
    ensures var answer := GetDynamic(w, RestoreAll(w, EMPTY, records + SavedRecords(saved)), SEED, default);
            answer.Some? && answer.value.0 == saved[i].value <==>
            AnswerForSeed(w, Entries(records), k, saved[i].value) == Some(saved[i].value)
  {
    hide RestoreAll, GetDynamic, AnswerForSeed, IsSeedKnob, PlainNames, SavedRecords, FirstSeed, ReadSeed;
    SeedAnswer(w, records, saved, i, default);
    KnobInside(w, Entries(records), k);
    assert records + [] == records;
    match SeedIn(Entries(records), k)
    case None =>
      FirstSeedIsRestored(w, EMPTY, records);
      KnobIsFirstSeed(w, records, k);
      AnswerUnread(w, Entries(records), k, saved[i].value);
    case Some(seed) =>
      SeedKnobRestores(w, records, [], k, seed);
      KnobAnswers(w, records, k, seed, saved[i].value, default);
  }

  lemma KnobIsFirstSeed(w: World, records: seq<Record>, k: nat)
    requires IsSeedKnob(w, Entries(records), k)
    ensures FirstSeed(records) == SeedIn(Entries(records), k)
  {
    hide ReadSeed, ReloadedText, Matches;
    OneSeed(records, k);
  }

  lemma AnswerUnread(w: World, db: Db, k: nat, cached: nat)
    requires k < |db| && SeedIn(db, k) == None
    ensures AnswerForSeed(w, db, k, cached) == Some(cached % TWO32)
  {
  }

  lemma KnobAnswers(w: World, records: seq<Record>, k: nat, seed: nat, cached: nat, default: nat)
    requires IsSeedKnob(w, Entries(records), k) && SeedIn(Entries(records), k) == Some(seed) && default < TWO64
    ensures k < |AllReloaded(records)|
    ensures var db := AllReloaded(records)[k := Entry(SEED, Some(PrintLLD(seed)))];
            var answer := GetDynamic(w, State(db + Kept([]), Dice(Some(seed), 0)), SEED, default);
            AnswerForSeed(w, Entries(records), k, cached) == if answer.Some? then Some(answer.value.0) else None
  {
    hide ReadSeed, ReloadedText, Matches, PrintLLD, AllReloaded, Evaluate, LastMatch;
    ReloadedAt(records);
    var entries, db := Entries(records), AllReloaded(records)[k := Entry(SEED, Some(PrintLLD(seed)))];
    assert db + Kept([]) == db;
    LastMatchByPatterns(w, entries, db, SEED);
    LiteralMatchesItself(w, SEED, SEED);
    EvaluateLLD(w, Dice(Some(seed), 0), seed);
  }

  /** In particular `seed` answers the seed that was read back, drawing nothing, whether it was cached or not, if no
  knob behind the seed knob matches that name. */
  lemma SeedAnswerSurvives(w: World, records: seq<Record>, saved: seq<Saved>, k: nat, seed: nat, default: nat)
    requires IsSeedKnob(w, Entries(records), k) && SeedIn(Entries(records), k) == Some(seed) && default < TWO64
    requires forall s | s in saved :: IsLiteral(s.name)
    requires LastMatch(w, Entries(records), SEED) == k
    ensures GetDynamic(w, RestoreAll(w, EMPTY, records + SavedRecords(saved)), SEED, default) ==
            Some((seed, Dice(Some(seed), 0)))
  {
    hide RestoreAll, LastMatch, Evaluate, IsLiteral, SavedRecords, PrintLLD, ReadSeed, ReloadedText, Matches;
    assert records + [] == records;
    SeedKnobRestores(w, records, [], k, seed);
    var before := RestoreAll(w, EMPTY, records);
    ReloadedAt(records);
    LastMatchByPatterns(w, Entries(records), before.db, SEED);
    RestoreConcat(w, EMPTY, records, SavedRecords(saved));
    SavedKeepSeedText(w, before, saved);
    EvaluateLLD(w, before.dice, seed);
  }

  // ---- When a database comes back unchanged ----

  lemma {:induction false} RestoreAddsAtMost(w: World, st: State, rs: seq<Record>)
    ensures |RestoreAll(w, st, rs).db| <= |st.db| + |rs|
    decreases |rs|
  {
    hide ParseULL, PrintLLD, LastMatch;
    if rs != [] { RestoreAddsAtMost(w, RestoreOne(w, st, rs[0]), rs[1..]); }
  }

  lemma {:induction false} KeptLength(rs: seq<Record>)
    ensures |Kept(rs)| <= |rs|
    ensures |Kept(rs)| == |rs| ==> forall r | r in rs :: r.pattern != SEED
  {
    if rs != [] { KeptLength(rs[1..]); }
  }

  lemma {:induction false} FirstSeedRecord(rs: seq<Record>) returns (k: nat)
    requires exists r | r in rs :: r.pattern == SEED
    ensures k < |rs| && rs[k].pattern == SEED && forall r | r in rs[..k] :: r.pattern != SEED
    decreases |rs|
  {
    k := 0;
    if rs[0].pattern != SEED {
      k := FirstSeedRecord(rs[1..]);
      k := k + 1;
      assert forall r | r in rs[..k] :: r == rs[0] || r in rs[1..][..k - 1];
    }
  }

  /** A seed record that cannot be read, or that stands behind a match of `seed`, adds no knob. */
  lemma SeedAddsNone(w: World, db: Db, r: Record, after: seq<Record>)
    requires r.pattern == SEED
    requires ReadSeed(ReloadedText(r.value)) == None || LastMatch(w, db, SEED) >= 0
    ensures |RestoreAll(w, State(db, Dice(None, 0)), [r] + after).db| <= |db| + |after|
  {
    hide ReadSeed, ReloadedText, LastMatch, PrintLLD;
    var st := State(db, Dice(None, 0));
    SetSeedReads(w, st, ReloadedText(r.value));
    RestoreCons(w, st, r, after);
    RestoreAddsAtMost(w, RestoreOne(w, st, r), after);
  }

  /** If as many knobs come back as there were records, the first seed record is the only one, and it is a readable
  seed knob. */
  lemma AllComeBack(w: World, records: seq<Record>, k: nat)
    requires k < |records| && records[k].pattern == SEED && forall r | r in records[..k] :: r.pattern != SEED
    requires |RestoreAll(w, EMPTY, records).db| == |records|
    ensures IsSeedKnob(w, Entries(records), k) && SeedIn(Entries(records), k).Some?
  {
    hide RestoreAll, ReadSeed, ReloadedText, LastMatch, PrintLLD, AllReloaded, Kept, Matches;
    var before, r, after := records[..k], records[k], records[k + 1..];
    assert records == before + ([r] + after);
    RestoreConcat(w, EMPTY, before, [r] + after);
    RestoreFromEmpty(w, before);
    ReloadedAt(before);
    var db := AllReloaded(before);
    if ReadSeed(ReloadedText(r.value)) == None || LastMatch(w, db, SEED) >= 0 {
      SeedAddsNone(w, db, r, after);
      assert false;
    }
    var seed := ReadSeed(ReloadedText(r.value)).value;
    SeedRecordRestores(w, db, r, seed);
    RestoreCons(w, State(db, Dice(None, 0)), r, after);
    RestoreSeeded(w, State(db + [Entry(SEED, Some(PrintLLD(seed)))], Dice(Some(seed), 0)), after);
    KeptLength(after);
    OnlyHere(w, records, k);
  }

  lemma OnlyHere(w: World, records: seq<Record>, k: nat)
    requires k < |records| && records[k].pattern == SEED
    requires forall r | r in records[..k] :: r.pattern != SEED
    requires forall r | r in records[k + 1..] :: r.pattern != SEED
    requires LastMatch(w, AllReloaded(records[..k]), SEED) == -1
    ensures IsSeedKnob(w, Entries(records), k)
  {
    hide Matches, AllReloaded, LastMatch, ReloadedText;
    var before, after := records[..k], records[k + 1..];
    ReloadedAt(before);
    forall i | 0 <= i < |records| && i != k
      ensures records[i].pattern != SEED
    {
      assert if i < k then records[i] == before[i] else records[i] == after[i - k - 1];
    }
    forall i | 0 <= i < k
      ensures !Matches(w, records[i].pattern, SEED)
    {
      assert AllReloaded(before)[i] == Reloaded(before[i]);
    }
  }

  /** The seed knob holds a number below 2^32 in plain decimal, as the seed setter writes it. */
  ghost predicate SeedAsWritten(w: World, db: Db, k: nat) {
    IsSeedKnob(w, db, k) && exists seed: nat | seed < TWO32 :: db[k].value == Some(PrintLLD(seed))
  }

  /** No value is NULL or empty, and if there is a knob named `seed`, it is the only one, no earlier knob matches that
  name, and it holds a number as the seed setter writes it. */
  ghost predicate Unchangeable(w: World, db: Db) {
    && (forall e | e in db :: e.value.Some? && e.value.value != [])
    && ((exists e | e in db :: e.pattern == SEED) ==> exists k: nat :: SeedAsWritten(w, db, k))
  }

  /** Whatever is saved comes back as it was if and only if it is of this form. */
  lemma UnchangedIff(w: World, records: seq<Record>)
    ensures RestoreAll(w, EMPTY, records).db == Entries(records) <==> Unchangeable(w, Entries(records))
  {
    hide RestoreAll, AllReloaded, SeedAsWritten;
    ReloadedAsWrittenIff(records);
    assert forall i | 0 <= i < |records| :: Entries(records)[i].pattern == records[i].pattern && records[i] in records;
    if exists r | r in records :: r.pattern == SEED {
      SomeSeedUnchangedIff(w, records);
      assert exists e | e in Entries(records) :: e.pattern == SEED;
    } else {
      RestoreFromEmpty(w, records);
    }
  }

  lemma SomeSeedUnchangedIff(w: World, records: seq<Record>)
    requires exists r | r in records :: r.pattern == SEED
    ensures RestoreAll(w, EMPTY, records).db == Entries(records) <==>
            (forall e | e in Entries(records) :: e.value.Some? && e.value.value != []) &&
            exists k: nat :: SeedAsWritten(w, Entries(records), k)
  {
    hide RestoreAll, SeedAsWritten;
    if RestoreAll(w, EMPTY, records).db == Entries(records) {
      var k := FirstSeedRecord(records);
      AllComeBack(w, records, k);
      SeedUnchangedIff(w, records, k);
    }
    if k: nat :| SeedAsWritten(w, Entries(records), k) {
      SeedAsWrittenReads(w, Entries(records), k);
      SeedUnchangedIff(w, records, k);
    }
  }

  lemma SeedAsWrittenReads(w: World, db: Db, k: nat)
    ensures SeedAsWritten(w, db, k) <==>
            && IsSeedKnob(w, db, k)
            && SeedIn(db, k).Some? && db[k].value == Some(PrintLLD(SeedIn(db, k).value))
  {
    hide ReadSeed, PrintLLD, ReloadedText, Matches;
    if SeedAsWritten(w, db, k) {
      var seed: nat :| seed < TWO32 && db[k].value == Some(PrintLLD(seed));
      PrintedSeedReads(seed);
    }
  }

  /** A seed that is written otherwise comes back in plain decimal: setting it to the text `0x10` is such a case,
  although no value is empty and the seed itself is restored. */
  lemma HexadecimalComesBackAsDecimal(w: World, path: string, comment: string)
    requires Without(comment, "\n\0") && w.delimiters == SPTBNL && path in w.files
    requires w.files[path] == SaveText([Record(SEED, Some("0x10"), comment)], [])
    ensures var calls := [SeedWith(16), SetText(SEED, "0x10")];
            && (forall c | c in calls :: CallOk(c))
            && RunAll(w, Machine(EMPTY, map[]), calls, 0) ==
               Some((Machine(State([Entry(SEED, Some("0x10"))], Dice(Some(16), 0)), map[]), [None, None]))
    ensures LoadFile(w, EMPTY, path, 1) == Done(State([Entry(SEED, Some("16"))], Dice(Some(16), 0)), true)
    ensures !Unchangeable(w, [Entry(SEED, Some("0x10"))])
  {
    hide LoadFile, SaveText, RestoreAll, RunAll, Unchangeable, Writable, SavedRecords;
    HexadecimalRun(w);
    HexadecimalRestores(w, comment);
    var records := [Record(SEED, Some("0x10"), comment)];
    HexadecimalWritable(w, comment);
    assert SavedRecords([]) == [] && records + [] == records;
    ReplayRestores(w, path, records, []);
    UnchangedIff(w, records);
    assert Entries(records) == [Entry(SEED, Some("0x10"))];
  }

  lemma HexadecimalRun(w: World)
    ensures var calls := [SeedWith(16), SetText(SEED, "0x10")];
            && (forall c | c in calls :: CallOk(c))
            && RunAll(w, Machine(EMPTY, map[]), calls, 0) ==
               Some((Machine(State([Entry(SEED, Some("0x10"))], Dice(Some(16), 0)), map[]), [None, None]))
  {
    hide Matches, PrintLLD, Load, LoadFile, AddString, RunAll;
    LiteralMatchesItself(w, SEED, SEED);
    var calls := [SeedWith(16), SetText(SEED, "0x10")];
    var dice := Dice(Some(16), 0);
    var m0 := Machine(EMPTY, map[]);
    var m1 := Machine(State([Entry(SEED, Some(PrintLLD(16)))], dice), map[]);
    var m2 := Machine(State([Entry(SEED, Some("0x10"))], dice), map[]);
    assert SetValue(w, [], SEED, 16) == [Entry(SEED, Some(PrintLLD(16)))];
    assert Step(w, m0, calls[0], 0) == Some((m1, None));
    LastMatchUnique(w, m1.st.db, SEED, 0);
    assert SetString(w, m1.st.db, SEED, "0x10") == m1.st.db[0 := Entry(SEED, Some("0x10"))] == m2.st.db;
    assert Step(w, m1, calls[1], 0) == Some((m2, None));
    RunCons(w, m0, calls);
    RunCons(w, m1, calls[1..]);
    RunNothing(w, m2);
    assert calls[1..][1..] == [];
    var none: Option<nat> := None;
    assert [none] + ([none] + []) == [none, none];
  }

  lemma HexadecimalReads()
    ensures ReadSeed("0x10") == Some(16) && PrintLLD(16) == "16"
  {
    var s := "0x10";
    assert s[2..] == "10" && "10"[1..] == "0" && "0"[1..] == "";
    assert Magnitude("", 16, 16) == 16;
    assert Magnitude("0", 16, 1) == 16;
    assert Magnitude("10", 16, 0) == 16;
    assert Decimal(16) == Decimal(1) + [DigitChar(6)];
  }

  lemma HexadecimalWritable(w: World, comment: string)
    requires Without(comment, "\n\0")
    ensures Writable(w, Record(SEED, Some("0x10"), comment))
  {
  }

  lemma HexadecimalRestores(w: World, comment: string)
    ensures RestoreAll(w, EMPTY, [Record(SEED, Some("0x10"), comment)]) ==
            State([Entry(SEED, Some("16"))], Dice(Some(16), 0))
  {
    hide Matches, PrintLLD, ReadSeed, RestoreAll;
    HexadecimalReads();
    var records := [Record(SEED, Some("0x10"), comment)];
    SeedKnobRestores(w, records, [], 0, 16);
    assert records + [] == records;
    assert AllReloaded(records)[0 := Entry(SEED, Some("16"))] + Kept([]) == [Entry(SEED, Some("16"))];
  }

  /** The same for a database with a readable seed knob. */
  lemma SeedUnchangedIff(w: World, records: seq<Record>, k: nat)
    requires IsSeedKnob(w, Entries(records), k) && SeedIn(Entries(records), k).Some?
    ensures RestoreAll(w, EMPTY, records).db == Entries(records) <==>
            (forall e | e in Entries(records) :: e.value.Some? && e.value.value != []) &&
            SeedAsWritten(w, Entries(records), k)
  {
    hide RestoreAll, ReadSeed, PrintLLD, AllReloaded, Matches, SeedAsWritten;
    var db, seed := Entries(records), SeedIn(Entries(records), k).value;
    assert records + [] == records;
    SeedKnobRestores(w, records, [], k, seed);
    SeedAsWrittenReads(w, db, k);
    ReloadedAt(records);
    var back := AllReloaded(records)[k := Entry(SEED, Some(PrintLLD(seed)))];
    assert back + Kept([]) == back;
    forall i | 0 <= i < |db| && i != k
      ensures back[i] == db[i] <==> db[i].value.Some? && db[i].value.value != []
    {
    }
    assert back[k] == db[k] <==> db[k].value == Some(PrintLLD(seed));
  }

  /** A save file brings back all that is in it, knobs and cached values, as it was written, if and only if together
  they are of this form. */
  lemma ReplayIsExactIff(w: World, path: string, records: seq<Record>, saved: seq<Saved>)
    requires Savable(w, records, saved)
    requires w.delimiters == SPTBNL && path in w.files && w.files[path] == SaveText(records, saved)
    ensures var all := Entries(records + SavedRecords(saved));
            && LoadFile(w, EMPTY, path, 1).Done?
            && (LoadFile(w, EMPTY, path, 1).state.db == all <==> Unchangeable(w, all))
  {
    hide Savable, SaveText, LoadFile, RestoreAll, Unchangeable;
    ReplayRestores(w, path, records, saved);
    UnchangedIff(w, records + SavedRecords(saved));
  }

  // ---- The seed can be overwritten ----

  /** The seed knob can be set like any other. Then the session goes on with its seed and its answers, but the next
  one starts from another seed, and answers otherwise. */
  lemma SeedKnobCanBeOverwritten(w: World, path: string, comment: string)
    requires Without(comment, "\n\0") && w.delimiters == SPTBNL && path in w.files
    requires w.files[path] == SaveText([Record(SEED, Some("7"), comment)], [Saved(SEED, 4)])
    ensures var calls := [SeedWith(4), Value(SEED, 0), SetWord(SEED, 7)];
            && (forall c | c in calls :: CallOk(c))
            && RunAll(w, Machine(EMPTY, map[]), calls, 0) ==
               Some((Machine(State([Entry(SEED, Some("7"))], Dice(Some(4), 0)), map[SEED := 4]), [None, Some(4), None]))
    ensures var restored := State([Entry(SEED, Some("7"))], Dice(Some(7), 0));
            && LoadFile(w, EMPTY, path, 1) == Done(restored, true)
            && GetDynamic(w, restored, SEED, 0) == Some((7, restored.dice))
  {
    OverwrittenRun(w);
    OverwrittenReload(w, path, comment);
  }

  lemma SmallNumbers()
    ensures PrintLLD(4) == "4" && PrintLLD(7) == "7"
  {
  }

  lemma OverwrittenRun(w: World)
    ensures var calls := [SeedWith(4), Value(SEED, 0), SetWord(SEED, 7)];
            && (forall c | c in calls :: CallOk(c))
            && RunAll(w, Machine(EMPTY, map[]), calls, 0) ==
               Some((Machine(State([Entry(SEED, Some("7"))], Dice(Some(4), 0)), map[SEED := 4]), [None, Some(4), None]))
  {
    hide Matches, PrintLLD, Evaluate, Load, LoadFile, AddString, RunAll;
    SmallNumbers();
    LiteralMatchesItself(w, SEED, SEED);
    var calls := [SeedWith(4), Value(SEED, 0), SetWord(SEED, 7)];
    var dice := Dice(Some(4), 0);
    var m0 := Machine(EMPTY, map[]);
    var m1 := Machine(State([Entry(SEED, Some("4"))], dice), map[]);
    var m2 := m1.(cache := map[SEED := 4]);
    var m3 := Machine(State([Entry(SEED, Some("7"))], dice), map[SEED := 4]);
    assert SetValue(w, [], SEED, 4) == [Entry(SEED, Some("4"))];
    assert Step(w, m0, calls[0], 0) == Some((m1, None));
    SetValueThenGet(w, State([], dice), SEED, 4, 0);
    assert Step(w, m1, calls[1], 0) == Some((m2, Some(4)));
    LastMatchUnique(w, m2.st.db, SEED, 0);
    assert SetValue(w, m2.st.db, SEED, 7) == m2.st.db[0 := Entry(SEED, Some("7"))] == m3.st.db;
    assert Step(w, m2, calls[2], 0) == Some((m3, None));
    ThreeSteps(w, m0, calls, m1, m2, m3, None, Some(4), None);
  }

  lemma ThreeSteps(w: World, m0: Machine, calls: seq<Call>, m1: Machine, m2: Machine, m3: Machine,
                   a: Option<nat>, b: Option<nat>, c: Option<nat>)
    requires |calls| == 3 && forall c | c in calls :: CallOk(c)
    requires Step(w, m0, calls[0], 0) == Some((m1, a))
    requires Step(w, m1, calls[1], 0) == Some((m2, b))
    requires Step(w, m2, calls[2], 0) == Some((m3, c))
    ensures RunAll(w, m0, calls, 0) == Some((m3, [a, b, c]))
  {
    hide Step, CallOk, RunAll;
    RunCons(w, m0, calls);
    RunCons(w, m1, calls[1..]);
    RunCons(w, m2, calls[1..][1..]);
    RunNothing(w, m3);
    assert calls[1..][1..][1..] == [];
    assert [c] + [] == [c];
    assert [a] + ([b] + [c]) == [a, b, c];
  }

  lemma RunNothing(w: World, m: Machine)
    ensures RunAll(w, m, [], 0) == Some((m, []))
  {
  }

  lemma RunCons(w: World, m: Machine, calls: seq<Call>)
    requires calls != [] && (forall c | c in calls :: CallOk(c)) && Step(w, m, calls[0], 0).Some?
    ensures var (next, answer) := Step(w, m, calls[0], 0).value;
            RunAll(w, m, calls, 0) ==
              match RunAll(w, next, calls[1..], 0)
              case None => None
              case Some((last, answers)) => Some((last, [answer] + answers))
  {
    hide Step, CallOk;
  }

  lemma OverwrittenReload(w: World, path: string, comment: string)
    requires Without(comment, "\n\0") && w.delimiters == SPTBNL && path in w.files
    requires w.files[path] == SaveText([Record(SEED, Some("7"), comment)], [Saved(SEED, 4)])
    ensures var restored := State([Entry(SEED, Some("7"))], Dice(Some(7), 0));
            && LoadFile(w, EMPTY, path, 1) == Done(restored, true)
            && GetDynamic(w, restored, SEED, 0) == Some((7, restored.dice))
  {
    hide LoadFile, SaveText, RestoreAll, GetDynamic, Savable;
    OverwrittenSavable(w, comment);
    ReplayRestores(w, path, [Record(SEED, Some("7"), comment)], [Saved(SEED, 4)]);
    OverwrittenRestores(w, comment);
    OverwrittenAnswers(w);
  }

  lemma OverwrittenSavable(w: World, comment: string)
    requires Without(comment, "\n\0")
    ensures Savable(w, [Record(SEED, Some("7"), comment)], [Saved(SEED, 4)])
  {
    hide PrintLLD, Writable;
    SmallNumbers();
    SeedWritable(w, "7", comment);
    SeedWritable(w, "4", SAVED_COMMENT);
  }

  lemma SeedWritable(w: World, digit: string, comment: string)
    requires digit == "4" || digit == "7"
    requires Without(comment, "\n\0")
    ensures Writable(w, Record(SEED, Some(digit), comment))
  {
  }

  lemma OverwrittenRestores(w: World, comment: string)
    ensures RestoreAll(w, EMPTY, [Record(SEED, Some("7"), comment)] + SavedRecords([Saved(SEED, 4)])) ==
            State([Entry(SEED, Some("7"))], Dice(Some(7), 0))
  {
    hide Matches, PrintLLD, ReadSeed, RestoreAll;
    SmallNumbers();
    var records, saved := [Record(SEED, Some("7"), comment)], [Saved(SEED, 4)];
    PrintedSeedReads(7);
    SeedKnobRestores(w, records, SavedRecords(saved), 0, 7);
    assert records[1..] == [] && SavedRecords(saved)[1..] == [];
  }

  lemma OverwrittenAnswers(w: World)
    ensures GetDynamic(w, State([Entry(SEED, Some("7"))], Dice(Some(7), 0)), SEED, 0) == Some((7, Dice(Some(7), 0)))
  {
    hide Matches, PrintLLD, Evaluate, GetDynamic;
    SmallNumbers();
    LiteralMatchesItself(w, SEED, SEED);
    LiteralIsSettable(w, [], SEED);
    SetValueThenGet(w, State([], Dice(Some(7), 0)), SEED, 7, 0);
    assert SetValue(w, [], SEED, 7) == [Entry(SEED, Some("7"))];
  }
}
