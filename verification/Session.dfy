/** Two sessions of the engine: one saves, the next one starts from the file. */
module Session {
  import opened Text
  import opened Numbers
  import opened World
  import opened Knobs
  import opened Loader
  import opened Replay
  import opened SavedTableModule
  import opened DatabaseModule
  import opened EngineModule
  import opened Printer
  import opened SeedKnob
  import Execution
  import Seeds
  import Answers
  import Runs
  import Values

  const SAVE_FILE: string := "sknobs.save"

  /** The first session can be saved: every field can be written, and the cached names are plain words. */
  ghost predicate CanSave(w: World, e: Engine)
    reads e.db, e.db.nodes, e.table, e.table.buckets
  {
    && Savable(w, RecordsOf(e.db.nodes), TableListing(e))
    && forall n | n in e.table.cache :: IsLiteral(n)
  }

  /** The state that the second session starts from. */
  ghost function Restored(w: World, e: Engine): State
    reads e.db, e.db.nodes, e.table.buckets
  {
    RestoreAll(w, EMPTY, RecordsOf(e.db.nodes) + SavedRecords(TableListing(e)))
  }

  /** The knobs that come back if the seed knob is at index `k` and reads as `seed`. */
  ghost function SameKnobs(e: Engine, k: nat, seed: nat): Db
    requires seed < TWO32
    reads e.db, e.db.nodes, e.table.buckets
  {
    var db := AllReloaded(RecordsOf(e.db.nodes));
    if k < |db| then db[k := Entry(SEED, Some(PrintLLD(seed)))] + Kept(SavedRecords(TableListing(e))) else []
  }

  /** The knobs that come back where there is neither a seed knob nor a cached `seed`. */
  ghost function SeedlessKnobs(e: Engine): Db
    reads e.db, e.db.nodes, e.table.buckets
  {
    AllReloaded(RecordsOf(e.db.nodes)) + AllReloaded(SavedRecords(TableListing(e)))
  }

  /** The knobs as they are written: those of the database, and then one per cached value. */
  ghost function WrittenKnobs(e: Engine): Db
    reads e.db, e.db.nodes, e.table.buckets
  {
    Entries(RecordsOf(e.db.nodes) + SavedRecords(TableListing(e)))
  }

  /** The seed that comes back: what the seed knob at index `k` reads as, or else a cached `seed`. */
  ghost function SeedSource(db: Db, cache: map<string, Word>, k: nat): Option<nat>
    requires k < |db|
  {
    if SeedIn(db, k).Some? then SeedIn(db, k) else if SEED in cache then Some(cache[SEED] % TWO32) else None
  }

  /** What one session saves, the next one finds: the same knobs in the same order, and then one per cached value. It
  has the same seed if and only if the seed knob still reads as the seed of the first session, as it does unless it
  was written to. Every cached name but `seed` answers what it answered before, drawing nothing, and `seed` does if
  and only if `AnswerForSeed` says so. The second session reads the file with the whole pipeline: stripper, tokenizer,
  argument machine, parser, evaluator. */
  method SaveAndRestart(first: Engine, w: World, name: string, default: nat, ghost k: nat)
      returns (text: string, failed: bool, second: Engine, answer: nat)
    requires first.Valid() && CanSave(w, first)
    requires w.delimiters == " \t\n" && "sknobs.save" in w.files
    requires w.files["sknobs.save"] == SaveText(RecordsOf(first.db.nodes), TableListing(first))
    requires name in first.table.cache && default < TWO64
    requires name == SEED ==> Values.GetDynamic(w, Restored(w, first), SEED, default).Some?
    ensures text == w.files["sknobs.save"] && !failed && second.Valid()
    ensures second.State().db == Restored(w, first).db
    ensures IsSeedKnob(w, first.State().db, k) && SeedIn(first.State().db, k).Some? ==>
              second.State().db == SameKnobs(first, k, SeedIn(first.State().db, k).value)
    ensures (forall e | e in first.State().db :: e.pattern != SEED) && SEED !in first.table.cache ==>
              second.State().db == SeedlessKnobs(first)
    ensures second.State().db == WrittenKnobs(first) <==> Unchangeable(w, WrittenKnobs(first))
    ensures second.State().dice.seed == FirstSeed(RecordsOf(first.db.nodes) + SavedRecords(TableListing(first)))
    ensures OnlySeed(first.State().db, k) ==>
              (second.State().dice.seed == first.State().dice.seed <==>
               SeedSource(first.State().db, first.table.cache, k) == first.State().dice.seed)
    ensures SeedHeld(w, first.State(), k) ==> second.State().dice.seed == first.State().dice.seed
    ensures name != SEED ==> answer == first.table.cache[name] && second.State().dice == Restored(w, first).dice
    ensures name == SEED && IsSeedKnob(w, first.State().db, k) ==>
              (answer == first.table.cache[SEED] <==>
               AnswerForSeed(w, first.State().db, k, first.table.cache[SEED]) == Some(first.table.cache[SEED]))
    ensures second.table.cache == map[name := answer]
  {
    hide Savable, SaveText, LoadFile, RecordsOf, RestoreAll, SavedRecords, Values.GetDynamic, IsLiteral;
    hide first.Valid, Runs.GetValue, IsSeedKnob, SeedHeld, SeedSource, AnswerForSeed, SameKnobs, SeedIn, OnlySeed;
    hide Unchangeable, WrittenKnobs, SeedlessKnobs, FirstSeed;
    ghost var target := Restored(w, first);
    ReplayRestores(w, SAVE_FILE, RecordsOf(first.db.nodes), TableListing(first));
    if name != SEED {
      AnswerAfterRestart(w, first, name, default);
    } else if IsSeedKnob(w, first.State().db, k) {
      SeedAnswerAfterRestart(w, first, default, k);
    }
    SeedAfterRestart(w, first, k);
    KnobsAfterRestart(w, first);
    AnySeedAfterRestart(w, first);
    text := Save(first);
    failed, second, answer := RestartAndAsk(w, target, name, default);
  }

  /** The second session: started from the file, and asked once. */
  method RestartAndAsk(w: World, ghost target: State, name: string, default: nat)
      returns (failed: bool, second: Engine, answer: nat)
    requires LoadFile(w, EMPTY, SAVE_FILE, 1) == Done(target, true)
    requires default < TWO64 && Values.GetDynamic(w, target, name, default).Some?
    ensures !failed && second.Valid()
    ensures Values.GetDynamic(w, target, name, default) == Some((answer, second.State().dice))
    ensures second.State().db == target.db && second.State().dice.seed == target.dice.seed
    ensures second.table.cache == map[name := answer]
  {
    hide LoadFile, Values.GetDynamic, Runs.GetValue, Engine.Valid;
    AskedFirst(w, target, name, default);
    failed, second := Restart(w, target);
    answer := Answers.GetValue(second, name, default);
  }

  /** A session that is seeded and then does whatever it likes, short of writing to the seed knob, ends with that
  knob holding its seed, for the next session as well. So the next session starts from the same seed. */
  method SeededSession(e: Engine, seed: nat, calls: seq<Runs.Call>, ghost depth: nat)
      returns (answers: seq<Option<nat>>, ghost k: nat)
    requires e.Valid() && seed < TWO32
    requires e.State().dice.seed == None && LastMatch(e.world, e.State().db, SEED) == -1
    requires forall c | c in calls :: Runs.CallOk(c) && Execution.CStrings(c) && (c.AddKnob? ==> c.pattern != SEED)
    requires var m := Runs.Machine(SetSeed(e.world, e.State(), seed), e.table.cache);
             Runs.RunAll(e.world, m, calls, depth).Some? && AllSpare(e.world, m, calls, depth, |e.State().db|)
    modifies e.Frame(), e.table, e.table.buckets
    ensures e.Valid() && e.State().dice.seed == Some(seed)
    ensures forall files :: SeedHeld(e.world.(files := files), e.State(), k)
  {
    hide e.Valid, Runs.RunAll, AllSpare, SeedHeld, Runs.CallOk, Execution.CStrings, LastMatch, SetSeed;
    ghost var m := Runs.Machine(SetSeed(e.world, e.State(), seed), e.table.cache);
    k := |e.State().db|;
    SetSeedMakesKnob(e.world, e.State(), seed);
    Execution.TableIsApart(e);
    e.SetSeed(seed);
    answers := Execution.Execute(e, calls, depth);
    RunHoldsSeed(e.world, m, calls, depth, k);
    forall files
      ensures SeedHeld(e.world.(files := files), e.State(), k)
    {
      HeldInBothWorlds(e.world, files, e.State(), k);
    }
  }

  lemma HeldInBothWorlds(w: World, files: map<string, string>, st: State, k: nat)
    requires SeedHeld(w, st, k)
    ensures SeedHeld(w.(files := files), st, k)
  {
    hide Fnmatch;
    forall i | 0 <= i < |st.db|
      ensures Matches(w, st.db[i].pattern, SEED) == Matches(w.(files := files), st.db[i].pattern, SEED)
    {
      Seeds.SameFnmatch(w, w.(files := files), st.db[i].pattern, SEED);
    }
  }

  /** A new engine that finds a save file loads it and nothing else. */
  method Restart(w: World, ghost target: State) returns (failed: bool, second: Engine)
    requires LoadFile(w, EMPTY, SAVE_FILE, 1) == Done(target, true)
    ensures !failed && second.Valid() && second.world == w && second.State() == target && second.table.cache == map[]
    ensures fresh(second.Frame()) && fresh(second.table) && fresh(second.table.buckets)
  {
    hide LoadFile, Engine.Valid;
    second := new Engine(w);
    failed := second.LoadFile(SAVE_FILE, 1);
  }

  /** The first question for a name is answered by evaluation, and remembered. */
  lemma AskedFirst(w: World, st: State, name: string, default: nat)
    requires default < TWO64 && Values.GetDynamic(w, st, name, default).Some?
    ensures var (value, dice) := Values.GetDynamic(w, st, name, default).value;
            Runs.GetValue(w, Runs.Machine(st, map[]), name, default) ==
            Some((Runs.Machine(st.(dice := dice), map[name := value]), value))
    ensures Values.GetDynamic(w, st, name, default).value.1.seed == st.dice.seed
  {
    hide Values.GetDynamic;
    Runs.DynamicGoesOn(w, st, name, default);
  }

  lemma AnswerAfterRestart(w: World, first: Engine, name: string, default: nat)
    requires first.Valid() && name in first.table.cache && name != SEED && default < TWO64
    requires forall n | n in first.table.cache :: IsLiteral(n)
    ensures Values.GetDynamic(w, Restored(w, first), name, default) ==
            Some((first.table.cache[name], Restored(w, first).dice))
  {
    hide IsLiteral, RestoreAll, Values.GetDynamic;
    var i := Listed(first, name);
    Values.CachedAnswersSurvive(w, RecordsOf(first.db.nodes), TableListing(first), i, default);
  }

  /** Where a cached name is printed. */
  lemma Listed(e: Engine, name: string) returns (i: nat)
    requires e.Valid() && name in e.table.cache
    requires forall n | n in e.table.cache :: IsLiteral(n)
    ensures Values.PlainNames(TableListing(e))
    ensures i < |TableListing(e)| && TableListing(e)[i] == Saved(name, e.table.cache[name])
  {
    hide IsLiteral, Engine.Valid;
    TableListingIsTheCache(e);
    var saved := TableListing(e);
    assert Saved(name, e.table.cache[name]) in saved;
    i :| 0 <= i < |saved| && saved[i] == Saved(name, e.table.cache[name]);
  }

  lemma RecordsAreEntries(e: Engine)
    requires e.Valid()
    ensures Entries(RecordsOf(e.db.nodes)) == e.State().db
  {
    LinkedFacts(e.db.nodes, e.db.entries);
  }

  lemma SeedAnswerAfterRestart(w: World, first: Engine, default: nat, k: nat)
    requires first.Valid() && SEED in first.table.cache && default < TWO64
    requires forall n | n in first.table.cache :: IsLiteral(n)
    requires IsSeedKnob(w, first.State().db, k)
    ensures k < |first.State().db|
    ensures var cached, answer := first.table.cache[SEED], Values.GetDynamic(w, Restored(w, first), SEED, default);
            answer.Some? && answer.value.0 == cached <==>
            AnswerForSeed(w, first.State().db, k, cached) == Some(cached)
  {
    hide IsLiteral, RestoreAll, Values.GetDynamic, IsSeedKnob, AnswerForSeed, Engine.Valid;
    KnobInside(w, first.State().db, k);
    var i := Listed(first, SEED);
    RecordsAreEntries(first);
    CachedSeedSurvivesIff(w, RecordsOf(first.db.nodes), TableListing(first), i, k, default);
  }

  lemma SeedAfterRestart(w: World, first: Engine, k: nat)
    requires first.Valid() && forall n | n in first.table.cache :: IsLiteral(n)
    ensures OnlySeed(first.State().db, k) ==>
              && k < |first.State().db|
              && Restored(w, first).dice.seed == SeedSource(first.State().db, first.table.cache, k)
    ensures IsSeedKnob(w, first.State().db, k) ==>
              && OnlySeed(first.State().db, k)
              && (SeedIn(first.State().db, k).Some? ==>
                    Restored(w, first).db == SameKnobs(first, k, SeedIn(first.State().db, k).value))
    ensures SeedHeld(w, first.State(), k) ==> Restored(w, first).dice.seed == first.State().dice.seed
  {
    hide IsLiteral, RestoreAll, Engine.Valid, ReadSeed, ReloadedText, FirstSeed, PrintLLD, RecordsOf, Matches;
    var records, saved := RecordsOf(first.db.nodes), TableListing(first);
    RecordsAreEntries(first);
    if OnlySeed(first.State().db, k) {
      KnobIsRestored(w, records, saved, k);
      if SEED in first.table.cache {
        var i := Listed(first, SEED);
        CachedSeed(saved, i);
      } else {
        TableListingIsTheCache(first);
        NoCachedSeed(saved);
      }
      if IsSeedKnob(w, first.State().db, k) && SeedIn(first.State().db, k).Some? {
        SeedKnobRestores(w, records, SavedRecords(saved), k, SeedIn(first.State().db, k).value);
      }
      if SeedHeld(w, first.State(), k) {
        PrintedSeedReads(first.State().dice.seed.value);
      }
    }
  }

  lemma AnySeedAfterRestart(w: World, first: Engine)
    ensures Restored(w, first).dice.seed == FirstSeed(RecordsOf(first.db.nodes) + SavedRecords(TableListing(first)))
  {
    hide RestoreAll, RecordsOf, FirstSeed;
    FirstSeedIsRestored(w, EMPTY, RecordsOf(first.db.nodes) + SavedRecords(TableListing(first)));
  }

  lemma KnobsAfterRestart(w: World, first: Engine)
    requires first.Valid()
    ensures (forall e | e in first.State().db :: e.pattern != SEED) && SEED !in first.table.cache ==>
              Restored(w, first).db == SeedlessKnobs(first)
    ensures Restored(w, first).db == WrittenKnobs(first) <==> Unchangeable(w, WrittenKnobs(first))
  {
    hide RestoreAll, Engine.Valid, RecordsOf, Unchangeable, AllReloaded;
    var records, saved := RecordsOf(first.db.nodes), TableListing(first);
    RecordsAreEntries(first);
    UnchangedIff(w, records + SavedRecords(saved));
    if (forall e | e in first.State().db :: e.pattern != SEED) && SEED !in first.table.cache {
      assert forall i | 0 <= i < |records| :: Entries(records)[i].pattern == records[i].pattern;
      TableListingIsTheCache(first);
      RestoreFromEmpty(w, records + SavedRecords(saved));
      AllReloadedConcat(records, SavedRecords(saved));
    }
  }
}
