/** The documented lock, which the search does not implement. */
module Locks {
  import opened Text
  import opened Numbers
  import opened Numerals
  import opened World
  import opened Random
  import opened Eval
  import opened Expressions
  import opened Knobs
  import opened Loader
  import opened Replay
  import opened Values

  /** A value written with a second '=': documented to stop the search where it is met. */
  predicate Locked(e: Entry) {
    e.value.Some? && e.value.value != [] && e.value.value[0] == '='
  }

  /** The first locked match from index `from` on; |db| if there is none. */
  function FirstLocked(w: World, db: Db, name: string, from: nat): (k: nat)
    requires from <= |db|
    ensures from <= k <= |db|
    ensures k < |db| ==> Locked(db[k]) && Matches(w, db[k].pattern, name)
    ensures forall i | from <= i < k :: !(Locked(db[i]) && Matches(w, db[i].pattern, name))
    decreases |db| - from
  {
    if from == |db| || (Locked(db[from]) && Matches(w, db[from].pattern, name)) then from
    else FirstLocked(w, db, name, from + 1)
  }

  /** The text that the documentation promises: of the first locked match, without the '=' that locks it. */
  function DocumentedText(w: World, db: Db, name: string, default: Option<string>): Option<string> {
    var k := FirstLocked(w, db, name, 0);
    if k < |db| then Some(db[k].value.value[1..]) else GetString(w, db, name, default)
  }

  /** No knob that matches the name is locked. */
  ghost predicate Unlocked(w: World, db: Db, name: string) {
    forall i | 0 <= i < |db| && Matches(w, db[i].pattern, name) :: !Locked(db[i])
  }

  /** Index `i` holds the first locked match and index `j` the last match, `j` lies behind `i`, and has the text that is
  locked in `i`. */
  ghost predicate Repeated(w: World, db: Db, name: string, i: nat, j: nat) {
    && i < j < |db| && Matches(w, db[i].pattern, name) && Matches(w, db[j].pattern, name)
    && Locked(db[i]) && (forall h | 0 <= h < i && Matches(w, db[h].pattern, name) :: !Locked(db[h]))
    && (forall h | j < h < |db| :: !Matches(w, db[h].pattern, name))
    && db[j].value == Some(db[i].value.value[1..])
  }

  /** What is read is what is documented if and only if no match is locked, or the text locked first happens to be
  repeated by the last match. */
  lemma LocksAreKeptIff(w: World, db: Db, name: string, default: Option<string>)
    ensures GetString(w, db, name, default) == DocumentedText(w, db, name, default) <==>
            Unlocked(w, db, name) || exists i: nat, j: nat :: Repeated(w, db, name, i, j)
  {
    hide Matches, LastMatch, FirstLocked;
    var i, j := FirstLocked(w, db, name, 0), LastMatch(w, db, name);
    if i < |db| {
      LockedIsOtherText(db[i]);
      assert i <= j;
      if GetString(w, db, name, default) == DocumentedText(w, db, name, default) {
        assert Repeated(w, db, name, i, j);
      }
      if i', j': nat :| Repeated(w, db, name, i', j') {
        LastMatchUnique(w, db, name, j');
        assert i' == i;
      }
    }
  }

  /** A locked value is never the text that it locks. */
  lemma LockedIsOtherText(e: Entry)
    requires Locked(e)
    ensures e.value != Some(e.value.value[1..])
  {
    assert |e.value.value[1..]| < |e.value.value|;
  }

  /** The match that the documentation promises. */
  function DocumentedMatch(w: World, db: Db, name: string): int {
    var k := FirstLocked(w, db, name, 0);
    if k < |db| then k else LastMatch(w, db, name)
  }

  /** The search ends up at the documented knob if and only if no match has a locked one in front of it. */
  lemma SearchStopsAtLockIff(w: World, db: Db, name: string)
    ensures LastMatch(w, db, name) == DocumentedMatch(w, db, name) <==>
            forall i, j | 0 <= i < j < |db| && Matches(w, db[i].pattern, name) && Matches(w, db[j].pattern, name) ::
              !Locked(db[i])
  {
    hide Matches, LastMatch, FirstLocked;
  }

  // ---- Inputs that show it ----

  lemma OneKnobLoads(w: World, name: string, value: string, depth: nat)
    requires Writable(w, Record(name, Some(value), "")) && name != SEED && value != []
    ensures Load(w, EMPTY, Start, ["+" + name + ['='] + value], depth) ==
            Done(State([Entry(name, Some(value))], Dice(None, 0)), true)
  {
    hide Load, RestoreAll, Writable;
    var records := [Record(name, Some(value), "")];
    assert records[1..] == [];
    RecordsLoad(w, EMPTY, records, depth);
    RestoreSeedless(w, EMPTY, records);
    assert TokensOf(records) == [TokenOf(records[0])];
    assert EMPTY.db + AllReloaded(records) == [Entry(name, Some(value))];
  }

  /** The argument `+x==100` alone: the lock is documented to give 100, the text read is "=100", and its value is 0. */
  lemma LockIsRead(w: World, depth: nat)
    ensures var db := [Entry("x", Some("=100"))];
            && Load(w, EMPTY, Start, ["+x==100"], depth) == Done(State(db, Dice(None, 0)), true)
            && DocumentedText(w, db, "x", None) == Some("100")
            && GetString(w, db, "x", None) == Some("=100")
            && GetDynamic(w, State(db, Dice(None, 0)), "x", 0) == Some((0, Dice(None, 0)))
  {
    hide Load, Matches, LastMatch, Evaluate;
    OneKnobLoads(w, "x", "=100", depth);
    assert "+" + "x" + ['='] + "=100" == "+x==100";
    LiteralMatchesItself(w, "x", "x");
    var db := [Entry("x", Some("=100"))];
    LastMatchUnique(w, db, "x", 0);
    assert FirstLocked(w, db, "x", 0) == 0;
    assert "=100"[1..] == "100";
    LockEvaluates(w);
  }

  lemma LockEvaluates(w: World)
    ensures Evaluate(w, Dice(None, 0), "=100") == Some((0, Dice(None, 0)))
  {
    hide ParseULL, Evaluate;
    NoNumeralReads("", "", "=100");
    assert "" + "" + "=100" == "=100";
    EvaluateNumber(w, Dice(None, 0), "=100");
  }

  /** Of the arguments `+x==100` and `+x=5`, the later one decides. */
  lemma LockIsOverridden(w: World, depth: nat)
    ensures var db := [Entry("x", Some("=100")), Entry("x", Some("5"))];
            && Load(w, EMPTY, Start, ["+x==100", "+x=5"], depth) == Done(State(db, Dice(None, 0)), true)
            && DocumentedText(w, db, "x", None) == Some("100") && GetString(w, db, "x", None) == Some("5")
  {
    hide Load, RestoreAll, Matches, LastMatch;
    var records := [Record("x", Some("=100"), ""), Record("x", Some("5"), "")];
    assert records[1..][1..] == [];
    RecordsLoad(w, EMPTY, records, depth);
    RestoreSeedless(w, EMPTY, records);
    LiteralMatchesItself(w, "x", "x");
    LastMatchUnique(w, [Entry("x", Some("=100")), Entry("x", Some("5"))], "x", 1);
    assert "=100"[1..] == "100";
    assert TokenOf(records[0]) == "+x==100" && TokenOf(records[1]) == "+x=5";
    assert TokensOf(records) == ["+x==100", "+x=5"];
  }
}
