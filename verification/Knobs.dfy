/** The knob database as a sequence of patterns and values, searched so that the last match wins. */
module Knobs {
  import opened Text
  import opened World

  /** A knob. Its value is NULL only if it was added so through the C interface. */
  datatype Entry = Entry(pattern: string, value: Option<string>)

  type Db = seq<Entry>

  /** Does `sknobs_add` accept this pattern? A regular expression has to compile; a lone '+' is let through. */
  predicate Acceptable(w: World, pattern: string) {
    |pattern| > 1 && pattern[0] == '+' ==> w.compiles(pattern[1..])
  }

  /** sknobs_add */
  function Add(w: World, db: Db, pattern: string, value: Option<string>): Db {
    if Acceptable(w, pattern) then db + [Entry(pattern, value)] else db
  }

  /** A regular expression is added if and only if it compiles; a lone '+' and every other pattern always are. */
  lemma AddedIff(w: World, db: Db, expression: string, pattern: string, value: Option<string>)
    ensures expression != [] ==>
              Add(w, db, "+" + expression, value) ==
              if w.compiles(expression) then db + [Entry("+" + expression, value)] else db
    ensures pattern == "+" || pattern == [] || pattern[0] != '+' ==>
              Add(w, db, pattern, value) == db + [Entry(pattern, value)]
  {
    assert ("+" + expression)[1..] == expression;
  }

  /** sknobs_find_last: the greatest matching index, or -1. */
  function LastMatch(w: World, db: Db, name: string): (k: int)
    ensures -1 <= k < |db|
    ensures k >= 0 ==> Matches(w, db[k].pattern, name)
    ensures forall i | k < i < |db| :: !Matches(w, db[i].pattern, name)
  {
    if db == [] then -1
    else if Matches(w, db[|db| - 1].pattern, name) then |db| - 1
    else LastMatch(w, db[..|db| - 1], name)
  }

  function GetString(w: World, db: Db, name: string, default: Option<string>): Option<string> {
    if LastMatch(w, db, name) >= 0 then db[LastMatch(w, db, name)].value else default
  }

  /** sknobs_set_string: overwrite the value of the last match, or append. */
  function SetString(w: World, db: Db, name: string, value: string): Db {
    var k := LastMatch(w, db, name);
    if k >= 0 then db[k := Entry(db[k].pattern, Some(value))] else Add(w, db, name, Some(value))
  }

  lemma LastMatchUnique(w: World, db: Db, name: string, k: int)
    requires -1 <= k < |db|
    requires k >= 0 ==> Matches(w, db[k].pattern, name)
    requires forall i | k < i < |db| :: !Matches(w, db[i].pattern, name)
    ensures LastMatch(w, db, name) == k
  {
    var j := LastMatch(w, db, name);
    assert j >= 0 ==> Matches(w, db[j].pattern, name);
  }

  /** Only the patterns decide where the last match is. */
  lemma LastMatchByPatterns(w: World, db: Db, db': Db, name: string)
    requires |db| == |db'| && forall i | 0 <= i < |db| :: db[i].pattern == db'[i].pattern
    ensures LastMatch(w, db, name) == LastMatch(w, db', name)
  {
    LastMatchUnique(w, db', name, LastMatch(w, db, name));
  }

  /** Appending a knob moves the last match exactly for the names the new pattern matches. */
  lemma LastMatchSnoc(w: World, db: Db, e: Entry, name: string)
    ensures LastMatch(w, db + [e], name) == if Matches(w, e.pattern, name) then |db| else LastMatch(w, db, name)
  {
    var all := db + [e];
    assert all[..|db|] == db && all[|db|] == e;
  }

  /** A regular expression that was added is found for exactly the names that regexec matches. */
  lemma RegularIsFoundIff(w: World, db: Db, expression: string, value: Option<string>, name: string)
    requires expression != [] && w.compiles(expression)
    ensures LastMatch(w, Add(w, db, "+" + expression, value), name) == |db| <==> w.regex(expression, name)
    ensures GetString(w, Add(w, db, "+" + expression, value), name, None) ==
            if w.regex(expression, name) then value else GetString(w, db, name, None)
  {
    hide Matches;
    AddedIff(w, db, expression, [], value);
    MarkedIsRegular(w, expression, name);
    LastMatchSnoc(w, db, Entry("+" + expression, value), name);
  }

  /** Which answers a setter can change: exactly those of names whose last match is the knob it writes; if it
  appends, those of names that the new pattern matches. Everything else reads as before. */
  lemma SetStringChanges(w: World, db: Db, name: string, value: string, other: string, default: Option<string>)
    ensures var k := LastMatch(w, db, name);
            GetString(w, SetString(w, db, name, value), other, default) ==
              if k >= 0 then
                if LastMatch(w, db, other) == k then Some(value) else GetString(w, db, other, default)
              else if Acceptable(w, name) && Matches(w, name, other) then Some(value)
              else GetString(w, db, other, default)
  {
    var k := LastMatch(w, db, name);
    var db' := SetString(w, db, name, value);
    if k >= 0 {
      LastMatchByPatterns(w, db, db', other);
    } else if Acceptable(w, name) {
      LastMatchSnoc(w, db, Entry(name, Some(value)), other);
    }
  }

  /** The name already has a match, or makes a pattern that matches itself. */
  predicate Settable(w: World, db: Db, name: string) {
    LastMatch(w, db, name) >= 0 || (Acceptable(w, name) && Matches(w, name, name))
  }

  /** A value set can be read back exactly if the name is settable. */
  lemma SetThenGet(w: World, db: Db, name: string, value: string)
    ensures GetString(w, SetString(w, db, name, value), name, None) == Some(value) <==> Settable(w, db, name)
  {
    SetStringChanges(w, db, name, value, name, None);
  }

  lemma LiteralIsSettable(w: World, db: Db, name: string)
    requires IsLiteral(name)
    ensures Settable(w, db, name)
  {
    LiteralMatchesItself(w, name, name);
  }

  // ---- Looking up files ----

  const SEARCH_PATH: string := "sknobs.search_path"

  /** "%s/%s"; a NULL directory prints as glibc prints it. */
  function Candidate(e: Entry, file: string): string {
    (if e.value.Some? then e.value.value else "(null)") + "/" + file
  }

  predicate Hit(w: World, e: Entry, file: string) {
    Matches(w, e.pattern, SEARCH_PATH) && Candidate(e, file) in w.files
  }

  /** The first search-path knob from index `from` on whose directory holds the file; |db| if there is none. */
  function FirstHit(w: World, db: Db, file: string, from: nat): (k: nat)
    requires from <= |db|
    ensures from <= k <= |db|
    ensures k < |db| ==> Hit(w, db[k], file)
    ensures forall i | from <= i < k :: !Hit(w, db[i], file)
    decreases |db| - from
  {
    if from == |db| || Hit(w, db[from], file) then from else FirstHit(w, db, file, from + 1)
  }

  /** sknobs_find_file: the first existing candidate in database order, else the name itself. */
  function FindFile(w: World, db: Db, file: string): string {
    var k := FirstHit(w, db, file, 0);
    if k < |db| then Candidate(db[k], file) else file
  }

  lemma FindFileIs(w: World, db: Db, file: string, k: nat)
    requires k <= |db| && (k < |db| ==> Hit(w, db[k], file))
    requires forall i | 0 <= i < k :: !Hit(w, db[i], file)
    ensures FindFile(w, db, file) == if k < |db| then Candidate(db[k], file) else file
  {
    hide Hit;
    var j := FirstHit(w, db, file, 0);
    assert j < |db| ==> Hit(w, db[j], file);
  }
}
