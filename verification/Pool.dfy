/** The ten iterator slots, handed out in turn, each a cursor over the knob list that restarts after its end. */
module Pool {
  import opened Text
  import opened Numbers
  import opened World
  import opened Knobs

  const MAX_ITERATORS: nat := 10

  /** `at` is the index of the knob last returned, or -1 before the first and after the last. */
  datatype Cursor = Cursor(name: string, at: int)

  datatype Pool = Pool(cursors: seq<Cursor>, current: nat)

  ghost predicate PoolOk(db: Db, p: Pool) {
    && |p.cursors| == MAX_ITERATORS && p.current < MAX_ITERATORS
    && forall i | 0 <= i < MAX_ITERATORS :: -1 <= p.cursors[i].at < |db|
  }

  lemma PoolOkBySize(db: Db, db': Db, p: Pool)
    requires PoolOk(db, p) && |db| <= |db'|
    ensures PoolOk(db', p)
  {
  }

  /** The first matching knob at or after `from`; |db| if there is none. */
  function NextMatch(w: World, db: Db, name: string, from: nat): (k: nat)
    requires from <= |db|
    ensures from <= k <= |db|
    ensures k < |db| ==> Matches(w, db[k].pattern, name)
    ensures forall i | from <= i < k :: !Matches(w, db[i].pattern, name)
    decreases |db| - from
  {
    if from == |db| || Matches(w, db[from].pattern, name) then from else NextMatch(w, db, name, from + 1)
  }

  /** Where sknobs_get_next leaves a cursor; that is also the knob it returns, -1 standing for null. */
  function Moved(w: World, db: Db, c: Cursor): (at: int)
    requires -1 <= c.at < |db|
    ensures -1 <= at < |db|
  {
    var k := NextMatch(w, db, c.name, c.at + 1);
    if k == |db| then -1 else k
  }

  function Taken(p: Pool, name: string): Pool
    requires p.current < |p.cursors|
  {
    Pool(p.cursors[p.current := Cursor(name, -1)], (p.current + 1) % MAX_ITERATORS)
  }

  function Advanced(w: World, db: Db, p: Pool, slot: nat): Pool
    requires slot < |p.cursors| && -1 <= p.cursors[slot].at < |db|
  {
    var c := p.cursors[slot];
    p.(cursors := p.cursors[slot := c.(at := Moved(w, db, c))])
  }

  // ---- One iterator on its own ----

  /** The indices of the matches, in order, from index `from` on. */
  function MatchesFrom(w: World, db: Db, name: string, from: nat): (ms: seq<nat>)
    requires from <= |db|
    ensures forall m | m in ms :: from <= m < |db|
    decreases |db| - from
  {
    var k := NextMatch(w, db, name, from);
    if k == |db| then [] else [k] + MatchesFrom(w, db, name, k + 1)
  }

  ghost predicate Increasing(ms: seq<nat>) {
    forall i, j | 0 <= i < j < |ms| :: ms[i] < ms[j]
  }

  lemma {:induction false} MatchesIncrease(w: World, db: Db, name: string, from: nat)
    requires from <= |db|
    ensures Increasing(MatchesFrom(w, db, name, from))
    decreases |db| - from
  {
    hide NextMatch;
    var k := NextMatch(w, db, name, from);
    if k < |db| {
      var rest := MatchesFrom(w, db, name, k + 1);
      MatchesIncrease(w, db, name, k + 1);
      assert forall i | 0 <= i < |rest| :: rest[i] in rest;
      assert forall i | 0 <= i < |rest| :: k < rest[i];
    }
  }

  /** All matches are listed. */
  lemma {:induction false} MatchesFromIsExact(w: World, db: Db, name: string, from: nat)
    requires from <= |db|
    ensures forall i | from <= i < |db| :: i in MatchesFrom(w, db, name, from) <==> Matches(w, db[i].pattern, name)
    decreases |db| - from
  {
    hide Matches, NextMatch;
    var k := NextMatch(w, db, name, from);
    var ms := MatchesFrom(w, db, name, from);
    if k < |db| {
      var rest := MatchesFrom(w, db, name, k + 1);
      MatchesFromIsExact(w, db, name, k + 1);
      assert ms == [k] + rest;
      forall i | from <= i < |db|
        ensures i in ms <==> Matches(w, db[i].pattern, name)
      {
        assert i in ms <==> i == k || i in rest;
      }
    }
  }

  /** Behind the i-th match come the matches from i + 1 on. */
  lemma {:induction false} MatchesBehind(w: World, db: Db, name: string, from: nat, i: nat)
    requires from <= |db| && i < |MatchesFrom(w, db, name, from)|
    ensures MatchesFrom(w, db, name, from)[i] < |db|
    ensures MatchesFrom(w, db, name, MatchesFrom(w, db, name, from)[i] + 1) == MatchesFrom(w, db, name, from)[i + 1..]
    decreases |db| - from
  {
    var k := NextMatch(w, db, name, from);
    var ms, rest := MatchesFrom(w, db, name, from), MatchesFrom(w, db, name, k + 1);
    assert ms == [k] + rest;
    if i > 0 {
      MatchesBehind(w, db, name, k + 1, i - 1);
    }
  }

  /** The cursor after `n` calls of sknobs_get_next. */
  function After(w: World, db: Db, c: Cursor, n: nat): (r: Cursor)
    requires -1 <= c.at < |db|
    ensures r.name == c.name && -1 <= r.at < |db|
  {
    if n == 0 then c else var b := After(w, db, c, n - 1); b.(at := Moved(w, db, b))
  }

  /** The r-th of the answers match 0, ..., match m - 1, null. */
  function Answer(ms: seq<nat>, r: nat): int {
    if r < |ms| then ms[r] else -1
  }

  lemma AnswerStep(w: World, db: Db, name: string, r: nat)
    requires var ms := MatchesFrom(w, db, name, 0); r <= |ms|
    ensures var ms := MatchesFrom(w, db, name, 0);
            && -1 <= Answer(ms, r) < |db|
            && Moved(w, db, Cursor(name, Answer(ms, r))) == Answer(ms, if r == |ms| then 0 else r + 1)
  {
    hide Matches;
    var ms := MatchesFrom(w, db, name, 0);
    if r < |ms| {
      MatchesBehind(w, db, name, 0, r);
      assert ms[r] in ms;
    }
  }

  /** A fresh iterator returns match 0, 1, ..., m - 1, then null, and then starts again: the knob returned by
  call n (counting from 0) is match n modulo m + 1, and null where that is m. */
  lemma {:induction false} IterationIsPeriodic(w: World, db: Db, name: string, n: nat)
    ensures var ms := MatchesFrom(w, db, name, 0);
            After(w, db, Cursor(name, -1), n + 1) == Cursor(name, Answer(ms, n % (|ms| + 1)))
  {
    hide Matches, Moved, MatchesFrom, Answer;
    var ms := MatchesFrom(w, db, name, 0);
    var period := |ms| + 1;
    ModuloStep(if n > 0 then n - 1 else 0, period);
    if n > 0 {
      IterationIsPeriodic(w, db, name, n - 1);
      AnswerStep(w, db, name, (n - 1) % period);
    } else {
      FirstAnswer(w, db, name);
    }
  }

  lemma FirstAnswer(w: World, db: Db, name: string)
    ensures After(w, db, Cursor(name, -1), 1) == Cursor(name, Answer(MatchesFrom(w, db, name, 0), 0))
  {
    assert After(w, db, Cursor(name, -1), 0) == Cursor(name, -1);
  }

  // ---- Iterators among each other ----

  /** What can happen between two steps of an iterator. The setters write the value of a knob or append one. */
  datatype Use = Iterate(name: string) | Next(slot: nat) | Append(entry: Entry) | Write(index: nat, value: string)

  predicate UseOk(u: Use) {
    u.Next? ==> u.slot < MAX_ITERATORS
  }

  function Changed(db: Db, u: Use): (r: Db)
    ensures |db| <= |r|
  {
    if u.Append? then db + [u.entry]
    else if u.Write? && u.index < |db| then db[u.index := Entry(db[u.index].pattern, Some(u.value))]
    else db
  }

  function Used(w: World, db: Db, p: Pool, u: Use): (r: Pool)
    requires PoolOk(db, p) && UseOk(u)
    ensures PoolOk(Changed(db, u), r)
  {
    if u.Iterate? then Taken(p, u.name) else if u.Next? then Advanced(w, db, p, u.slot) else p
  }

  function AllUsed(w: World, db: Db, p: Pool, uses: seq<Use>): Pool
    requires PoolOk(db, p) && forall u | u in uses :: UseOk(u)
    decreases |uses|
  {
    if uses == [] then p else AllUsed(w, Changed(db, uses[0]), Used(w, db, p, uses[0]), uses[1..])
  }

  function Taking(uses: seq<Use>): nat {
    if uses == [] then 0 else (if uses[0].Iterate? then 1 else 0) + Taking(uses[1..])
  }

  function Moving(uses: seq<Use>, slot: nat): nat {
    if uses == [] then 0 else (if uses[0] == Next(slot) then 1 else 0) + Moving(uses[1..], slot)
  }

  /** Where a cursor gets by its own steps, with nothing else going on but the changes of the database. */
  function Own(w: World, db: Db, c: Cursor, uses: seq<Use>, slot: nat): Cursor
    requires -1 <= c.at < |db|
    decreases |uses|
  {
    if uses == [] then c
    else Own(w, Changed(db, uses[0]), if uses[0] == Next(slot) then c.(at := Moved(w, db, c)) else c, uses[1..], slot)
  }

  /** `slot` comes up for reuse after `free` more iterators. */
  predicate Distance(p: Pool, slot: nat, free: nat) {
    p.current + free == slot || p.current + free == slot + MAX_ITERATORS
  }

  lemma UseKeepsDistance(w: World, db: Db, p: Pool, u: Use, slot: nat, free: nat)
    requires PoolOk(db, p) && UseOk(u)
    requires slot < MAX_ITERATORS && free < MAX_ITERATORS && Distance(p, slot, free) && (u.Iterate? ==> free > 0)
    ensures Distance(Used(w, db, p, u), slot, if u.Iterate? then free - 1 else free)
    ensures Used(w, db, p, u).cursors[slot] ==
            if u == Next(slot) then p.cursors[slot].(at := Moved(w, db, p.cursors[slot])) else p.cursors[slot]
  {
    hide Moved;
  }

  /** Whatever else is looked up, added or set, an iterator stays its own until its slot comes round again. */
  lemma {:induction false} KeepsItsStream(w: World, db: Db, p: Pool, slot: nat, uses: seq<Use>, free: nat)
    requires PoolOk(db, p) && slot < MAX_ITERATORS && free < MAX_ITERATORS
    requires forall u | u in uses :: UseOk(u)
    requires Distance(p, slot, free) && Taking(uses) <= free
    ensures slot < |AllUsed(w, db, p, uses).cursors| && AllUsed(w, db, p, uses).current < MAX_ITERATORS
    ensures AllUsed(w, db, p, uses).cursors[slot] == Own(w, db, p.cursors[slot], uses, slot)
    ensures Distance(AllUsed(w, db, p, uses), slot, free - Taking(uses))
    decreases |uses|
  {
    hide Moved, Used, Distance, Changed;
    if uses != [] {
      var u, free' := uses[0], if uses[0].Iterate? then free - 1 else free;
      UseKeepsDistance(w, db, p, u, slot, free);
      KeepsItsStream(w, Changed(db, u), Used(w, db, p, u), slot, uses[1..], free');
    }
  }

  predicate SamePatterns(db: Db, db': Db) {
    |db| == |db'| && forall i | 0 <= i < |db| :: db[i].pattern == db'[i].pattern
  }

  lemma {:induction false} NextMatchByPatterns(w: World, db: Db, db': Db, name: string, from: nat)
    requires SamePatterns(db, db') && from <= |db|
    ensures NextMatch(w, db, name, from) == NextMatch(w, db', name, from)
    decreases |db| - from
  {
    if from < |db| { NextMatchByPatterns(w, db, db', name, from + 1); }
  }

  lemma {:induction false} AfterShift(w: World, db: Db, c: Cursor, n: nat)
    requires -1 <= c.at < |db|
    ensures After(w, db, c.(at := Moved(w, db, c)), n) == After(w, db, c, n + 1)
  {
    hide Moved;
    if n > 0 { AfterShift(w, db, c, n - 1); }
  }

  lemma SameMove(w: World, db: Db, db': Db, c: Cursor)
    requires SamePatterns(db, db') && -1 <= c.at < |db|
    ensures |db| == |db'| && Moved(w, db, c) == Moved(w, db', c)
  {
    hide NextMatch;
    NextMatchByPatterns(w, db, db', c.name, c.at + 1);
  }

  lemma ChangedPatterns(db: Db, db': Db, u: Use)
    requires SamePatterns(db, db') && !u.Append?
    ensures SamePatterns(db, Changed(db', u))
  {
  }

  /** As long as no knob is added, the stream is the one over the database as it was: setting values in place
  does not disturb it. */
  lemma {:induction false} OwnIsAfter(w: World, db: Db, db': Db, c: Cursor, uses: seq<Use>, slot: nat)
    requires SamePatterns(db, db') && -1 <= c.at < |db|
    requires forall u | u in uses :: !u.Append?
    ensures Own(w, db', c, uses, slot) == After(w, db, c, Moving(uses, slot))
    decreases |uses|
  {
    hide NextMatch, Changed, SamePatterns;
    if uses != [] {
      var u := uses[0];
      var next := if u == Next(slot) then c.(at := Moved(w, db, c)) else c;
      SameMove(w, db, db', c);
      ChangedPatterns(db, db', u);
      OwnIsAfter(w, db, Changed(db', u), next, uses[1..], slot);
      if u == Next(slot) {
        AfterShift(w, db, c, Moving(uses[1..], slot));
      }
    }
  }

  /** An iterator just made keeps its own stream through up to nine more `sknobs_iterate` calls, interleaved
  with steps of any iterators and changes of the database; the tenth one takes its slot. */
  lemma OwnStreamUntilTenMore(w: World, db: Db, before: Pool, name: string, uses: seq<Use>)
    requires PoolOk(db, before)
    requires forall u | u in uses :: UseOk(u)
    requires Taking(uses) <= 9
    ensures var slot := before.current;
            var last := AllUsed(w, db, Taken(before, name), uses);
            && slot < |last.cursors|
            && last.cursors[slot] == Own(w, db, Cursor(name, -1), uses, slot)
            && ((forall u | u in uses :: !u.Append?) ==>
                  last.cursors[slot] == After(w, db, Cursor(name, -1), Moving(uses, slot)))
            && (Taking(uses) == 9 <==> last.current == slot)
  {
    hide Moved, Used, After, Own;
    KeepsItsStream(w, db, Taken(before, name), before.current, uses, MAX_ITERATORS - 1);
    if forall u | u in uses :: !u.Append? {
      OwnIsAfter(w, db, db, Cursor(name, -1), uses, before.current);
    }
  }
}
