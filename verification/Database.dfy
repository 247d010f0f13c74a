/** The knob list as it stands in memory: linked nodes with a tail pointer, searched through iterator slots. */
module DatabaseModule {
  import opened Text
  import opened World
  import opened Knobs
  import opened Pool

  class Knob {
    const pattern: string
    const comment: string
    var value: Option<string>
    var next: Knob?

    constructor (pattern: string, value: Option<string>, comment: string)
      ensures this.pattern == pattern && this.value == value && this.comment == comment && next == null
    {
      this.pattern, this.value, this.comment, next := pattern, value, comment, null;
    }
  }

  /** The node at an index; null stands for one that is out of range. */
  ghost function NodeAt(nodes: seq<Knob>, i: int): Knob? {
    if 0 <= i < |nodes| then nodes[i] else null
  }

  /** The nodes are distinct, say what `entries` says, and each points to the next. */
  ghost predicate Linked(nodes: seq<Knob>, entries: Db)
    reads nodes
    ensures Linked(nodes, entries) ==> |nodes| == |entries|
  {
    && |entries| == |nodes|
    && (forall i | 0 <= i < |nodes| :: entries[i] == Entry(nodes[i].pattern, nodes[i].value))
    && Distinct(nodes)
    && ChainTo(nodes, null)
  }

  ghost predicate Distinct(nodes: seq<Knob>) {
    forall i, j | 0 <= i < j < |nodes| :: nodes[i] != nodes[j]
  }

  lemma DistinctFrom(nodes: seq<Knob>, k: nat)
    requires Distinct(nodes) && k < |nodes|
    ensures forall i | 0 <= i < |nodes| && i != k :: nodes[i] != nodes[k]
  {
  }

  /** Each node points to the next, and the last one to `end`. */
  ghost predicate ChainTo(nodes: seq<Knob>, end: Knob?)
    reads nodes
  {
    forall i {:trigger nodes[i]} | 0 <= i < |nodes| ::
      nodes[i].next == if i + 1 < |nodes| then nodes[i + 1] else end
  }

  lemma LinkedFacts(nodes: seq<Knob>, entries: Db)
    requires Linked(nodes, entries)
    ensures forall i | 0 <= i < |nodes| :: entries[i] == Entry(nodes[i].pattern, nodes[i].value)
    ensures Distinct(nodes) && ChainTo(nodes, null)
  {
  }

  lemma NodeSays(nodes: seq<Knob>, entries: Db, i: nat)
    requires Linked(nodes, entries) && i < |nodes|
    ensures entries[i] == Entry(nodes[i].pattern, nodes[i].value)
    ensures nodes[i].next == NodeAt(nodes, i + 1)
  {
  }

  /** What holds of a linked list, seen from node `k`. */
  lemma LinkedAround(nodes: seq<Knob>, entries: Db, k: nat)
    requires Linked(nodes, entries)
    ensures Distinct(nodes) && (k < |nodes| ==> forall i | 0 <= i < |nodes| && i != k :: nodes[i] != nodes[k])
    ensures forall i | 0 <= i < |nodes| :: entries[i] == Entry(nodes[i].pattern, nodes[i].value)
    ensures forall i | 0 <= i < |nodes| :: nodes[i].next == NodeAt(nodes, i + 1)
  {
    if k < |nodes| { DistinctFrom(nodes, k); }
  }

  lemma Ends(nodes: seq<Knob>, knob: Knob)
    ensures NodeAt(nodes, |nodes| - 1) == if nodes == [] then null else nodes[|nodes| - 1]
    ensures NodeAt(nodes + [knob], 0) == if nodes == [] then knob else NodeAt(nodes, 0)
    ensures NodeAt(nodes + [knob], |nodes|) == knob
  {
  }

  /** With other values but the same links, the list stays linked. */
  lemma StillLinked(nodes: seq<Knob>, entries: Db)
    requires Distinct(nodes) && |entries| == |nodes|
    requires forall i | 0 <= i < |nodes| :: nodes[i].next == NodeAt(nodes, i + 1)
    requires forall i | 0 <= i < |nodes| :: entries[i] == Entry(nodes[i].pattern, nodes[i].value)
    ensures Linked(nodes, entries)
  {
  }

  /** With the last node, if there is one, pointing to a new one, the longer list is linked. */
  lemma LongerIsLinked(nodes: seq<Knob>, entries: Db, knob: Knob)
    requires Distinct(nodes) && |entries| == |nodes| && knob !in nodes && knob.next == null
    requires forall i | 0 <= i < |nodes| - 1 :: nodes[i].next == NodeAt(nodes, i + 1)
    requires nodes != [] ==> nodes[|nodes| - 1].next == knob
    requires forall i | 0 <= i < |nodes| :: entries[i] == Entry(nodes[i].pattern, nodes[i].value)
    ensures Linked(nodes + [knob], entries + [Entry(knob.pattern, knob.value)])
  {
    assert ChainTo(nodes, knob);
    LinkedLonger(nodes, entries, knob);
  }

  lemma LinkedLonger(nodes: seq<Knob>, entries: Db, knob: Knob)
    requires |entries| == |nodes|
    requires forall i | 0 <= i < |nodes| :: entries[i] == Entry(nodes[i].pattern, nodes[i].value)
    requires Distinct(nodes) && knob !in nodes
    requires ChainTo(nodes, knob) && knob.next == null
    ensures Linked(nodes + [knob], entries + [Entry(knob.pattern, knob.value)])
  {
  }

  class Slot {
    var name: string
    var knob: Knob?

    constructor ()
      ensures name == "" && knob == null
    {
      name, knob := "", null;
    }
  }

  /** The slots are distinct and stand where the pool says. */
  ghost predicate Placed(slots: seq<Slot>, pool: Pool, nodes: seq<Knob>)
    reads slots
    ensures Placed(slots, pool, nodes) ==> |slots| == |pool.cursors| == MAX_ITERATORS
  {
    && |slots| == |pool.cursors| == MAX_ITERATORS
    && (forall i, j | 0 <= i < j < |slots| :: slots[i] != slots[j])
    && forall i | 0 <= i < |slots| ::
         slots[i].name == pool.cursors[i].name && slots[i].knob == NodeAt(nodes, pool.cursors[i].at)
  }

  lemma PlacedInLonger(slots: seq<Slot>, pool: Pool, nodes: seq<Knob>, knob: Knob)
    requires Placed(slots, pool, nodes)
    requires forall i | 0 <= i < |pool.cursors| :: -1 <= pool.cursors[i].at < |nodes|
    ensures Placed(slots, pool, nodes + [knob])
  {
  }

  lemma LongerIsPlaced(slots: seq<Slot>, pool: Pool, nodes: seq<Knob>, entries: Db, knob: Knob)
    requires Placed(slots, pool, nodes) && PoolOk(entries, pool) && |entries| == |nodes|
    ensures Placed(slots, pool, nodes + [knob])
  {
    PlacedInLonger(slots, pool, nodes, knob);
  }

  class Database {
    const world: World
    var head: Knob?
    var tail: Knob?
    const slots: seq<Slot>
    var current: nat

    // the list as a sequence of nodes, what it says, and where the iterators stand
    ghost var nodes: seq<Knob>
    ghost var entries: Db
    ghost var pool: Pool
    ghost var Repr: set<object>

    ghost predicate Valid()
      reads this, Repr
      ensures Valid() ==> this in Repr
      ensures Valid() ==> |nodes| == |entries| && |slots| == MAX_ITERATORS && PoolOk(entries, pool)
    {
      && this in Repr
      && (forall k | k in nodes :: k in Repr)
      && (forall s | s in slots :: s in Repr)
      && Linked(nodes, entries)
      && head == NodeAt(nodes, 0) && tail == NodeAt(nodes, |nodes| - 1)
      && PoolOk(entries, pool) && current == pool.current
      && Placed(slots, pool, nodes)
    }

    constructor (w: World)
      ensures Valid() && fresh(Repr) && world == w
      ensures entries == [] && nodes == []
    {
      var made: seq<Slot> := [];
      while |made| < MAX_ITERATORS
        invariant |made| <= MAX_ITERATORS
        invariant forall i | 0 <= i < |made| :: fresh(made[i]) && made[i].name == "" && made[i].knob == null
        invariant forall i, j | 0 <= i < j < |made| :: made[i] != made[j]
      {
        var slot := new Slot();
        made := made + [slot];
      }
      world, slots := w, made;
      head, tail, current := null, null, 0;
      nodes, entries, pool := [], [], Pool(seq(MAX_ITERATORS, i => Cursor("", -1)), 0);
      Repr := {this} + (set s: object | s in made);
    }

    /** sknobs_add; the answer says whether it failed. */
    method Add(pattern: string, value: Option<string>, comment: string) returns (failed: bool)
      requires Valid()
      modifies Repr
      ensures Valid() && fresh(Repr - old(Repr))
      ensures entries == Knobs.Add(world, old(entries), pattern, value)
      ensures failed <==> !Acceptable(world, pattern)
      ensures pool == old(pool)
      ensures nodes[..|old(nodes)|] == old(nodes)
      ensures failed ==> nodes == old(nodes)
      ensures !failed ==> |nodes| == |old(nodes)| + 1 && nodes[|old(nodes)|].comment == comment
    {
      hide Valid;
      if |pattern| > 1 && pattern[0] == '+' && !world.compiles(pattern[1..]) {
        return true;
      }
      var knob := new Knob(pattern, value, comment);
      Link(knob);
      return false;
    }

    /** Hangs a new knob on the tail of the list. */
    method Link(knob: Knob)
      requires Valid() && knob !in Repr && knob.next == null
      modifies Repr
      ensures Valid() && Repr == old(Repr) + {knob}
      ensures nodes == old(nodes) + [knob] && entries == old(entries) + [Entry(knob.pattern, knob.value)]
      ensures pool == old(pool)
    {
      hide Placed, Linked, Distinct, ChainTo, PoolOk, NodeAt;
      Ends(nodes, knob);
      LinkedAround(nodes, entries, if nodes == [] then 0 else |nodes| - 1);
      if tail != null {
        tail.next := knob;
        tail := knob;
      } else {
        head, tail := knob, knob;
      }
      LongerIsPlaced(slots, pool, nodes, entries, knob);
      LongerIsLinked(nodes, entries, knob);
      PoolOkBySize(entries, entries + [Entry(knob.pattern, knob.value)], pool);
      nodes, entries, Repr := nodes + [knob], entries + [Entry(knob.pattern, knob.value)], Repr + {knob};
    }

    /** sknobs_iterate: takes the next slot. */
    method Iterate(name: string) returns (slot: Slot)
      requires Valid()
      modifies Repr
      ensures Valid() && Repr == old(Repr)
      ensures slot == slots[old(pool).current]
      ensures pool == Taken(old(pool), name)
      ensures entries == old(entries) && nodes == old(nodes)
    {
      hide Linked;
      slot := slots[current];
      current := (current + 1) % MAX_ITERATORS;
      slot.name := name;
      slot.knob := null;
      pool := Taken(pool, name);
    }

    /** sknobs_get_next */
    method GetNext(slot: Slot, ghost s: nat) returns (knob: Knob?)
      requires Valid() && s < |slots| && slot == slots[s]
      modifies Repr
      ensures Valid() && Repr == old(Repr)
      ensures entries == old(entries) && nodes == old(nodes)
      ensures pool == Advanced(world, entries, old(pool), s)
      ensures knob == NodeAt(nodes, pool.cursors[s].at)
    {
      hide Matches, Linked, NextMatch;
      var p := if slot.knob == null then head else FollowLink(slot.knob, pool.cursors[s].at);
      p := Search(p, slot.name, pool.cursors[s].at + 1);
      slot.knob := p;
      pool := Advanced(world, entries, pool, s);
      return p;
    }

    function FollowLink(knob: Knob, ghost i: nat): (next: Knob?)
      requires Linked(nodes, entries) && i < |nodes| && knob == nodes[i]
      reads this, nodes, knob
      ensures next == NodeAt(nodes, i + 1)
    {
      knob.next
    }

    /** Walks the list from a node to the first match. */
    method Search(start: Knob?, name: string, ghost i: nat) returns (p: Knob?)
      requires Linked(nodes, entries) && i <= |nodes| && start == NodeAt(nodes, i)
      ensures p == NodeAt(nodes, NextMatch(world, entries, name, i))
    {
      hide Matches, Linked;
      p := start;
      ghost var k := i;
      if p != null { NodeSays(nodes, entries, i); }
      while p != null && !Matches(world, p.pattern, name)
        invariant i <= k <= |nodes|
        invariant p == NodeAt(nodes, k)
        invariant p != null ==> entries[k].pattern == p.pattern
        invariant NextMatch(world, entries, name, i) == NextMatch(world, entries, name, k)
        decreases |nodes| - k
      {
        NodeSays(nodes, entries, k);
        p := p.next;
        k := k + 1;
        if p != null { NodeSays(nodes, entries, k); }
      }
    }

    /** sknobs_find_last: the knob with the greatest matching index. */
    method FindLast(name: string) returns (result: Knob?)
      requires Valid()
      modifies Repr
      ensures Valid() && Repr == old(Repr)
      ensures result == NodeAt(nodes, LastMatch(world, entries, name))
      ensures entries == old(entries) && nodes == old(nodes)
      ensures pool == Taken(old(pool), name)
    {
      hide Matches, Valid, NextMatch;
      ghost var s := pool.current;
      var slot := Iterate(name);
      result := null;
      var knob := GetNext(slot, s);
      ghost var last := -1;
      while knob != null
        invariant Valid() && Repr == old(Repr) && entries == old(entries) && nodes == old(nodes)
        invariant knob == NodeAt(nodes, pool.cursors[s].at)
        invariant pool == Taken(old(pool), name).(cursors := pool.cursors)
        invariant pool.cursors == Taken(old(pool), name).cursors[s := Cursor(name, pool.cursors[s].at)]
        invariant -1 <= last < |entries|
        invariant result == NodeAt(nodes, last)
        invariant last >= 0 ==> Matches(world, entries[last].pattern, name)
        invariant knob != null ==>
                    last < pool.cursors[s].at && Matches(world, entries[pool.cursors[s].at].pattern, name)
        invariant forall i | last < i < (if knob == null then |entries| else pool.cursors[s].at) ::
                    !Matches(world, entries[i].pattern, name)
        decreases |entries| - last
      {
        last := pool.cursors[s].at;
        result := knob;
        knob := GetNext(slot, s);
      }
      LastMatchUnique(world, entries, name, last);
    }

    /** sknobs_exists */
    method Exists(name: string) returns (found: bool)
      requires Valid()
      modifies Repr
      ensures Valid() && Repr == old(Repr) && entries == old(entries) && nodes == old(nodes)
      ensures found <==> exists i | 0 <= i < |entries| :: Matches(world, entries[i].pattern, name)
      ensures pool == Taken(old(pool), name)
    {
      hide Matches, Valid, NextMatch;
      ghost var s := pool.current;
      var slot := Iterate(name);
      var knob := GetNext(slot, s);
      found := knob != null;
      while knob != null
        invariant Valid() && Repr == old(Repr) && entries == old(entries) && nodes == old(nodes)
        invariant knob == NodeAt(nodes, pool.cursors[s].at)
        invariant pool == Taken(old(pool), name).(cursors := pool.cursors)
        invariant pool.cursors == Taken(old(pool), name).cursors[s := Cursor(name, pool.cursors[s].at)]
        decreases if knob == null then 0 else |entries| - pool.cursors[s].at
      {
        knob := GetNext(slot, s);
      }
    }

    /** sknobs_get_string */
    method GetString(name: string, default: Option<string>) returns (value: Option<string>)
      requires Valid()
      modifies Repr
      ensures Valid() && Repr == old(Repr) && entries == old(entries) && nodes == old(nodes)
      ensures value == Knobs.GetString(world, entries, name, default)
      ensures pool == Taken(old(pool), name)
    {
      hide Matches;
      var knob := FindLast(name);
      value := if knob != null then knob.value else default;
    }

    /** sknobs_set_string: overwrites exactly the last match, in place, or appends. */
    method SetString(name: string, value: string, comment: string)
      requires Valid()
      modifies Repr
      ensures Valid() && fresh(Repr - old(Repr))
      ensures entries == Knobs.SetString(world, old(entries), name, value)
      ensures LastMatch(world, old(entries), name) >= 0 ==> nodes == old(nodes) && Repr == old(Repr)
      ensures nodes[..|old(nodes)|] == old(nodes)
      ensures |nodes| > |old(nodes)| ==> nodes[|old(nodes)|].comment == comment
      ensures pool == Taken(old(pool), name)
    {
      hide Matches;
      var knob := FindLast(name);
      if knob != null {
        Overwrite(knob, value, LastMatch(world, entries, name));
      } else {
        var failed := Add(name, Some(value), comment);
      }
    }

    method Overwrite(knob: Knob, value: string, ghost k: nat)
      requires Valid() && k < |nodes| && knob == nodes[k]
      modifies this, knob
      ensures Valid() && Repr == old(Repr) && nodes == old(nodes) && pool == old(pool)
      ensures entries == old(entries)[k := Entry(old(entries)[k].pattern, Some(value))]
    {
      hide Placed, Linked, PoolOk, Distinct, ChainTo, NodeAt;
      LinkedAround(nodes, entries, k);
      ghost var changed := entries[k := Entry(entries[k].pattern, Some(value))];
      PoolOkBySize(entries, changed, pool);
      entries := changed;
      knob.value := Some(value);
      StillLinked(nodes, changed);
    }

    /** sknobs_find_file: runs its iterator to the end, also after a hit. */
    method FindFile(file: string) returns (path: string)
      requires Valid()
      modifies Repr
      ensures Valid() && Repr == old(Repr) && entries == old(entries) && nodes == old(nodes)
      ensures path == Knobs.FindFile(world, entries, file)
      ensures pool == Taken(old(pool), SEARCH_PATH)
    {
      hide Matches, NextMatch, Valid, Knobs.FindFile, Hit, Moved;
      ghost var s := pool.current;
      var slot := Iterate(SEARCH_PATH);
      path := file;
      ghost var seen := 0;
      SkippedMiss(file, pool.cursors[s]);
      var knob := GetNext(slot, s);
      while knob != null
        invariant Valid() && Repr == old(Repr) && entries == old(entries) && nodes == old(nodes)
        invariant knob == NodeAt(nodes, pool.cursors[s].at)
        invariant pool == Taken(old(pool), SEARCH_PATH).(cursors := pool.cursors)
        invariant pool.cursors == Taken(old(pool), SEARCH_PATH).cursors[s := Cursor(SEARCH_PATH, pool.cursors[s].at)]
        invariant 0 <= seen <= |entries|
        invariant knob != null ==>
                    seen <= pool.cursors[s].at && Matches(world, entries[pool.cursors[s].at].pattern, SEARCH_PATH)
        invariant forall i | 0 <= i < (if knob == null then |entries| else pool.cursors[s].at) ::
                    !Hit(world, entries[i], file)
        decreases if knob == null then 0 else |entries| - pool.cursors[s].at
      {
        var candidate := CandidateOf(knob, file, pool.cursors[s].at);
        if candidate in world.files {
          HitIs(world, entries[pool.cursors[s].at], file);
          FindFileIs(world, entries, file, pool.cursors[s].at);
          Drain(slot, s);
          return candidate;
        }
        HitIs(world, entries[pool.cursors[s].at], file);
        seen := pool.cursors[s].at + 1;
        SkippedMiss(file, pool.cursors[s]);
        knob := GetNext(slot, s);
      }
      FindFileIs(world, entries, file, |entries|);
    }

    method CandidateOf(knob: Knob, file: string, ghost i: nat) returns (path: string)
      requires Valid() && i < |nodes| && knob == nodes[i]
      ensures path == Candidate(entries[i], file)
    {
      NodeSays(nodes, entries, i);
      var directory := if knob.value.Some? then knob.value.value else "(null)";
      path := directory + "/" + file;
    }

    lemma HitIs(w: World, e: Entry, file: string)
      ensures Hit(w, e, file) <==> Matches(w, e.pattern, SEARCH_PATH) && Candidate(e, file) in w.files
    {
    }

    /** What a step of the search-path iterator skips holds no such file. */
    lemma SkippedMiss(file: string, c: Cursor)
      requires c.name == SEARCH_PATH && -1 <= c.at < |entries|
      ensures var at := Moved(world, entries, c);
              && (at >= 0 ==> c.at < at && Matches(world, entries[at].pattern, SEARCH_PATH))
              && forall i | c.at < i < (if at < 0 then |entries| else at) :: !Hit(world, entries[i], file)
    {
      hide Matches;
    }

    /** Runs an iterator to its end. */
    method Drain(slot: Slot, ghost s: nat)
      requires Valid() && s < |slots| && slot == slots[s]
      modifies Repr
      ensures Valid() && Repr == old(Repr) && entries == old(entries) && nodes == old(nodes)
      ensures pool == old(pool).(cursors := old(pool).cursors[s := old(pool).cursors[s].(at := -1)])
    {
      hide Matches, Valid, NextMatch;
      var knob := GetNext(slot, s);
      while knob != null
        invariant Valid() && Repr == old(Repr) && entries == old(entries) && nodes == old(nodes)
        invariant knob == NodeAt(nodes, pool.cursors[s].at)
        invariant pool == old(pool).(cursors := old(pool).cursors[s := old(pool).cursors[s].(at := pool.cursors[s].at)])
        decreases if knob == null then 0 else |entries| - pool.cursors[s].at
      {
        knob := GetNext(slot, s);
      }
    }
  }
}
