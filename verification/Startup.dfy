/** The two directory walks of `sknobs_init`, done in place on the shared path buffer. */
module Startup {
  import opened Text
  import opened World
  import opened Choice
  import opened Knobs
  import opened Loader
  import opened Paths
  import opened StrtokModule
  import opened EngineModule

  /** strrchr(a, '/') */
  method FindLastSlash(a: array<char>, ghost s: string) returns (found: int)
    requires ReadsAs(a[..], 0, s)
    ensures found == LastSlash(s)
  {
    found := -1;
    var p := 0;
    while a[p] != NUL
      invariant 0 <= p <= |s| < a.Length
      invariant found == LastSlash(s[..p])
      decreases |s| - p
    {
      NulIsEnd(a[..], 0, s, p);
      assert s[..p + 1][..p] == s[..p];
      if a[p] == '/' { found := p; }
      p := p + 1;
    }
    NulIsEnd(a[..], 0, s, p);
    assert s[..|s|] == s;
  }

  /** strchr(a + from, '/') */
  method FindSlash(a: array<char>, from: nat, ghost s: string) returns (found: Option<nat>)
    requires ReadsAs(a[..], 0, s) && from <= |s|
    ensures found == None ==> Prefixes(s, from) == []
    ensures found.Some? ==> from <= found.value < |s| && s[found.value] == '/'
    ensures found.Some? ==> Prefixes(s, from) == [s[..found.value]] + Prefixes(s, found.value + 1)
  {
    var p := from;
    while a[p] != NUL && a[p] != '/'
      invariant from <= p <= |s| < a.Length
      invariant Prefixes(s, from) == Prefixes(s, p)
      decreases |s| - p
    {
      NulIsEnd(a[..], 0, s, p);
      p := p + 1;
    }
    NulIsEnd(a[..], 0, s, p);
    return if a[p] == '/' then Some(p) else None;
  }

  /** The search-path loop: adds the working directory and its ancestors, up to a stop file. */
  method InitSearchPath(e: Engine, pwd: string)
    requires e.Valid() && |pwd| < MAX_LENGTH && NUL !in pwd
    modifies e.Frame()
    ensures e.Valid() && fresh(e.Frame() - old(e.Frame()))
    ensures e.State() == old(e.State()).(db := old(e.State()).db + SearchEntries(SearchDirs(e.world, pwd)))
  {
    hide e.Valid, SearchDirs, SearchEntries, ReadsAs, LastSlash;
    FillShared(e, pwd);
    ghost var cur := pwd;
    while e.shared[0] != NUL
      invariant e.shared.Length == MAX_LENGTH
      invariant e.Valid() && fresh(e.Frame() - old(e.Frame()))
      invariant ReadsAs(e.shared[..], 0, cur)
      invariant e.State().dice == old(e.State()).dice
      invariant e.State().db + SearchEntries(SearchDirs(e.world, cur)) ==
                old(e.State()).db + SearchEntries(SearchDirs(e.world, pwd))
      decreases |cur|
    {
      NulIsEnd(e.shared[..], 0, cur, 0);
      var dir := ReadCString(e.shared, 0, cur);
      ghost var before := e.State().db;
      AddDirectory(e, dir);
      SearchStep(e.world, before, cur);
      if dir + STOP in e.world.files {
        return;
      }
      var cut := CutLast(e, cur);
      if !cut {
        return;
      }
      cur := cur[..LastSlash(cur)];
    }
    NulIsEnd(e.shared[..], 0, cur, 0);
    SearchEnd(e.world, e.State().db);
  }

  /** Cuts the path in the shared buffer at its last '/', if it has one. */
  method CutLast(e: Engine, ghost path: string) returns (cut: bool)
    requires e.Valid() && ReadsAs(e.shared[..], 0, path)
    modifies e.shared
    ensures e.Valid() && e.State() == old(e.State()) && e.Frame() == old(e.Frame())
    ensures cut <==> LastSlash(path) >= 0
    ensures cut ==> ReadsAs(e.shared[..], 0, path[..LastSlash(path)])
  {
    hide ReadsAs, LastSlash;
    var p := FindLastSlash(e.shared, path);
    if p < 0 {
      return false;
    }
    ReadsCut(e.shared[..], 0, path, 0, p);
    ReadsFits(e.shared[..], 0, path);
    assert path[0..p] == path[..p];
    CutAt(e, p, NUL);
    return true;
  }

  /** What adding one directory leaves to be added. */
  lemma SearchStep(w: World, before: Db, cur: string)
    requires cur != []
    ensures var all, next := before + SearchEntries(SearchDirs(w, cur)), before + [Entry(SEARCH_PATH, Some(cur))];
            if cur + STOP in w.files || LastSlash(cur) < 0 then next == all
            else next + SearchEntries(SearchDirs(w, cur[..LastSlash(cur)])) == all
  {
    hide LastSlash, SearchEntries, SearchDirs;
    var rest := if cur + STOP in w.files || LastSlash(cur) < 0 then [] else SearchDirs(w, cur[..LastSlash(cur)]);
    SearchDirsStep(w, cur);
    SearchEntriesCons(cur, rest);
    NoEntries();
    assert before + ([Entry(SEARCH_PATH, Some(cur))] + SearchEntries(rest)) ==
           (before + [Entry(SEARCH_PATH, Some(cur))]) + SearchEntries(rest);
  }

  lemma SearchDirsStep(w: World, cur: string)
    requires cur != []
    ensures SearchDirs(w, cur) ==
            [cur] + if cur + STOP in w.files || LastSlash(cur) < 0 then [] else SearchDirs(w, cur[..LastSlash(cur)])
  {
    hide LastSlash;
  }

  lemma NoEntries()
    ensures SearchEntries([]) == []
  {
  }

  lemma SearchEntriesCons(dir: string, rest: seq<string>)
    ensures SearchEntries([dir] + rest) == [Entry(SEARCH_PATH, Some(dir))] + SearchEntries(rest)
  {
    assert ([dir] + rest)[1..] == rest;
  }

  lemma SearchEnd(w: World, db: Db)
    ensures db + SearchEntries(SearchDirs(w, [])) == db
  {
  }

  /** strncpy(buffer, s, SKNOBS_MAX_LENGTH) */
  method FillShared(e: Engine, s: string)
    requires e.Valid() && |s| < MAX_LENGTH && NUL !in s
    modifies e.shared
    ensures e.Valid() && e.State() == old(e.State()) && e.Frame() == old(e.Frame())
    ensures ReadsAs(e.shared[..], 0, s) && e.shared.Length == MAX_LENGTH
  {
    CopyInto(e.shared, s);
  }

  method AddDirectory(e: Engine, dir: string)
    requires e.Valid()
    modifies e.Frame()
    ensures e.Valid() && fresh(e.Frame() - old(e.Frame()))
    ensures e.State() == old(e.State()).(db := old(e.State()).db + [Entry(SEARCH_PATH, Some(dir))])
    ensures e.shared[..] == old(e.shared[..])
  {
    hide e.Valid;
    var failed := e.AddKnob(SEARCH_PATH, Some(dir), "PWD");
  }

  /** One character written to the shared buffer. */
  method CutAt(e: Engine, p: nat, c: char)
    requires e.Valid() && p < e.shared.Length
    modifies e.shared
    ensures e.Valid() && e.State() == old(e.State()) && e.Frame() == old(e.Frame())
    ensures e.shared[..] == old(e.shared[..])[p := c]
  {
    e.shared[p] := c;
  }

  /** sknobs_load_knobsrc_files */
  method LoadKnobsrcFiles(e: Engine, dir: string, ghost depth: nat) returns (failed: bool)
    requires e.Valid() && e.State().dice.seed.Some?
    requires LoadPaths(e.world, e.State(), e.world.knobsrc(dir), depth).Done?
    modifies e.Frame()
    ensures e.Valid() && fresh(e.Frame() - old(e.Frame()))
    ensures LoadPaths(e.world, old(e.State()), e.world.knobsrc(dir), depth) == Done(e.State(), !failed)
    ensures e.State().dice.seed.Some? && e.shared[..] == old(e.shared[..])
  {
    hide LoadFile, e.Valid;
    var paths := e.world.knobsrc(dir);
    var i := 0;
    while i < |paths|
      invariant 0 <= i <= |paths|
      invariant e.Valid() && fresh(e.Frame() - old(e.Frame()))
      invariant LoadPaths(e.world, old(e.State()), paths, depth) == LoadPaths(e.world, e.State(), paths[i..], depth)
      invariant e.State().dice.seed.Some? && e.shared[..] == old(e.shared[..])
    {
      assert paths[i..][0] == paths[i] && paths[i..][1..] == paths[i + 1..];
      failed := e.LoadFile(paths[i], depth);
      if failed {
        return;
      }
      i := i + 1;
    }
    return false;
  }

  /** Loads the directory in front of one '/' of the path in the shared buffer. */
  method LoadCutAt(e: Engine, ghost pwd: string, q: nat, ghost depth: nat) returns (failed: bool)
    requires e.Valid() && e.State().dice.seed.Some?
    requires ReadsAs(e.shared[..], 0, pwd) && q < |pwd| && pwd[q] == '/'
    requires LoadPaths(e.world, e.State(), e.world.knobsrc(pwd[..q]), depth).Done?
    modifies e.Frame()
    ensures e.Valid() && fresh(e.Frame() - old(e.Frame()))
    ensures LoadPaths(e.world, old(e.State()), e.world.knobsrc(pwd[..q]), depth) == Done(e.State(), !failed)
    ensures e.State().dice.seed.Some?
    ensures !failed ==> e.shared[..] == old(e.shared[..])
  {
    hide e.Valid, LoadPaths;
    ghost var whole := e.shared[..];
    NulIsEnd(whole, 0, pwd, q);
    ReadsCut(whole, 0, pwd, 0, q);
    assert pwd[0..q] == pwd[..q];
    CutAt(e, q, NUL);
    var dir := ReadCString(e.shared, 0, pwd[..q]);
    failed := LoadKnobsrcFiles(e, dir, depth);
    if failed {
      return;
    }
    CutAt(e, q, '/');
    assert e.shared[..] == whole;
  }

  /** The knobsrc loop: cuts the path at each '/' in turn, loads that directory, and puts the '/' back. It relies on
  the loads leaving the shared buffer alone, which they do because the seed is fixed. */
  method LoadKnobsrc(e: Engine, pwd: string, ghost depth: nat) returns (failed: bool)
    requires e.Valid() && e.State().dice.seed.Some?
    requires 0 < |pwd| < MAX_LENGTH && NUL !in pwd
    requires LoadDirs(e.world, e.State(), DownTo(pwd), depth).Done?
    modifies e.Frame()
    ensures e.Valid() && fresh(e.Frame() - old(e.Frame()))
    ensures LoadDirs(e.world, old(e.State()), DownTo(pwd), depth) == Done(e.State(), !failed)
  {
    hide e.Valid, LoadPaths, Prefixes, LoadDirs;
    FillShared(e, pwd);
    var p := 1;
    var slash := FindSlash(e.shared, p, pwd);
    while slash.Some?
      invariant 1 <= p <= |pwd|
      invariant e.Valid() && fresh(e.Frame() - old(e.Frame())) && e.State().dice.seed.Some?
      invariant ReadsAs(e.shared[..], 0, pwd) && e.shared.Length == MAX_LENGTH
      invariant slash == None ==> Prefixes(pwd, p) == []
      invariant slash.Some? ==> p <= slash.value < |pwd| && pwd[slash.value] == '/'
      invariant slash.Some? ==> Prefixes(pwd, p) == [pwd[..slash.value]] + Prefixes(pwd, slash.value + 1)
      invariant LoadDirs(e.world, old(e.State()), DownTo(pwd), depth) ==
                LoadDirs(e.world, e.State(), Prefixes(pwd, p) + [pwd], depth)
      decreases slash.Some?, |pwd| - p
    {
      var q := slash.value;
      DirsStep(e.world, e.State(), pwd[..q], Prefixes(pwd, q + 1) + [pwd], depth);
      assert Prefixes(pwd, p) + [pwd] == [pwd[..q]] + (Prefixes(pwd, q + 1) + [pwd]);
      failed := LoadCutAt(e, pwd, q, depth);
      if failed {
        return;
      }
      p := q + 1;
      slash := FindSlash(e.shared, p, pwd);
    }
    assert [] + [pwd] == [pwd] + [];
    DirsEnd(e.world, depth);
    DirsStep(e.world, e.State(), pwd, [], depth);
    failed := LoadKnobsrcFiles(e, pwd, depth);
  }

  lemma DirsEnd(w: World, depth: nat)
    ensures forall st :: LoadDirs(w, st, [], depth) == Done(st, true)
  {
  }

  lemma DirsStep(w: World, st: State, dir: string, rest: seq<string>, depth: nat)
    ensures var first := LoadPaths(w, st, w.knobsrc(dir), depth);
            LoadDirs(w, st, [dir] + rest, depth) ==
            if first.Done? && first.ok then LoadDirs(w, first.state, rest, depth) else first
  {
    hide LoadPaths;
    assert ([dir] + rest)[1..] == rest;
  }
}
