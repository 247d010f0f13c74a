/** The two walks over the working directory: search-path knobs from it up to the root, knobsrc files from the
root down to it. */
module Paths {
  import opened Text
  import opened World
  import opened Comments
  import opened Knobs
  import opened Loader

  const STOP: string := "/.stopknobs"

  /** Index of the last '/', or -1. */
  function LastSlash(s: string): (p: int)
    ensures -1 <= p < |s|
    ensures p >= 0 ==> s[p] == '/'
    ensures forall i | p < i < |s| :: s[i] != '/'
  {
    if s == [] then -1 else if s[|s| - 1] == '/' then |s| - 1 else LastSlash(s[..|s| - 1])
  }

  /** All directories from `s` up: cut at the last '/' until nothing is left. */
  function UpFrom(s: string): seq<string>
    decreases |s|
  {
    if s == [] then [] else if LastSlash(s) < 0 then [s] else [s] + UpFrom(s[..LastSlash(s)])
  }

  /** The search path: the same, stopping behind a directory with a stop file. */
  function SearchDirs(w: World, s: string): seq<string>
    decreases |s|
  {
    if s == [] then []
    else if s + STOP in w.files || LastSlash(s) < 0 then [s]
    else [s] + SearchDirs(w, s[..LastSlash(s)])
  }

  /** The directories that end at a '/' from index `from` on, shortest first. */
  function Prefixes(s: string, from: nat): seq<string>
    decreases |s| - from
  {
    if from >= |s| then [] else if s[from] == '/' then [s[..from]] + Prefixes(s, from + 1) else Prefixes(s, from + 1)
  }

  /** The order in which knobsrc files are loaded. */
  function DownTo(s: string): seq<string> {
    Prefixes(s, 1) + [s]
  }

  function Reverse(xs: seq<string>): (r: seq<string>)
    ensures |r| == |xs|
  {
    if xs == [] then [] else Reverse(xs[1..]) + [xs[0]]
  }

  lemma {:induction false} ReverseSnoc(xs: seq<string>, x: string)
    ensures Reverse(xs + [x]) == [x] + Reverse(xs)
  {
    if xs == [] {
      assert [] + [x] == [x] && [x][1..] == [];
      assert Reverse([x]) == [] + [x];
    } else {
      assert (xs + [x])[0] == xs[0] && (xs + [x])[1..] == xs[1..] + [x];
      ReverseSnoc(xs[1..], x);
    }
  }

  /** The cuts up to the last '/' are the cuts of the parent. */
  lemma {:induction false} PrefixesOfParent(s: string, p: nat, from: nat)
    requires from <= p < |s| && s[p] == '/' && forall i | p < i < |s| :: s[i] != '/'
    ensures Prefixes(s, from) == Prefixes(s[..p], from) + [s[..p]]
    decreases p - from
  {
    if from == p {
      NoMorePrefixes(s, p + 1);
      assert Prefixes(s, p) == [s[..p]] + [];
    } else {
      PrefixesOfParent(s, p, from + 1);
      assert s[..p][..from] == s[..from];
    }
  }

  lemma {:induction false} NoMorePrefixes(s: string, from: nat)
    requires from <= |s| && forall i | from <= i < |s| :: s[i] != '/'
    ensures Prefixes(s, from) == []
    decreases |s| - from
  {
    if from < |s| { NoMorePrefixes(s, from + 1); }
  }

  /** The two walks visit the same directories in opposite orders. */
  lemma {:induction false} WalksMirrorEachOther(s: string)
    requires s != []
    ensures UpFrom(s) == Reverse(DownTo(s))
    decreases |s|
  {
    var p := LastSlash(s);
    ReverseSnoc(Prefixes(s, 1), s);
    if p > 0 {
      WalksMirrorEachOther(s[..p]);
      PrefixesOfParent(s, p, 1);
    } else {
      NoMorePrefixes(s, 1);
      assert p == 0 ==> UpFrom(s) == [s] + [];
    }
  }

  /** The two walks agree if and only if there is no '/' behind the first character. */
  lemma WalksAgreeIff(s: string)
    requires s != []
    ensures DownTo(s) == UpFrom(s) <==> forall i | 1 <= i < |s| :: s[i] != '/'
  {
    hide Prefixes, UpFrom, LastSlash;
    WalksMirrorEachOther(s);
    ReverseSnoc(Prefixes(s, 1), s);
    PrefixesAreShorter(s, 1);
    if forall i | 1 <= i < |s| :: s[i] != '/' {
      NoMorePrefixes(s, 1);
    } else {
      SomePrefix(s, 1);
      assert DownTo(s)[0] == Prefixes(s, 1)[0] != s;
      assert UpFrom(s)[0] == s;
    }
  }

  lemma {:induction false} PrefixesAreShorter(s: string, from: nat)
    ensures forall p | p in Prefixes(s, from) :: |p| < |s|
    decreases |s| - from
  {
    if from < |s| { PrefixesAreShorter(s, from + 1); }
  }

  lemma {:induction false} SomePrefix(s: string, from: nat)
    requires exists i | from <= i < |s| :: s[i] == '/'
    ensures Prefixes(s, from) != []
    decreases |s| - from
  {
    if s[from] != '/' { SomePrefix(s, from + 1); }
  }

  /** The documented order of an absolute working directory: from it up to the root, and the root as well. */
  function DocumentedOrder(s: string): seq<string> {
    if s == "/" then ["/"] else UpFrom(s) + ["/"]
  }

  /** The knobsrc files are read as documented if and only if the working directory is the root: everywhere else the
  root is left out. */
  lemma DocumentedOrderIff(s: string)
    requires s != [] && s[0] == '/'
    ensures DownTo(s) == DocumentedOrder(s) <==> s == "/"
  {
    WalksMirrorEachOther(s);
    assert |DownTo(s)| == |UpFrom(s)|;
  }

  /** Directly below the root, the root is left out. */
  lemma RootIsLeftOut()
    ensures DownTo("/a") == ["/a"] && DocumentedOrder("/a") == ["/a", "/"]
  {
    WalksAgreeIff("/a");
    assert Prefixes("/a", 1) == [];
  }

  /** From two levels down, the order is reversed besides. */
  lemma OrderIsReversed()
    ensures DownTo("/a/b") == ["/a", "/a/b"] && DocumentedOrder("/a/b") == ["/a/b", "/a", "/"]
  {
    var s := "/a/b";
    assert s[..2] == "/a";
    assert Prefixes(s, 3) == [];
    WalksMirrorEachOther(s);
    assert Prefixes(s, 2) == [s[..2]] + Prefixes(s, 3);
    assert DownTo(s) == ["/a", "/a/b"];
    ReverseSnoc(["/a"], "/a/b");
    assert ["/a"][1..] == [];
    assert Reverse(["/a"]) == ["/a"];
  }

  /** The search path is the upward walk cut short at the first stop file; without one it is all of it. */
  lemma {:induction false} SearchPathIsAPrefix(w: World, s: string)
    ensures SearchDirs(w, s) <= UpFrom(s)
    ensures (forall d | d in UpFrom(s) :: d + STOP !in w.files) ==> SearchDirs(w, s) == UpFrom(s)
    ensures var n := |SearchDirs(w, s)|;
            forall i | 0 <= i < n - 1 :: SearchDirs(w, s)[i] + STOP !in w.files
    decreases |s|
  {
    if s != [] && LastSlash(s) >= 0 {
      SearchPathIsAPrefix(w, s[..LastSlash(s)]);
      var rest := UpFrom(s[..LastSlash(s)]);
      assert UpFrom(s)[0] == s;
      assert forall d | d in rest :: d in UpFrom(s);
    } else if s != [] {
      assert UpFrom(s)[0] == s;
    }
  }

  /** It ends only there: its last directory has a stop file, or there is none above it. */
  lemma {:induction false} SearchPathEndsAtStop(w: World, s: string)
    requires s != []
    ensures var dirs := SearchDirs(w, s);
            dirs == UpFrom(s) || (dirs != [] && dirs[|dirs| - 1] + "/.stopknobs" in w.files)
    ensures var dirs := SearchDirs(w, s); forall i | 0 <= i < |dirs| - 1 :: dirs[i] + "/.stopknobs" !in w.files
    decreases |s|
  {
    SearchPathIsAPrefix(w, s);
    var p := LastSlash(s);
    if s + STOP !in w.files && p > 0 {
      SearchPathEndsAtStop(w, s[..p]);
      var rest := SearchDirs(w, s[..p]);
      assert SearchDirs(w, s) == [s] + rest && UpFrom(s) == [s] + UpFrom(s[..p]);
    }
  }

  /** The search path is a reversed stretch of the knobsrc order. */
  lemma SearchPathMirrorsKnobsrc(w: World, s: string)
    requires s != []
    ensures SearchDirs(w, s) <= Reverse(DownTo(s))
    ensures (forall d | d in DownTo(s) :: d + STOP !in w.files) ==> SearchDirs(w, s) == Reverse(DownTo(s))
  {
    WalksMirrorEachOther(s);
    SearchPathIsAPrefix(w, s);
    ReverseKeeps(DownTo(s));
  }

  lemma {:induction false} ReverseKeeps(xs: seq<string>)
    ensures forall x | x in Reverse(xs) :: x in xs
  {
    if xs != [] { ReverseKeeps(xs[1..]); }
  }

  // ---- Looking files up along the search path ----

  function SearchEntries(dirs: seq<string>): (db: Db)
    ensures |db| == |dirs| && forall i | 0 <= i < |db| :: db[i] == Entry("sknobs.search_path", Some(dirs[i]))
  {
    if dirs == [] then [] else [Entry(SEARCH_PATH, Some(dirs[0]))] + SearchEntries(dirs[1..])
  }

  /** Each directory of the search path lies in the one before it: it is cut off at a '/'. */
  lemma {:induction false} SearchPathClimbs(w: World, s: string)
    ensures var dirs := SearchDirs(w, s);
            && (s != [] ==> |dirs| > 0 && dirs[0] == s)
            && forall i | 0 <= i < |dirs| - 1 :: IsParent(dirs[i + 1], dirs[i])
    decreases |s|
  {
    if s != [] && !(s + STOP in w.files) && LastSlash(s) >= 0 {
      var p := LastSlash(s);
      SearchPathClimbs(w, s[..p]);
      var dirs, rest := SearchDirs(w, s), SearchDirs(w, s[..p]);
      assert dirs == [s] + rest;
      assert forall i | 0 < i < |dirs| :: dirs[i] == rest[i - 1];
    }
  }

  predicate IsParent(d: string, e: string) {
    |d| < |e| && e[..|d|] == d && e[|d|] == '/' && forall i | |d| < i < |e| :: e[i] != '/'
  }

  ghost predicate Unmatched(w: World, db: Db, name: string) {
    forall e | e in db :: !Matches(w, e.pattern, name)
  }

  /** As long as no other knob matches the search-path name, whatever has been loaded since, a file is found in
  the nearest ancestor of the working directory that holds it, and is left as it is if none does. */
  lemma NearestAncestor(w: World, before: Db, dirs: seq<string>, after: Db, file: string, i: nat)
    requires Unmatched(w, before + after, SEARCH_PATH)
    requires i <= |dirs| && (forall j | 0 <= j < i :: dirs[j] + "/" + file !in w.files)
    requires i < |dirs| ==> dirs[i] + "/" + file in w.files
    ensures FindFile(w, before + SearchEntries(dirs) + after, file) ==
            if i < |dirs| then dirs[i] + "/" + file else file
  {
    hide Matches, Hit, FindFile, SearchEntries, Candidate, Unmatched;
    var db := before + SearchEntries(dirs) + after;
    var k := if i < |dirs| then |before| + i else |db|;
    forall j | 0 <= j < |db| && j <= k
      ensures Hit(w, db[j], file) <==> j == k
    {
      HitAt(w, before, dirs, after, file, j);
    }
    FindFileIs(w, db, file, k);
    if i < |dirs| {
      assert db[k] == SearchEntries(dirs)[i];
      SearchKnobHits(w, dirs[i], file);
    }
  }

  lemma HitAt(w: World, before: Db, dirs: seq<string>, after: Db, file: string, j: nat)
    requires Unmatched(w, before + after, SEARCH_PATH)
    requires j < |before + SearchEntries(dirs) + after|
    ensures Hit(w, (before + SearchEntries(dirs) + after)[j], file) <==>
            |before| <= j < |before| + |dirs| && dirs[j - |before|] + "/" + file in w.files
  {
    hide Matches, Hit, SearchEntries, Candidate;
    var entries := SearchEntries(dirs);
    var e := (before + entries + after)[j];
    if |before| <= j < |before| + |dirs| {
      assert e == entries[j - |before|];
      SearchKnobHits(w, dirs[j - |before|], file);
    } else {
      var others := before + after;
      assert e == others[if j < |before| then j else j - |dirs|];
      assert e in others;
      OtherKnobHitsNothing(w, e, file);
    }
  }

  lemma SearchKnobHits(w: World, dir: string, file: string)
    ensures Candidate(Entry(SEARCH_PATH, Some(dir)), file) == dir + "/" + file
    ensures Hit(w, Entry(SEARCH_PATH, Some(dir)), file) <==> dir + "/" + file in w.files
  {
    hide Matches;
    LiteralMatchesItself(w, SEARCH_PATH, SEARCH_PATH);
  }

  lemma OtherKnobHitsNothing(w: World, e: Entry, file: string)
    requires !Matches(w, e.pattern, SEARCH_PATH)
    ensures !Hit(w, e, file)
  {
    hide Matches;
  }

  // ---- Loading along the way down ----

  /** sknobs_load_file on some paths, until one fails */
  ghost function LoadPaths(w: World, st: State, paths: seq<string>, depth: nat): Run
    decreases |paths|
  {
    if paths == [] then Done(st, true)
    else
      match LoadFile(w, st, paths[0], depth)
      case Done(next, true) => LoadPaths(w, next, paths[1..], depth)
      case failed => failed
  }

  /** The knobsrc files of some directories, in order. */
  ghost function LoadDirs(w: World, st: State, dirs: seq<string>, depth: nat): Run
    decreases |dirs|
  {
    if dirs == [] then Done(st, true)
    else
      match LoadPaths(w, st, w.knobsrc(dirs[0]), depth)
      case Done(next, true) => LoadDirs(w, next, dirs[1..], depth)
      case failed => failed
  }

  function Concat(lists: seq<seq<string>>): seq<string> {
    if lists == [] then [] else lists[0] + Concat(lists[1..])
  }

  function FilesOf(w: World, dirs: seq<string>): seq<seq<string>> {
    if dirs == [] then [] else [w.knobsrc(dirs[0])] + FilesOf(w, dirs[1..])
  }

  /** A file that can be loaded, and does not end on an `-f` or `-pli` of which the argument is missing. */
  ghost predicate Complete(w: World, path: string) {
    && path in w.files && !Unclosed(UpToNul(w.files[path]))
    && |FileArgs(w, path)| < 100000 && EndMode(Start, FileArgs(w, path)) == Start
  }

  ghost function ArgsOf(w: World, paths: seq<string>): seq<seq<string>>
    requires forall i | 0 <= i < |paths| :: Complete(w, paths[i])
  {
    if paths == [] then [] else assert Complete(w, paths[0]); [FileArgs(w, paths[0])] + ArgsOf(w, paths[1..])
  }

  lemma {:induction false} LoadPathsConcat(w: World, st: State, xs: seq<string>, ys: seq<string>, depth: nat)
    ensures var run := LoadPaths(w, st, xs, depth);
            LoadPaths(w, st, xs + ys, depth) == if run.Done? && run.ok then LoadPaths(w, run.state, ys, depth) else run
    decreases |xs|
  {
    hide LoadFile;
    if xs == [] {
      assert xs + ys == ys;
    } else {
      assert (xs + ys)[0] == xs[0] && (xs + ys)[1..] == xs[1..] + ys;
      var run := LoadFile(w, st, xs[0], depth);
      if run.Done? && run.ok { LoadPathsConcat(w, run.state, xs[1..], ys, depth); }
    }
  }

  /** Loading directories is loading all their files, one after the other, up to the first failure. */
  lemma {:induction false} LoadDirsIsLoadPaths(w: World, st: State, dirs: seq<string>, depth: nat)
    ensures LoadDirs(w, st, dirs, depth) == LoadPaths(w, st, Concat(FilesOf(w, dirs)), depth)
    decreases |dirs|
  {
    hide LoadPaths;
    if dirs == [] {
      NoPaths(w, st, depth);
    } else {
      var files, rest := w.knobsrc(dirs[0]), Concat(FilesOf(w, dirs[1..]));
      assert FilesOf(w, dirs)[1..] == FilesOf(w, dirs[1..]);
      LoadPathsConcat(w, st, files, rest, depth);
      var run := LoadPaths(w, st, files, depth);
      if run.Done? && run.ok { LoadDirsIsLoadPaths(w, run.state, dirs[1..], depth); }
    }
  }

  lemma NoPaths(w: World, st: State, depth: nat)
    ensures LoadPaths(w, st, [], depth) == Done(st, true)
  {
  }

  /** And loading such files one after the other is loading all their tokens as one list. */
  lemma {:induction false} LoadPathsIsOneLoad(w: World, st: State, paths: seq<string>, depth: nat)
    requires forall i | 0 <= i < |paths| :: Complete(w, paths[i])
    ensures LoadPaths(w, st, paths, depth + 1) == Load(w, st, Start, Concat(ArgsOf(w, paths)), depth)
    decreases |paths|
  {
    hide LoadFile, Load, FileArgs, Unclosed, UpToNul;
    if paths == [] {
      NoArgs(w, st, depth);
    } else {
      var args, rest := FileArgs(w, paths[0]), Concat(ArgsOf(w, paths[1..]));
      assert ArgsOf(w, paths)[1..] == ArgsOf(w, paths[1..]);
      LoadFileIs(w, st, paths[0], depth + 1);
      LoadConcat(w, st, Start, args, rest, depth);
      var run := Load(w, st, Start, args, depth);
      if run.Done? && run.ok { LoadPathsIsOneLoad(w, run.state, paths[1..], depth); }
    }
  }

  lemma NoArgs(w: World, st: State, depth: nat)
    ensures Load(w, st, Start, [], depth) == Done(st, true)
  {
  }
}
