/** Saving the knobs and loading the file again. */
module Replay {
  import opened Text
  import opened Numbers
  import opened World
  import opened Comments
  import opened Random
  import opened Knobs
  import opened Loader
  import opened SavedTableModule

  /** A knob with the comment it was recorded with, as the printer sees it. */
  datatype Record = Record(pattern: string, value: Option<string>, comment: string)

  // ---- The printer ----

  function Shown(value: Option<string>): string {
    if value.Some? then value.value else []
  }

  /** The token that a record comes back as. */
  function TokenOf(r: Record): string {
    "+" + r.pattern + ['='] + Shown(r.value)
  }

  /** "// %s\n+%s=%s\n" */
  function Line(r: Record): string {
    "// " + r.comment + ['\n'] + TokenOf(r) + ['\n']
  }

  function Lines(rs: seq<Record>): string {
    if rs == [] then [] else Line(rs[0]) + Lines(rs[1..])
  }

  const SAVED_COMMENT: string := "saved value"

  function SavedRecord(s: Saved): Record {
    Record(s.name, Some(PrintLLD(s.value)), SAVED_COMMENT)
  }

  function SavedRecords(saved: seq<Saved>): (rs: seq<Record>)
    ensures |rs| == |saved| && forall i | 0 <= i < |rs| :: rs[i] == SavedRecord(saved[i])
  {
    if saved == [] then [] else [SavedRecord(saved[0])] + SavedRecords(saved[1..])
  }

  /** The text of a save file. */
  function SaveText(records: seq<Record>, saved: seq<Saved>): string {
    Lines(records) + Lines(SavedRecords(saved))
  }

  /** What the lines of a save file look like; a NULL value shows as an empty one. */
  lemma LineLooks(pattern: string, value: string, comment: string, name: string, word: Word)
    ensures Line(Record(pattern, Some(value), comment)) == "// " + comment + "\n+" + pattern + "=" + value + "\n"
    ensures Line(Record(pattern, None, comment)) == Line(Record(pattern, Some(""), comment))
    ensures Line(SavedRecord(Saved(name, word))) == "// saved value\n+" + name + "=" + PrintLLD(word) + "\n"
  {
    hide PrintLLD;
    LineOf(pattern, value, comment);
    LineOf(name, PrintLLD(word), SAVED_COMMENT);
    assert "// " + SAVED_COMMENT == "// saved value";
    var tail := "=" + PrintLLD(word) + "\n";
    assert "// saved value" + "\n+" == "// saved value\n+";
  }

  lemma LineOf(pattern: string, value: string, comment: string)
    ensures Line(Record(pattern, Some(value), comment)) == "// " + comment + "\n+" + pattern + "=" + value + "\n"
  {
    var token := "+" + pattern + ['='] + value;
    assert "// " + comment + ['\n'] + token + ['\n'] == "// " + comment + "\n+" + pattern + "=" + value + "\n";
  }

  /** A save file has one such pair of lines per knob, and then one per cached value, in order. */
  lemma {:induction false} SaveFileLines(records: seq<Record>, saved: seq<Saved>)
    ensures SaveText(records, saved) ==
            if records != [] then Line(records[0]) + SaveText(records[1..], saved)
            else if saved != [] then Line(SavedRecord(saved[0])) + SaveText([], saved[1..])
            else []
  {
    hide Line, SavedRecord;
    if records != [] {
      assert Line(records[0]) + Lines(records[1..]) + Lines(SavedRecords(saved)) ==
             Line(records[0]) + (Lines(records[1..]) + Lines(SavedRecords(saved)));
    } else if saved != [] {
      assert SavedRecords(saved)[1..] == SavedRecords(saved[1..]);
    }
  }

  lemma {:induction false} LinesConcat(xs: seq<Record>, ys: seq<Record>)
    ensures Lines(xs + ys) == Lines(xs) + Lines(ys)
  {
    if xs == [] {
      assert xs + ys == ys;
    } else {
      assert (xs + ys)[0] == xs[0] && (xs + ys)[1..] == xs[1..] + ys;
      LinesConcat(xs[1..], ys);
    }
  }

  // ---- Reading a line back ----

  predicate Without(s: string, bad: string) {
    forall c | c in s :: c !in bad
  }

  /** A record that survives: fields free of delimiters and comment openers, a pattern free of '=' that is not
  taken for a define or an undefine and that `sknobs_add` accepts, a comment on one line. */
  ghost predicate Writable(w: World, r: Record) {
    && r.pattern != [] && Without(r.pattern, " \t\n=\0") && CommentFree(r.pattern)
    && Without(Shown(r.value), " \t\n\0") && CommentFree(Shown(r.value))
    && Without(r.comment, "\n\0")
    && !HasPrefix(r.pattern, "define+") && !HasPrefix(r.pattern, "undefine+")
    && Acceptable(w, r.pattern)
  }

  function Blanks(n: nat): (b: string)
    ensures |b| == n && forall c | c in b :: c == ' '
  {
    if n == 0 then [] else [' '] + Blanks(n - 1)
  }

  lemma {:induction false} StripLineComment(c: string, t: string)
    requires '\n' !in c
    ensures StripLine(c + (['\n'] + t)) == Blanks(|c|) + (['\n'] + Strip(t))
    ensures UnclosedAfterLine(c + (['\n'] + t)) == Unclosed(t)
  {
    if c == [] {
      var s := ['\n'] + t;
      assert c + s == s && s[1..] == t;
      assert Strip(s) == ['\n'] + Strip(t);
      assert Unclosed(s) == Unclosed(t);
    } else {
      assert c[0] in c;
      assert (c + (['\n'] + t))[1..] == c[1..] + (['\n'] + t);
      StripLineComment(c[1..], t);
    }
  }

  lemma {:induction false} StripThrough(a: string, t: string)
    requires CommentFree(a)
    ensures Strip(a + (['\n'] + t)) == a + (['\n'] + Strip(t))
    ensures Unclosed(a + (['\n'] + t)) == Unclosed(t)
  {
    var s := a + (['\n'] + t);
    if a == [] {
      assert s[1..] == t && s[0] == '\n';
    } else {
      var b := a[1..];
      assert s[1..] == b + (['\n'] + t);
      assert forall i | 0 <= i < |b| :: b[i] == a[i + 1];
      assert !OpensLine(s) && !OpensBlock(s) by {
        if |a| == 1 { assert s[1] == '\n'; } else { assert s[1] == a[1]; }
      }
      StripThrough(b, t);
      assert Strip(s) == [a[0]] + Strip(s[1..]);
      assert Unclosed(s) == Unclosed(s[1..]);
    }
  }

  lemma TokenIsClean(w: World, r: Record)
    requires Writable(w, r)
    ensures CommentFree(TokenOf(r)) && IsToken(TokenOf(r), SPTBNL)
  {
    var p, v := r.pattern, Shown(r.value);
    var t := TokenOf(r);
    forall i | 0 <= i < |t| - 1
      ensures t[i] == '/' ==> t[i + 1] != '/' && t[i + 1] != '*'
    {
      if 1 <= i < |p| {
        assert t[i] == p[i - 1] && t[i + 1] == p[i];
      } else if i == |p| {
        assert t[i + 1] == '=';
      } else if i > |p| + 1 {
        assert t[i] == v[i - |p| - 2] && t[i + 1] == v[i - |p| - 1];
      }
    }
  }

  /** One line of the save file strips to blanks and its token. */
  lemma LineStrips(w: World, r: Record, rest: string)
    requires Writable(w, r)
    ensures Strip(Line(r) + rest) == Blanks(|r.comment| + 3) + (['\n'] + (TokenOf(r) + (['\n'] + Strip(rest))))
    ensures Unclosed(Line(r) + rest) == Unclosed(rest)
  {
    hide TokenOf, CommentFree, StripLine;
    var after := TokenOf(r) + (['\n'] + rest);
    var c := [' '] + r.comment;
    var s := Line(r) + rest;
    assert s[2..] == c + (['\n'] + after);
    assert OpensLine(s);
    StripLineComment(c, after);
    TokenIsClean(w, r);
    StripThrough(TokenOf(r), rest);
    assert Strip(s) == "  " + StripLine(s[2..]);
    assert "  " + Blanks(|c|) == Blanks(|c| + 2);
  }

  lemma LineTokens(w: World, r: Record, rest: string)
    requires Writable(w, r)
    ensures Tokens(Strip(Line(r) + rest), SPTBNL) == [TokenOf(r)] + Tokens(Strip(rest), SPTBNL)
  {
    hide Strip, Tokens;
    LineStrips(w, r, rest);
    TokenIsClean(w, r);
    var blanks := Blanks(|r.comment| + 3) + ['\n'];
    var body := TokenOf(r) + (['\n'] + Strip(rest));
    assert Blanks(|r.comment| + 3) + (['\n'] + body) == blanks + body;
    TokensSkipAll(blanks, body, SPTBNL);
    assert body == TokenOf(r) + ['\n'] + Strip(rest);
    TokensCons(TokenOf(r), '\n', Strip(rest), SPTBNL);
  }

  function TokensOf(rs: seq<Record>): (ts: seq<string>)
    ensures |ts| == |rs| && forall i | 0 <= i < |ts| :: ts[i] == TokenOf(rs[i])
  {
    if rs == [] then [] else [TokenOf(rs[0])] + TokensOf(rs[1..])
  }

  /** The whole file strips and tokenises to one token per record. */
  lemma {:induction false} FileTokens(w: World, rs: seq<Record>)
    requires forall r | r in rs :: Writable(w, r)
    ensures Tokens(Strip(Lines(rs)), SPTBNL) == TokensOf(rs)
    ensures !Unclosed(Lines(rs))
  {
    hide Writable, Line;
    if rs != [] {
      FileTokens(w, rs[1..]);
      LineTokens(w, rs[0], Lines(rs[1..]));
      LineStrips(w, rs[0], Lines(rs[1..]));
    }
  }

  lemma {:induction false} LinesAreNulFree(w: World, rs: seq<Record>)
    requires forall r | r in rs :: Writable(w, r)
    ensures NUL !in Lines(rs)
  {
    if rs != [] {
      LineIsNulFree(w, rs[0]);
      LinesAreNulFree(w, rs[1..]);
    }
  }

  lemma LineIsNulFree(w: World, r: Record)
    requires Writable(w, r)
    ensures NUL !in Line(r)
  {
    assert NUL !in r.pattern && NUL !in Shown(r.value) && NUL !in r.comment;
  }

  // ---- Loading a line back ----

  /** The text that a value comes back as: as it was, except that an empty one comes back as "1". */
  function ReloadedText(value: Option<string>): string {
    if Shown(value) == [] then ONE else Shown(value)
  }

  function Reloaded(r: Record): (e: Entry)
    ensures e.value.Some?
  {
    Entry(r.pattern, Some(ReloadedText(r.value)))
  }

  lemma PrefixInsidePattern(p: string, v: string, q: string)
    requires '=' !in q && HasPrefix(p + ['='] + v, q)
    ensures HasPrefix(p, q)
  {
    var s := p + ['='] + v;
    assert forall i | 0 <= i < |q| :: q[i] == s[..|q|][i] == s[i] && q[i] in q;
    assert s[|p|] == '=';
    assert s[..|q|] == p[..|q|];
  }

  /** The parser takes a token apart into the pattern and the value it was printed from. */
  lemma TokenParses(w: World, r: Record)
    requires Writable(w, r)
    ensures var s := TokenOf(r)[1..];
            && IsKnob(TokenOf(r)) && !Rejected(s) && Recorded(s) == [] && Body(s) == s
            && HasToken(s, "=\n") && PatternOf(s) == r.pattern
            && Some(ValueOf(s)) == Reloaded(r).value
  {
    var s := TokenOf(r)[1..];
    var p, v := r.pattern, Shown(r.value);
    assert s == p + ['='] + v;
    assert s[0] == p[0] && p[0] in p;
    if HasPrefix(s, "define+") { PrefixInsidePattern(p, v, "define+"); }
    if HasPrefix(s, "undefine+") { PrefixInsidePattern(p, v, "undefine+"); }
    assert IsToken(p, "=\n");
    TokensCons(p, '=', v, "=\n");
  }

  lemma LineLoads(w: World, st: State, r: Record)
    requires Writable(w, r)
    ensures r.pattern != SEED ==> LoadPlain(w, st, TokenOf(r)) == Done(st.(db := st.db + [Reloaded(r)]), true)
    ensures r.pattern == SEED ==>
              LoadPlain(w, st, TokenOf(r)) == Done(SetSeedFromString(w, st, Reloaded(r).value.value), true)
  {
    hide Writable, HasToken, PatternOf, ValueOf, Rejected, Recorded, Body, SetSeedFromString;
    TokenParses(w, r);
    assert st.db + [] == st.db;
    TokenIsAcceptable(w, r);
  }

  lemma TokenIsAcceptable(w: World, r: Record)
    requires Writable(w, r)
    ensures Acceptable(w, r.pattern)
  {
  }

  lemma SeedIsIgnored(w: World, st: State, s: string)
    requires st.dice.seed.Some?
    ensures SetSeedFromString(w, st, s) == st
  {
    hide ParseULL, SetValue;
  }

  /** A token is a plain argument. */
  lemma TokenIsPlain(w: World, st: State, r: Record, depth: nat)
    ensures NextMode(Start, TokenOf(r)) == Start
    ensures LoadOne(w, st, Start, TokenOf(r), depth) == LoadPlain(w, st, TokenOf(r))
  {
    hide LoadPlain;
    var t := TokenOf(r);
    assert t[0] == '+';
    if |t| >= 3 {
      assert t[..3][0] == '+' && "-f "[0] == '-';
    }
  }

  /** The records as they come back; a second seed is dropped. */
  function AllReloaded(rs: seq<Record>): Db {
    if rs == [] then [] else [Reloaded(rs[0])] + AllReloaded(rs[1..])
  }

  function KeptEntry(r: Record): Db {
    if r.pattern == SEED then [] else [Reloaded(r)]
  }

  function Kept(rs: seq<Record>): Db {
    if rs == [] then [] else KeptEntry(rs[0]) + Kept(rs[1..])
  }

  lemma {:induction false} KeptWithoutSeeds(rs: seq<Record>)
    requires forall r | r in rs :: r.pattern != SEED
    ensures Kept(rs) == AllReloaded(rs)
  {
    if rs != [] { KeptWithoutSeeds(rs[1..]); }
  }

  lemma {:induction false} AllReloadedConcat(xs: seq<Record>, ys: seq<Record>)
    ensures AllReloaded(xs + ys) == AllReloaded(xs) + AllReloaded(ys)
  {
    if xs == [] {
      assert xs + ys == ys;
    } else {
      assert (xs + ys)[0] == xs[0] && (xs + ys)[1..] == xs[1..] + ys;
      AllReloadedConcat(xs[1..], ys);
    }
  }

  /** How one record comes back: as a knob, or, if its pattern is `seed`, by way of the seed setter. */
  function RestoreOne(w: World, st: State, r: Record): State {
    if r.pattern == SEED then SetSeedFromString(w, st, ReloadedText(r.value)) else st.(db := st.db + [Reloaded(r)])
  }

  /** How some records come back, one after the other. */
  function RestoreAll(w: World, st: State, rs: seq<Record>): State
    decreases |rs|
  {
    if rs == [] then st else RestoreAll(w, RestoreOne(w, st, rs[0]), rs[1..])
  }

  lemma RecordLoads(w: World, st: State, r: Record, depth: nat)
    requires Writable(w, r)
    ensures NextMode(Start, TokenOf(r)) == Start
    ensures LoadOne(w, st, Start, TokenOf(r), depth) == Done(RestoreOne(w, st, r), true)
  {
    hide Writable, LoadPlain, TokenOf, LoadOne, SetSeedFromString;
    TokenIsPlain(w, st, r, depth);
    LineLoads(w, st, r);
  }

  /** Loading the tokens of some records never fails, and brings them back one after the other. */
  lemma {:induction false} RecordsLoad(w: World, st: State, rs: seq<Record>, depth: nat)
    requires forall r | r in rs :: Writable(w, r)
    ensures Load(w, st, Start, TokensOf(rs), depth) == Done(RestoreAll(w, st, rs), true)
    decreases |rs|
  {
    hide Writable, TokenOf, LoadOne, RestoreOne, NextMode;
    if rs != [] {
      var r, rest := rs[0], rs[1..];
      var args := TokensOf(rs);
      assert args[0] == TokenOf(r) && args[1..] == TokensOf(rest);
      RecordLoads(w, st, r, depth);
      RecordsLoad(w, RestoreOne(w, st, r), rest, depth);
    }
  }

  lemma {:induction false} RestoreConcat(w: World, st: State, xs: seq<Record>, ys: seq<Record>)
    ensures RestoreAll(w, st, xs + ys) == RestoreAll(w, RestoreAll(w, st, xs), ys)
    decreases |xs|
  {
    hide RestoreOne;
    if xs == [] {
      assert xs + ys == ys;
    } else {
      assert (xs + ys)[0] == xs[0] && (xs + ys)[1..] == xs[1..] + ys;
      RestoreConcat(w, RestoreOne(w, st, xs[0]), xs[1..], ys);
    }
  }

  /** When the seed is fixed, every record adds its knob, except that further seeds are dropped. */
  lemma {:induction false} RestoreSeeded(w: World, st: State, rs: seq<Record>)
    requires st.dice.seed.Some?
    ensures RestoreAll(w, st, rs) == st.(db := st.db + Kept(rs))
    decreases |rs|
  {
    hide SetSeedFromString, Reloaded;
    if rs == [] {
      assert st.db + [] == st.db;
    } else {
      var r, rest := rs[0], rs[1..];
      if r.pattern == SEED {
        SeedIsIgnored(w, st, ReloadedText(r.value));
        assert st.db + [] == st.db;
      }
      var next := RestoreOne(w, st, r);
      assert next == st.(db := st.db + KeptEntry(r));
      RestoreSeeded(w, next, rest);
      assert next.db + Kept(rest) == st.db + (KeptEntry(r) + Kept(rest));
    }
  }

  /** Records that do not set the seed add their knobs, whether it is fixed or not. */
  lemma {:induction false} RestoreSeedless(w: World, st: State, rs: seq<Record>)
    requires forall r | r in rs :: r.pattern != SEED
    ensures RestoreAll(w, st, rs) == st.(db := st.db + AllReloaded(rs))
    decreases |rs|
  {
    hide Reloaded;
    if rs == [] {
      assert st.db + [] == st.db;
    } else {
      var next := RestoreOne(w, st, rs[0]);
      RestoreSeedless(w, next, rs[1..]);
      assert next.db + AllReloaded(rs[1..]) == st.db + ([Reloaded(rs[0])] + AllReloaded(rs[1..]));
    }
  }

  // ---- The round trip ----

  /** Everything in a save file can be written so that it is read back. */
  ghost predicate Savable(w: World, records: seq<Record>, saved: seq<Saved>) {
    && (forall r | r in records :: Writable(w, r))
    && (forall s | s in saved :: Writable(w, SavedRecord(s)))
    && |records| + |saved| < MAX_ARGV_SIZE
  }

  const EMPTY: State := State([], Dice(None, 0))

  /** A save file, stripped of comments, tokenised and loaded into an empty database, loads without failing and
  brings back its records and then its cached values, one after the other. */
  lemma ReplayRestores(w: World, path: string, records: seq<Record>, saved: seq<Saved>)
    requires Savable(w, records, saved)
    requires w.delimiters == SPTBNL && path in w.files && w.files[path] == SaveText(records, saved)
    ensures LoadFile(w, EMPTY, path, 1) == Done(RestoreAll(w, EMPTY, records + SavedRecords(saved)), true)
  {
    hide Writable, TokenOf, Load, Strip, Unclosed, Tokens, Line, RestoreAll;
    SaveFileArgs(w, path, records, saved);
    LoadFileIs(w, EMPTY, path, 1);
    RecordsLoad(w, EMPTY, records + SavedRecords(saved), 0);
  }

  /** Without a seed in the database or in the table, what comes back is the database it was written from and one
  knob per cached value. */
  lemma ReplayRestoresUnseeded(w: World, path: string, records: seq<Record>, saved: seq<Saved>)
    requires Savable(w, records, saved)
    requires (forall r | r in records :: r.pattern != SEED) && (forall s | s in saved :: s.name != SEED)
    requires w.delimiters == SPTBNL && path in w.files && w.files[path] == SaveText(records, saved)
    ensures LoadFile(w, EMPTY, path, 1) ==
            Done(State(AllReloaded(records) + AllReloaded(SavedRecords(saved)), Dice(None, 0)), true)
  {
    hide Writable, Load, RestoreAll, SaveText;
    ReplayRestores(w, path, records, saved);
    var all := records + SavedRecords(saved);
    RestoreSeedless(w, EMPTY, all);
    AllReloadedConcat(records, SavedRecords(saved));
    assert [] + AllReloaded(all) == AllReloaded(all);
  }

  lemma SaveFileArgs(w: World, path: string, records: seq<Record>, saved: seq<Saved>)
    requires Savable(w, records, saved)
    requires w.delimiters == SPTBNL && path in w.files && w.files[path] == SaveText(records, saved)
    ensures !Unclosed(UpToNul(w.files[path]))
    ensures FileArgs(w, path) == TokensOf(records + SavedRecords(saved))
    ensures forall r | r in records + SavedRecords(saved) :: Writable(w, r)
    ensures |FileArgs(w, path)| < MAX_ARGV_SIZE
  {
    hide Writable, TokenOf, Strip, Unclosed, Tokens, Line;
    var all := records + SavedRecords(saved);
    forall r | r in all
      ensures Writable(w, r)
    {
      if r !in records {
        var i :| 0 <= i < |saved| && r == SavedRecords(saved)[i];
        assert saved[i] in saved;
      }
    }
    LinesConcat(records, SavedRecords(saved));
    FileTokens(w, all);
    LinesAreNulFree(w, all);
    var text := Lines(all);
    assert SaveText(records, saved) == text;
    RunUnique(text, [NUL], |text|);
    assert UpToNul(text) == text[..|text|] == text;
  }

  /** Records come back as the knobs they were written from exactly if no value is NULL or empty, as long as none goes
  by way of the seed setter. */
  lemma {:induction false} ReloadedAsWrittenIff(records: seq<Record>)
    ensures AllReloaded(records) == Entries(records) <==>
            forall r | r in records :: r.value.Some? && r.value.value != []
  {
    if records != [] {
      ReloadedAsWrittenIff(records[1..]);
      var a, b := AllReloaded(records), Entries(records);
      assert a == b ==> a[0] == b[0] && a[1..] == b[1..];
      assert a[1..] == AllReloaded(records[1..]) && b[1..] == Entries(records[1..]);
      assert records[0] in records;
    }
  }

  /** The database as it was. */
  function Entries(records: seq<Record>): (db: Db)
    ensures |db| == |records|
    ensures forall i | 0 <= i < |db| :: db[i] == Entry(records[i].pattern, records[i].value)
  {
    if records == [] then [] else [Entry(records[0].pattern, records[0].value)] + Entries(records[1..])
  }

  /** So a text that was set to be empty comes back as "1". */
  lemma EmptyValueComesBackAsOne(w: World, path: string, comment: string)
    requires Without(comment, "\n\0") && w.delimiters == SPTBNL && path in w.files
    requires w.files[path] == SaveText([Record("x", Some([]), comment)], [])
    ensures SetString(w, [], "x", []) == Entries([Record("x", Some([]), comment)])
    ensures LoadFile(w, EMPTY, path, 1) == Done(State([Entry("x", Some("1"))], Dice(None, 0)), true)
  {
    hide LoadFile, SaveText;
    var records := [Record("x", Some([]), comment)];
    assert records[1..] == [];
    ReplayRestoresUnseeded(w, path, records, []);
  }
}
