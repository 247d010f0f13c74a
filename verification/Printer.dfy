/** sknobs_save: walks the knob list and then the hash chains. */
module Printer {
  import opened Numbers
  import opened Replay
  import opened DatabaseModule
  import opened SavedTableModule
  import opened EngineModule

  ghost function RecordsOf(nodes: seq<Knob>): (rs: seq<Record>)
    reads nodes
    ensures |rs| == |nodes|
    ensures forall i | 0 <= i < |nodes| :: rs[i] == Record(nodes[i].pattern, nodes[i].value, nodes[i].comment)
  {
    if nodes == [] then []
    else [Record(nodes[0].pattern, nodes[0].value, nodes[0].comment)] + RecordsOf(nodes[1..])
  }

  /** Everything the printer prints, in its order. */
  ghost function TableListing(e: Engine): seq<Saved>
    reads e.table.buckets
  {
    Listing(e.table.buckets[..], 0)
  }

  lemma TableListingIsTheCache(e: Engine)
    requires e.Valid()
    ensures DistinctNames(TableListing(e))
    ensures forall s | s in TableListing(e) :: s.name in e.table.cache && s.value == e.table.cache[s.name]
    ensures forall n | n in e.table.cache :: Saved(n, e.table.cache[n]) in TableListing(e)
  {
    ListingIsTheMap(e.table.buckets[..], e.table.cache);
  }

  /** The first loop: two lines per knob. */
  method PrintKnobs(db: Database) returns (text: string)
    requires db.Valid()
    ensures text == Lines(RecordsOf(db.nodes))
  {
    ghost var rs := RecordsOf(db.nodes);
    text := [];
    var knob := db.head;
    ghost var i := 0;
    while knob != null
      invariant 0 <= i <= |rs| && knob == NodeAt(db.nodes, i)
      invariant Lines(rs) == text + Lines(rs[i..])
      decreases |rs| - i
    {
      hide Lines, Line;
      var line := PrintKnob(knob);
      LinesStep(text, rs, i);
      text := text + line;
      knob := knob.next;
      i := i + 1;
    }
    assert text + [] == text;
  }

  lemma LinesStep(text: string, rs: seq<Record>, i: nat)
    requires i < |rs|
    ensures text + Lines(rs[i..]) == (text + Line(rs[i])) + Lines(rs[i + 1..])
  {
    hide Line;
    assert rs[i..][0] == rs[i] && rs[i..][1..] == rs[i + 1..];
    assert text + (Line(rs[i]) + Lines(rs[i + 1..])) == (text + Line(rs[i])) + Lines(rs[i + 1..]);
  }

  /** fprintf(fp, "// %s\n+%s=%s\n", ...), a NULL value shown as empty */
  method PrintKnob(knob: Knob) returns (line: string)
    ensures line == Line(Record(knob.pattern, knob.value, knob.comment))
  {
    var value := if knob.value.Some? then knob.value.value else "";
    line := "// " + knob.comment + ['\n'] + ("+" + knob.pattern + ['='] + value) + ['\n'];
  }

  /** The second loop: two lines per saved value. */
  method PrintTable(table: SavedTable) returns (text: string)
    requires table.Valid()
    ensures text == Lines(SavedRecords(Listing(table.buckets[..], 0)))
  {
    hide Lines, SavedRecords, Listing, ListChain;
    ghost var buckets := table.buckets[..];
    assert |buckets| == HASH_TABLE_SIZE;
    text := [];
    LinesOfNothing();
    var i := 0;
    ghost var done: seq<Saved> := [];
    while i < HASH_TABLE_SIZE
      invariant 0 <= i <= HASH_TABLE_SIZE == |buckets|
      invariant done + Listing(buckets, i) == Listing(buckets, 0)
      invariant text == Lines(SavedRecords(done))
    {
      var chain := PrintChain(table.buckets[i]);
      text := text + chain;
      SavedLinesConcat(done, ListChain(buckets[i]));
      ListingStep(done, buckets, i);
      done := done + ListChain(buckets[i]);
      i := i + 1;
    }
    ListingEnd(done, buckets);
  }

  lemma ListingEnd(done: seq<Saved>, buckets: seq<Chain>)
    ensures done + Listing(buckets, |buckets|) == done
  {
  }

  lemma ListingStep(done: seq<Saved>, buckets: seq<Chain>, i: nat)
    requires i < |buckets|
    ensures (done + ListChain(buckets[i])) + Listing(buckets, i + 1) == done + Listing(buckets, i)
  {
    var chain, rest := ListChain(buckets[i]), Listing(buckets, i + 1);
    assert done + (chain + rest) == (done + chain) + rest;
  }

  lemma ChainStep(done: seq<Saved>, c: Chain)
    requires c.Cons?
    ensures (done + [Saved(c.name, c.value)]) + ListChain(c.next) == done + ListChain(c)
  {
    var first, rest := [Saved(c.name, c.value)], ListChain(c.next);
    assert done + (first + rest) == (done + first) + rest;
  }

  lemma LinesOfNothing()
    ensures Lines(SavedRecords([])) == []
  {
  }

  lemma SavedLinesConcat(xs: seq<Saved>, ys: seq<Saved>)
    ensures Lines(SavedRecords(xs + ys)) == Lines(SavedRecords(xs)) + Lines(SavedRecords(ys))
  {
    hide SavedRecord, SavedRecords;
    assert SavedRecords(xs + ys) == SavedRecords(xs) + SavedRecords(ys);
    LinesConcat(SavedRecords(xs), SavedRecords(ys));
  }

  method PrintChain(chain: Chain) returns (text: string)
    ensures text == Lines(SavedRecords(ListChain(chain)))
  {
    hide Lines, SavedRecords;
    text := [];
    LinesOfNothing();
    var c := chain;
    ghost var done: seq<Saved> := [];
    while c.Cons?
      invariant done + ListChain(c) == ListChain(chain)
      invariant text == Lines(SavedRecords(done))
      decreases c
    {
      ghost var saved := Saved(c.name, c.value);
      var line := PrintSaved(c.name, c.value);
      SavedLinesConcat(done, [saved]);
      text := text + line;
      ChainStep(done, c);
      done := done + [saved];
      c := c.next;
    }
    assert done + [] == done;
  }

  /** fprintf(fp, "// saved value\n+%s=%0lld\n", ...) */
  method PrintSaved(name: string, value: Word) returns (line: string)
    ensures line == Lines(SavedRecords([Saved(name, value)]))
  {
    line := "// saved value" + ['\n'] + ("+" + name + ['='] + PrintLLD(value)) + ['\n'];
    assert [Saved(name, value)][1..] == [];
    var r := SavedRecord(Saved(name, value));
    assert SavedRecords([Saved(name, value)]) == [r] + [] && [r][1..] == [];
    assert "// " + SAVED_COMMENT == "// saved value";
    assert Lines([r]) == Line(r) + [] == Line(r);
  }

  /** sknobs_save: the text it writes. */
  method Save(e: Engine) returns (text: string)
    requires e.Valid()
    ensures text == SaveText(RecordsOf(e.db.nodes), TableListing(e))
  {
    hide Lines, RecordsOf, Listing;
    var knobs := PrintKnobs(e.db);
    var saved := PrintTable(e.table);
    text := knobs + saved;
  }
}
