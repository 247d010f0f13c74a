/** The saved-value table: 1031 hash chains that hold every value `sknobs_get_value` has given out. */
module SavedTableModule {
  import opened Text
  import opened Numbers

  /** A value remembered by `sknobs_get_value`. */
  datatype Saved = Saved(name: string, value: Word)

  const HASH_TABLE_SIZE: nat := 1031

  // ---- The hash ----

  /** A `char` widened to `int`: characters from 128 on are negative. */
  function Widen(c: char): bv32 {
    var b := c as int % 256;
    if b < 128 then b as bv32 else (b as bv32) | 0xFFFF_FF00
  }

  /** h >> 28 on a signed `int` */
  function ShiftRight28(h: bv32): bv32 {
    if h & 0x8000_0000 == 0 then h >> 28 else (h >> 28) | 0xFFFF_FFF0
  }

  function HashStep(h: bv32, c: char): bv32 {
    ((h << 4) ^ ShiftRight28(h)) ^ Widen(c)
  }

  function HashFrom(s: string, h: bv32): bv32 {
    if s == [] then h else HashFrom(s[1..], HashStep(h, s[0]))
  }

  function HashStart(s: string): bv32 {
    (|s| % 0x1_0000_0000) as bv32
  }

  /** The bucket of a name: its hash, read as unsigned, modulo the table size. */
  function Bucket(name: string): (i: nat)
    ensures i < HASH_TABLE_SIZE
  {
    HashFrom(name, HashStart(name)) as int % HASH_TABLE_SIZE
  }

  /** Some hashes: the shift to the right is signed, and so are the characters from 128 on. */
  lemma HashExamples()
    ensures HashFrom("a", HashStart("a")) == 0x71 && Bucket("a") == 113
    ensures HashFrom("aaaaaaaaa", HashStart("aaaaaaaaa")) == 0x77777779 && Bucket("aaaaaaaaa") == 461
    ensures HashFrom("\U{E9}a", HashStart("\U{E9}a")) == 0x30E && Bucket("\U{E9}a") == 782
  {
    hide HashFrom, HashStart;
    HashOfOne();
    HashOfNine();
    HashOfAccented();
    assert 0x71 % 1031 == 113 && 0x77777779 % 1031 == 461 && 0x30E % 1031 == 782;
  }

  lemma LetterA()
    ensures Widen('a') == 0x61
  {
  }

  lemma LetterE9()
    ensures Widen('\U{E9}') == 0xFFFF_FFE9
  {
  }

  lemma HashOfOne()
    ensures HashFrom("a", HashStart("a")) == 0x71
  {
    hide Widen;
    LetterA();
    assert "a"[1..] == "";
    assert HashStep(1, 'a') == 0x71;
    assert HashStart("a") == 1;
  }

  lemma NineSteps()
    ensures HashStep(0x9, 'a') == 0xF1
    ensures HashStep(0xF1, 'a') == 0xF71
    ensures HashStep(0xF71, 'a') == 0xF771
    ensures HashStep(0xF771, 'a') == 0xF7771
    ensures HashStep(0xF7771, 'a') == 0xF77771
    ensures HashStep(0xF77771, 'a') == 0xF777771
    ensures HashStep(0xF777771, 'a') == 0xF7777771
    ensures HashStep(0xF7777771, 'a') == 0x8888888E
    ensures HashStep(0x8888888E, 'a') == 0x77777779
  {
    hide Widen;
    LetterA();
  }

  lemma StartOfNine()
    ensures HashStart("aaaaaaaaa") == 9
  {
  }

  lemma HashOfNine()
    ensures HashFrom("aaaaaaaaa", HashStart("aaaaaaaaa")) == 0x77777779
  {
    hide HashStep, HashStart;
    NineSteps();
    StartOfNine();
    var s := "aaaaaaaaa";
    assert s[8..][1..] == "";
    assert forall i | 0 <= i < 9 :: s[i..][0] == s[i] && s[i..][1..] == s[i + 1..];
    assert HashFrom(s[8..], 0x8888888E) == 0x77777779;
    assert HashFrom(s[7..], 0xF7777771) == 0x77777779;
    assert HashFrom(s[6..], 0xF777771) == 0x77777779;
    assert HashFrom(s[5..], 0xF77771) == 0x77777779;
    assert HashFrom(s[4..], 0xF7771) == 0x77777779;
    assert HashFrom(s[3..], 0xF771) == 0x77777779;
    assert HashFrom(s[2..], 0xF71) == 0x77777779;
    assert HashFrom(s[1..], 0xF1) == 0x77777779;
  }

  lemma HashOfAccented()
    ensures HashFrom("\U{E9}a", HashStart("\U{E9}a")) == 0x30E
  {
    hide Widen;
    LetterA();
    LetterE9();
    var s := "\U{E9}a";
    assert s[1..][1..] == "" && s[1..] == "a" && s[0] == '\U{E9}';
    assert HashStart(s) == 2;
    assert HashStep(2, s[0]) == 0xFFFFFFC9;
    assert HashStep(0xFFFFFFC9, 'a') == 0x30E;
    assert HashFrom(s[1..], 0xFFFFFFC9) == 0x30E;
  }

  /** hash */
  method Hash(s: string) returns (h: bv32)
    ensures h == HashFrom(s, HashStart(s))
  {
    h := HashStart(s);
    var i := 0;
    while i < |s|
      invariant i <= |s|
      invariant HashFrom(s[i..], h) == HashFrom(s, HashStart(s))
    {
      assert s[i..][1..] == s[i + 1..];
      h := HashStep(h, s[i]);
      i := i + 1;
    }
  }

  // ---- Chains ----

  datatype Chain = Nil | Cons(name: string, value: Word, next: Chain)

  function Find(c: Chain, name: string): Option<Word> {
    match c
    case Nil => None
    case Cons(n, v, next) => if n == name then Some(v) else Find(next, name)
  }

  /** The names of a chain belong to bucket `i`, occur once, and have the values of the map. */
  ghost predicate ChainOk(c: Chain, i: nat, cache: map<string, Word>) {
    match c
    case Nil => true
    case Cons(n, v, next) =>
      && Bucket(n) == i && n in cache && cache[n] == v
      && Find(next, n) == None
      && ChainOk(next, i, cache)
  }

  lemma {:induction false} FindAgrees(c: Chain, i: nat, cache: map<string, Word>, name: string)
    requires ChainOk(c, i, cache)
    ensures Find(c, name).Some? ==> Bucket(name) == i && name in cache && Find(c, name).value == cache[name]
  {
    hide Bucket;
    if c.Cons? { FindAgrees(c.next, i, cache, name); }
  }

  /** A new key in the map does not disturb the chains. */
  lemma {:induction false} ChainStaysOk(c: Chain, i: nat, cache: map<string, Word>, name: string, value: Word)
    requires ChainOk(c, i, cache) && name !in cache
    ensures ChainOk(c, i, cache[name := value])
    ensures Find(c, name) == None
  {
    hide Bucket;
    if c.Cons? { ChainStaysOk(c.next, i, cache, name, value); }
  }

  /** The table stands for the map: every entry sits in the bucket of its hash, once, and every key is found there. */
  ghost predicate Represents(buckets: seq<Chain>, cache: map<string, Word>) {
    && |buckets| == HASH_TABLE_SIZE
    && (forall i | 0 <= i < HASH_TABLE_SIZE :: ChainOk(buckets[i], i, cache))
    && (forall n | n in cache :: Find(buckets[Bucket(n)], n) == Some(cache[n]))
  }

  lemma InsertKeeps(buckets: seq<Chain>, cache: map<string, Word>, name: string, value: Word)
    requires Represents(buckets, cache) && name !in cache
    ensures var b := Bucket(name);
            Represents(buckets[b := Cons(name, value, buckets[b])], cache[name := value])
  {
    hide Bucket;
    var b := Bucket(name);
    var after, larger := buckets[b := Cons(name, value, buckets[b])], cache[name := value];
    forall i | 0 <= i < HASH_TABLE_SIZE
      ensures ChainOk(after[i], i, larger)
    {
      ChainStaysOk(buckets[i], i, cache, name, value);
    }
    forall n | n in larger
      ensures Find(after[Bucket(n)], n) == Some(larger[n])
    {
      if n != name { assert Find(buckets[Bucket(n)], n) == Some(cache[n]); }
    }
  }

  class SavedTable {
    const buckets: array<Chain>
    ghost var cache: map<string, Word>

    ghost predicate Valid()
      reads this, buckets
    {
      Represents(buckets[..], cache)
    }

    constructor ()
      ensures Valid() && fresh(buckets) && cache == map[]
    {
      buckets := new Chain[HASH_TABLE_SIZE](_ => Nil);
      cache := map[];
    }

    /** Walks the chain of a name. */
    method Lookup(name: string) returns (value: Option<Word>)
      requires Valid()
      ensures value == if name in cache then Some(cache[name]) else None
    {
      var h := Hash(name);
      var i := h as int % HASH_TABLE_SIZE;
      assert i == Bucket(name);
      hide Bucket;
      var c := buckets[i];
      while c.Cons? && c.name != name
        invariant Find(c, name) == Find(buckets[i], name)
        decreases c
      {
        c := c.next;
      }
      FindAgrees(buckets[i], i, cache, name);
      return if c.Cons? then Some(c.value) else None;
    }

    /** Puts a new value at the front of its chain. */
    method Insert(name: string, value: Word)
      requires Valid() && name !in cache
      modifies this, buckets
      ensures Valid() && cache == old(cache)[name := value]
    {
      var h := Hash(name);
      var i := h as int % HASH_TABLE_SIZE;
      assert i == Bucket(name);
      hide Bucket;
      InsertKeeps(buckets[..], cache, name, value);
      ghost var before := buckets[..];
      buckets[i] := Cons(name, value, buckets[i]);
      cache := cache[name := value];
      assert buckets[..] == before[i := Cons(name, value, before[i])];
    }
  }

  // ---- The table as the printer walks it ----

  ghost function ListChain(c: Chain): seq<Saved> {
    match c
    case Nil => []
    case Cons(n, v, next) => [Saved(n, v)] + ListChain(next)
  }

  ghost function Listing(buckets: seq<Chain>, from: nat): seq<Saved>
    requires from <= |buckets|
    decreases |buckets| - from
  {
    if from == |buckets| then [] else ListChain(buckets[from]) + Listing(buckets, from + 1)
  }

  ghost predicate DistinctNames(saved: seq<Saved>) {
    forall i, j | 0 <= i < j < |saved| :: saved[i].name != saved[j].name
  }

  lemma {:induction false} ListChainIsExact(c: Chain, i: nat, cache: map<string, Word>)
    requires ChainOk(c, i, cache)
    ensures DistinctNames(ListChain(c))
    ensures forall s | s in ListChain(c) :: Bucket(s.name) == i && s.name in cache && s.value == cache[s.name]
    ensures forall n | Find(c, n).Some? :: Saved(n, Find(c, n).value) in ListChain(c)
    ensures forall s | s in ListChain(c) :: Find(c, s.name).Some?
  {
    hide Bucket;
    if c.Cons? {
      ListChainIsExact(c.next, i, cache);
    }
  }

  lemma {:induction false} ListingIsExactFrom(buckets: seq<Chain>, cache: map<string, Word>, from: nat)
    requires Represents(buckets, cache) && from <= HASH_TABLE_SIZE
    ensures DistinctNames(Listing(buckets, from))
    ensures forall s | s in Listing(buckets, from) ::
              Bucket(s.name) >= from && s.name in cache && s.value == cache[s.name]
    ensures forall n | n in cache && Bucket(n) >= from :: Saved(n, cache[n]) in Listing(buckets, from)
    decreases HASH_TABLE_SIZE - from
  {
    hide Bucket, ChainOk;
    if from < HASH_TABLE_SIZE {
      ListChainIsExact(buckets[from], from, cache);
      ListingIsExactFrom(buckets, cache, from + 1);
    }
  }

  /** The printer's walk lists exactly the map: every cached name once, with its value. */
  lemma ListingIsTheMap(buckets: seq<Chain>, cache: map<string, Word>)
    requires Represents(buckets, cache)
    ensures DistinctNames(Listing(buckets, 0))
    ensures forall s | s in Listing(buckets, 0) :: s.name in cache && s.value == cache[s.name]
    ensures forall n | n in cache :: Saved(n, cache[n]) in Listing(buckets, 0)
  {
    hide Bucket;
    ListingIsExactFrom(buckets, cache, 0);
  }
}
