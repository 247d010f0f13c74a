/** Collecting the tokens of a buffer, and why the pointers collected so far stay good. */
module Gather {
  import opened Text
  import opened StrtokModule

  /** `offs` point at the strings `done`, one behind the other, all before the cursor `next`, which is at `rest`. */
  ghost predicate Gathered(memory: seq<char>, offs: seq<nat>, done: seq<string>, next: nat, rest: string) {
    && Holds(memory, offs, done)
    && ReadsAs(memory, next, rest)
    && (forall i | 0 <= i < |offs| :: offs[i] + |done[i]| <= next)
    && (rest != [] ==> forall i | 0 <= i < |offs| :: offs[i] + |done[i]| < next)
  }

  ghost predicate Holds(memory: seq<char>, offs: seq<nat>, done: seq<string>) {
    && |offs| == |done|
    && (forall i | 0 <= i < |offs| :: ReadsAs(memory, offs[i], done[i]))
    && Spread(offs, done)
  }

  ghost predicate Spread(offs: seq<nat>, done: seq<string>) {
    |offs| == |done| && forall i, j | 0 <= i < j < |offs| :: offs[i] + |done[i]| < offs[j]
  }

  /** One more `strtok`: a token is added to the collection, or there is none left. */
  lemma GatherStep(before: seq<char>, after: seq<char>, offs: seq<nat>, done: seq<string>,
                   off: nat, s: string, d: string, token: Option<nat>, next: nat)
    requires Gathered(before, offs, done, off, s)
    requires Scanned(before, after, off, s, d, token, next)
    ensures token == None ==> Tokens(s, d) == [] && Holds(after, offs, done)
    ensures token.Some? ==> Tokens(s, d) == [FirstToken(s, d)] + Tokens(AfterToken(s, d), d)
    ensures token.Some? ==> Gathered(after, offs + [token.value], done + [FirstToken(s, d)], next, AfterToken(s, d))
  {
    KeepsHolding(before, after, offs, done, off, s, d, token, next);
    ScannedReads(before, after, off, s, d, token, next);
    if token.Some? {
      assert s != [];
      HoldsSnoc(after, offs, done, token.value, FirstToken(s, d));
    }
  }

  lemma HoldsSnoc(memory: seq<char>, offs: seq<nat>, done: seq<string>, off: nat, s: string)
    requires Holds(memory, offs, done) && ReadsAs(memory, off, s)
    requires forall i | 0 <= i < |offs| :: offs[i] + |done[i]| < off
    ensures Holds(memory, offs + [off], done + [s])
  {
  }

  lemma KeepsHolding(before: seq<char>, after: seq<char>, offs: seq<nat>, done: seq<string>,
                     off: nat, s: string, d: string, token: Option<nat>, next: nat)
    requires Gathered(before, offs, done, off, s)
    requires Scanned(before, after, off, s, d, token, next)
    ensures Holds(after, offs, done)
  {
    forall i | 0 <= i < |offs|
      ensures ReadsAs(after, offs[i], done[i])
    {
      ScannedKeeps(before, after, off, s, d, token, next, offs[i], done[i]);
    }
  }

  /** Part-way through tokenising `text`: the tokens in `done` are collected, those of `rest` are still to come. */
  ghost predicate Progress(text: string, d: string, memory: seq<char>, offs: seq<nat>, done: seq<string>,
                           next: nat, rest: string)
  {
    Gathered(memory, offs, done, next, rest) && Tokens(text, d) == done + Tokens(rest, d)
  }

  lemma ProgressStart(text: string, d: string, memory: seq<char>, off: nat)
    requires ReadsAs(memory, off, text)
    ensures Progress(text, d, memory, [], [], off, text)
  {
  }

  lemma ProgressStep(text: string, d: string, before: seq<char>, after: seq<char>, offs: seq<nat>, done: seq<string>,
                     off: nat, s: string, token: Option<nat>, next: nat)
    requires Progress(text, d, before, offs, done, off, s)
    requires Scanned(before, after, off, s, d, token, next)
    ensures token == None ==> Holds(after, offs, Tokens(text, d))
    ensures token.Some? ==> |AfterToken(s, d)| < |s| && |done| < |Tokens(text, d)|
    ensures token.Some? ==>
              Progress(text, d, after, offs + [token.value], done + [FirstToken(s, d)], next, AfterToken(s, d))
  {
    GatherStep(before, after, offs, done, off, s, d, token, next);
    if token == None {
      assert done + [] == done;
    } else {
      AppendHead(Tokens(text, d), done, FirstToken(s, d), Tokens(AfterToken(s, d), d));
    }
  }

  lemma AppendHead<T>(all: seq<T>, done: seq<T>, x: T, rest: seq<T>)
    requires all == done + ([x] + rest)
    ensures all == (done + [x]) + rest
    ensures |done| < |all|
  {
  }

  lemma ProgressReads(text: string, d: string, memory: seq<char>, offs: seq<nat>, done: seq<string>,
                      next: nat, rest: string)
    requires Progress(text, d, memory, offs, done, next, rest)
    ensures ReadsAs(memory, next, rest)
  {
  }

  lemma HoldsLength(memory: seq<char>, offs: seq<nat>, done: seq<string>)
    requires Holds(memory, offs, done)
    ensures |offs| == |done|
  {
  }

  lemma HasFirst(s: string, d: string)
    ensures HasToken(s, d) <==> |Tokens(s, d)| > 0
  {
  }
}
