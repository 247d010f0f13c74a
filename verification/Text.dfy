/** C strings, and the delimiter-separated tokens that `strtok` finds in them.

A C string is a `string` without NUL; in memory it is the characters up to the next NUL.
`Tokens` is the whole result of a run of `strtok` calls with one delimiter set; that it is exactly
the maximal delimiter-free runs of the text, in order, is the theorem `TokensAreTheMaximalRuns`. */
module Text {
  const NUL: char := '\0'

  datatype Option<+T> = None | Some(value: T)

  /** Memory holds the C string `s` at offset `off`. */
  ghost predicate ReadsAs(memory: seq<char>, off: int, s: string) {
    && 0 <= off
    && off + |s| < |memory|
    && (forall i | 0 <= i < |s| :: memory[off + i] == s[i] && s[i] != NUL)
    && memory[off + |s|] == NUL
  }

  lemma ReadsNulFree(memory: seq<char>, off: int, s: string)
    requires ReadsAs(memory, off, s)
    ensures NUL !in s
  {
  }

  /** Reading one character: it is NUL exactly at the end of the string. */
  lemma ReadHead(memory: seq<char>, s: string)
    requires ReadsAs(memory, 0, s)
    ensures memory[0] == NUL <==> s == []
    ensures s != [] ==> memory[0] == s[0] && ReadsAs(memory[1..], 0, s[1..])
    ensures s != [] ==> memory[1..][|s| - 1..] == memory[|s|..]
  {
    if s != [] {
      var rest := memory[1..];
      assert forall i | 0 <= i < |rest| :: rest[i] == memory[i + 1];
      assert memory[0 + 0] == s[0];
    }
  }

  predicate HasPrefix(s: string, p: string) {
    |p| <= |s| && s[..|p|] == p
  }

  /** Length of the leading run of delimiters. */
  function SkipLen(s: string, d: string): (n: nat)
    ensures n <= |s|
    ensures forall i | 0 <= i < n :: s[i] in d
    ensures n < |s| ==> s[n] !in d
  {
    if s == [] || s[0] !in d then 0 else 1 + SkipLen(s[1..], d)
  }

  /** Length of the leading run of characters that are not delimiters. */
  function RunLen(s: string, d: string): (n: nat)
    ensures n <= |s|
    ensures forall i | 0 <= i < n :: s[i] !in d
    ensures n < |s| ==> s[n] in d
  {
    if s == [] || s[0] in d then 0 else 1 + RunLen(s[1..], d)
  }

  /** Index of the first character past the first token. */
  function TokenEnd(s: string, d: string): (n: nat)
    ensures SkipLen(s, d) <= n <= |s|
    ensures SkipLen(s, d) < |s| ==> SkipLen(s, d) < n
  {
    SkipLen(s, d) + RunLen(s[SkipLen(s, d)..], d)
  }

  predicate HasToken(s: string, d: string) {
    SkipLen(s, d) < |s|
  }

  function FirstToken(s: string, d: string): string {
    s[SkipLen(s, d)..TokenEnd(s, d)]
  }

  /** What is left to scan after the first token: `strtok` overwrites one delimiter and moves past it. */
  function AfterToken(s: string, d: string): (r: string)
    ensures HasToken(s, d) ==> |r| < |s|
  {
    if TokenEnd(s, d) < |s| then s[TokenEnd(s, d) + 1..] else []
  }

  function Tokens(s: string, d: string): seq<string>
    decreases |s|
  {
    if HasToken(s, d) then [FirstToken(s, d)] + Tokens(AfterToken(s, d), d) else []
  }

  predicate IsToken(t: string, d: string) {
    t != [] && forall c | c in t :: c !in d
  }

  lemma FirstTokenIsToken(s: string, d: string)
    requires HasToken(s, d)
    ensures IsToken(FirstToken(s, d), d)
  {
    var t := s[SkipLen(s, d)..];
    assert FirstToken(s, d) == t[..RunLen(t, d)];
  }

  lemma {:induction false} TokensAreTokens(s: string, d: string)
    ensures forall t | t in Tokens(s, d) :: IsToken(t, d)
    decreases |s|
  {
    if HasToken(s, d) {
      FirstTokenIsToken(s, d);
      TokensAreTokens(AfterToken(s, d), d);
    }
  }

  /** Tokens consist of characters of the text. */
  lemma {:induction false} TokensAreParts(s: string, d: string, c: char)
    requires c !in s
    ensures forall t | t in Tokens(s, d) :: c !in t
    decreases |s|
  {
    if HasToken(s, d) {
      assert c !in FirstToken(s, d) && c !in AfterToken(s, d);
      TokensAreParts(AfterToken(s, d), d, c);
    }
  }

  lemma {:induction false} SkipUnique(s: string, d: string, n: nat)
    requires n <= |s|
    requires forall i | 0 <= i < n :: s[i] in d
    requires n < |s| ==> s[n] !in d
    ensures SkipLen(s, d) == n
  {
  }

  lemma {:induction false} RunUnique(s: string, d: string, n: nat)
    requires n <= |s|
    requires forall i | 0 <= i < n :: s[i] !in d
    requires n < |s| ==> s[n] in d
    ensures RunLen(s, d) == n
  {
  }

  /** A leading delimiter is skipped. */
  lemma {:induction false} TokensSkip(s: string, d: string)
    requires s != [] && s[0] in d
    ensures Tokens(s, d) == Tokens(s[1..], d)
  {
    var t := s[1..];
    assert SkipLen(s, d) == 1 + SkipLen(t, d);
    assert s[SkipLen(s, d)..] == t[SkipLen(t, d)..];
    if HasToken(t, d) {
      assert FirstToken(s, d) == FirstToken(t, d);
      assert AfterToken(s, d) == AfterToken(t, d);
    }
  }

  lemma {:induction false} TokensSkipAll(p: string, s: string, d: string)
    requires forall c | c in p :: c in d
    ensures Tokens(p + s, d) == Tokens(s, d)
  {
    if p == [] {
      assert p + s == s;
    } else {
      assert (p + s)[1..] == p[1..] + s;
      assert (p + s)[0] == p[0];
      TokensSkip(p + s, d);
      TokensSkipAll(p[1..], s, d);
    }
  }

  lemma TokenInFront(t: string, c: char, s: string, d: string)
    requires IsToken(t, d) && c in d
    ensures SkipLen(t + [c] + s, d) == 0 && TokenEnd(t + [c] + s, d) == |t|
  {
    var u := t + [c] + s;
    assert forall i | 0 <= i < |t| :: u[i] == t[i] && t[i] in t;
    SkipUnique(u, d, 0);
    assert u[0..] == u;
    RunUnique(u, d, |t|);
  }

  /** A token followed by a delimiter is split off. */
  lemma TokensCons(t: string, c: char, s: string, d: string)
    requires IsToken(t, d) && c in d
    ensures Tokens(t + [c] + s, d) == [t] + Tokens(s, d)
    ensures FirstToken(t + [c] + s, d) == t && AfterToken(t + [c] + s, d) == s
    ensures HasToken(t + [c] + s, d)
  {
    hide SkipLen, TokenEnd;
    var u := t + [c] + s;
    TokenInFront(t, c, s, d);
    assert u[0..|t|] == t;
    assert u[|t| + 1..] == s;
  }

  lemma {:induction false} TokensOne(t: string, d: string)
    requires IsToken(t, d)
    ensures Tokens(t, d) == [t]
    ensures FirstToken(t, d) == t && AfterToken(t, d) == [] && HasToken(t, d)
  {
    assert t[0] in t;
    SkipUnique(t, d, 0);
    assert t[0..] == t;
    assert forall i | 0 <= i < |t| :: t[i] in t;
    RunUnique(t, d, |t|);
    assert FirstToken(t, d) == t && AfterToken(t, d) == [];
    assert !HasToken([], d);
  }

  /** Fields joined by one delimiter tokenise back to the fields. */
  function Join(parts: seq<string>, c: char): string {
    if parts == [] then [] else if |parts| == 1 then parts[0] else parts[0] + [c] + Join(parts[1..], c)
  }

  lemma {:induction false} TokensOfJoin(parts: seq<string>, c: char, d: string)
    requires c in d
    requires forall i | 0 <= i < |parts| :: IsToken(parts[i], d)
    ensures Tokens(Join(parts, c), d) == parts
  {
    if parts == [] {
    } else if |parts| == 1 {
      TokensOne(parts[0], d);
      assert parts == [parts[0]];
    } else {
      var first, rest := parts[0], parts[1..];
      TokensOfJoin(rest, c, d);
      assert Join(parts, c) == first + [c] + Join(rest, c);
      TokensCons(first, c, Join(rest, c), d);
      assert parts == [first] + rest;
    }
  }

  // ---- Tokens are exactly the maximal delimiter-free runs ----

  datatype Span = Span(from: nat, to: nat)

  /** `p` is a non-empty delimiter-free stretch of `s` that cannot be extended on either side. */
  ghost predicate IsMaximalRun(s: string, d: string, p: Span) {
    && p.from < p.to <= |s|
    && (forall i | p.from <= i < p.to :: s[i] !in d)
    && (0 < p.from ==> s[p.from - 1] in d)
    && (p.to < |s| ==> s[p.to] in d)
  }

  /** The first position at or after `i` that is not a delimiter. */
  ghost function SkipTo(s: string, d: string, i: nat): (j: nat)
    requires i <= |s|
    ensures i <= j <= |s|
    ensures forall k | i <= k < j :: s[k] in d
    ensures j < |s| ==> s[j] !in d
    decreases |s| - i
  {
    if i < |s| && s[i] in d then SkipTo(s, d, i + 1) else i
  }

  /** The first position at or after `i` that is a delimiter. */
  ghost function RunTo(s: string, d: string, i: nat): (j: nat)
    requires i <= |s|
    ensures i <= j <= |s|
    ensures forall k | i <= k < j :: s[k] !in d
    ensures j < |s| ==> s[j] in d
    decreases |s| - i
  {
    if i < |s| && s[i] !in d then RunTo(s, d, i + 1) else i
  }

  ghost function Resume(s: string, to: nat): nat {
    if to < |s| then to + 1 else to
  }

  /** Where the runs of `s` from offset `from` on lie. */
  ghost function Spans(s: string, d: string, from: nat): seq<Span>
    requires from <= |s|
    decreases |s| - from
  {
    var a := SkipTo(s, d, from);
    if a == |s| then [] else
      var b := RunTo(s, d, a);
      [Span(a, b)] + Spans(s, d, Resume(s, b))
  }

  lemma SkipOfSuffix(s: string, d: string, from: nat)
    requires from <= |s|
    ensures SkipLen(s[from..], d) == SkipTo(s, d, from) - from
  {
    SkipUnique(s[from..], d, SkipTo(s, d, from) - from);
  }

  lemma RunOfSuffix(s: string, d: string, from: nat)
    requires from <= |s|
    ensures RunLen(s[from..], d) == RunTo(s, d, from) - from
  {
    RunUnique(s[from..], d, RunTo(s, d, from) - from);
  }

  lemma SliceOfSuffix(s: string, from: nat, k: nat, e: nat)
    requires from <= |s| && k <= e <= |s| - from
    ensures s[from..][k..e] == s[from + k..from + e]
    ensures s[from..][e..] == s[from + e..]
  {
  }

  lemma TokenEndOfSuffix(s: string, d: string, from: nat)
    requires from <= |s|
    ensures TokenEnd(s[from..], d) == RunTo(s, d, SkipTo(s, d, from)) - from
  {
    var a := SkipTo(s, d, from);
    SkipOfSuffix(s, d, from);
    SliceOfSuffix(s, from, a - from, a - from);
    RunOfSuffix(s, d, a);
  }

  /** Scanning a suffix is scanning from an offset. */
  lemma ScanOfSuffix(s: string, d: string, from: nat, a: nat, b: nat)
    requires from <= |s| && a == SkipTo(s, d, from) && b == RunTo(s, d, a)
    ensures HasToken(s[from..], d) <==> a < |s|
    ensures a < |s| ==> a < b && FirstToken(s[from..], d) == s[a..b] && AfterToken(s[from..], d) == s[Resume(s, b)..]
  {
    hide SkipTo, RunTo, SkipLen, RunLen, TokenEnd;
    SkipOfSuffix(s, d, from);
    TokenEndOfSuffix(s, d, from);
    SliceOfSuffix(s, from, a - from, b - from);
    if b < |s| {
      SliceOfSuffix(s, from, b - from + 1, b - from + 1);
    } else {
      assert s[b..] == [];
    }
  }

  /** The spans and the tokens correspond one to one. */
  ghost predicate Hold(s: string, spans: seq<Span>, tokens: seq<string>) {
    && |spans| == |tokens|
    && forall i | 0 <= i < |spans| ::
         spans[i].from < spans[i].to <= |s| && s[spans[i].from..spans[i].to] == tokens[i]
  }

  lemma {:induction false} SpansHoldTokens(s: string, d: string, from: nat)
    requires from <= |s|
    ensures Hold(s, Spans(s, d, from), Tokens(s[from..], d))
    decreases |s| - from
  {
    var a := SkipTo(s, d, from);
    var b := RunTo(s, d, a);
    ScanOfSuffix(s, d, from, a, b);
    if a < |s| {
      SpansHoldTokens(s, d, Resume(s, b));
      HoldCons(s, Span(a, b), Spans(s, d, Resume(s, b)), Tokens(s[Resume(s, b)..], d));
    }
  }

  lemma HoldCons(s: string, p: Span, spans: seq<Span>, tokens: seq<string>)
    requires Hold(s, spans, tokens) && p.from < p.to <= |s|
    ensures Hold(s, [p] + spans, [s[p.from..p.to]] + tokens)
  {
  }

  /** With [a, b) the first run at or after `from`, a maximal run from there on is it or lies behind it. */
  lemma MaximalRunIsFirstOrLater(s: string, d: string, from: nat, a: nat, b: nat, q: Span)
    requires from <= a <= b <= |s| && (a < |s| ==> a < b)
    requires forall i | from <= i < a :: s[i] in d
    requires forall i | a <= i < b :: s[i] !in d
    requires b < |s| ==> s[b] in d
    requires IsMaximalRun(s, d, q) && from <= q.from
    ensures a < b && (q == Span(a, b) || Resume(s, b) <= q.from)
  {
    assert s[q.from] !in d;
    assert 0 < q.from ==> s[q.from - 1] in d;
    assert q.to < |s| ==> s[q.to] in d;
  }

  lemma {:induction false} SpansAreMaximal(s: string, d: string, from: nat)
    requires from <= |s|
    requires 0 < from < |s| ==> s[from - 1] in d
    ensures forall p | p in Spans(s, d, from) :: IsMaximalRun(s, d, p)
    ensures forall p | p in Spans(s, d, from) :: from <= p.from
    decreases |s| - from
  {
    var a := SkipTo(s, d, from);
    if a < |s| {
      var b := RunTo(s, d, a);
      assert IsMaximalRun(s, d, Span(a, b)) by {
        assert 0 < a ==> s[a - 1] in d;
      }
      SpansAreMaximal(s, d, Resume(s, b));
    }
  }

  lemma {:induction false} SpansAreAll(s: string, d: string, from: nat, q: Span)
    requires from <= |s| && IsMaximalRun(s, d, q) && from <= q.from
    ensures q in Spans(s, d, from)
    decreases |s| - from
  {
    var a := SkipTo(s, d, from);
    var b := RunTo(s, d, a);
    MaximalRunIsFirstOrLater(s, d, from, a, b, q);
    if q != Span(a, b) {
      SpansAreAll(s, d, Resume(s, b), q);
    }
  }

  ghost predicate Ordered(spans: seq<Span>) {
    forall i, j | 0 <= i < j < |spans| :: spans[i].to < spans[j].from
  }

  lemma {:induction false} SpansAreOrdered(s: string, d: string, from: nat)
    requires from <= |s|
    ensures Ordered(Spans(s, d, from))
    ensures forall p | p in Spans(s, d, from) :: from <= p.from < |s|
    decreases |s| - from
  {
    var a := SkipTo(s, d, from);
    if a < |s| {
      var b := RunTo(s, d, a);
      var rest := Spans(s, d, Resume(s, b));
      SpansAreOrdered(s, d, Resume(s, b));
      assert forall j | 0 <= j < |rest| :: rest[j] in rest;
    }
  }

  /** The tokens of `s` are its maximal delimiter-free runs: all of them, once each, left to right. */
  lemma TokensAreTheMaximalRuns(s: string, d: string)
    ensures Hold(s, Spans(s, d, 0), Tokens(s, d))
    ensures forall p :: p in Spans(s, d, 0) <==> IsMaximalRun(s, d, p)
    ensures Ordered(Spans(s, d, 0))
  {
    assert s[0..] == s;
    SpansHoldTokens(s, d, 0);
    SpansAreMaximal(s, d, 0);
    SpansAreOrdered(s, d, 0);
    forall p | IsMaximalRun(s, d, p)
      ensures p in Spans(s, d, 0)
    {
      SpansAreAll(s, d, 0, p);
    }
  }
}
