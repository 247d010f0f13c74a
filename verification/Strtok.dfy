/** The C library's `strtok` (section 7.24.5.8 of ISO/IEC 9899:2011): one hidden cursor for the whole
program, tokens cut out of the caller's buffer by overwriting one delimiter with NUL. */
module StrtokModule {
  import opened Text

  /** The effect of one scan of the C string `s` at `off`: which token it reports, where it leaves the
  cursor, and the one character it overwrites. */
  ghost predicate Scanned(before: seq<char>, after: seq<char>, off: nat, s: string, d: string,
                          token: Option<nat>, next: nat)
    requires off + |s| <= |before|
  {
    if !HasToken(s, d) then
      token == None && next == off + |s| && after == before
    else
      && token == Some(off + SkipLen(s, d))
      && var e := TokenEnd(s, d);
         if e < |s| then next == off + e + 1 && after == before[off + e := NUL]
         else next == off + e && after == before
  }

  lemma ReadsSuffix(memory: seq<char>, off: nat, s: string, k: nat)
    requires ReadsAs(memory, off, s) && k <= |s|
    ensures ReadsAs(memory, off + k, s[k..])
  {
  }

  lemma ReadsFits(memory: seq<char>, off: nat, s: string)
    requires ReadsAs(memory, off, s)
    ensures off + |s| < |memory|
  {
  }

  /** Writing NUL at position `e` of a string splits it in two. */
  lemma ReadsCut(memory: seq<char>, off: nat, s: string, k: nat, e: nat)
    requires ReadsAs(memory, off, s) && k <= e < |s|
    ensures ReadsAs(memory[off + e := NUL], off + k, s[k..e])
    ensures ReadsAs(memory[off + e := NUL], off + e + 1, s[e + 1..])
  {
  }

  /** Only the end of a string holds NUL. */
  lemma NulIsEnd(memory: seq<char>, off: nat, s: string, k: nat)
    requires ReadsAs(memory, off, s) && k <= |s|
    ensures memory[off + k] == NUL <==> k == |s|
    ensures k < |s| ==> memory[off + k] == s[k]
  {
    ReadsSuffix(memory, off, s, k);
    ReadOne(memory, off + k, s[k..]);
  }

  /** Memory holds one C string at an offset. */
  lemma {:induction false} ReadsUnique(memory: seq<char>, off: nat, s: string, t: string)
    requires ReadsAs(memory, off, s) && ReadsAs(memory, off, t)
    ensures s == t
    decreases |s|
  {
    ReadOne(memory, off, s);
    ReadOne(memory, off, t);
    if s != [] {
      ReadsUnique(memory, off + 1, s[1..], t[1..]);
      assert s == [s[0]] + s[1..] && t == [t[0]] + t[1..];
    }
  }

  /** The reported token now reads as the first token, and the cursor is at the rest of the text. */
  lemma ScannedReads(before: seq<char>, after: seq<char>, off: nat, s: string, d: string, token: Option<nat>, next: nat)
    requires ReadsAs(before, off, s)
    requires Scanned(before, after, off, s, d, token, next)
    ensures |after| == |before|
    ensures token.Some? <==> HasToken(s, d)
    ensures ReadsAs(after, next, AfterToken(s, d))
    ensures token.Some? ==> ReadsAs(after, token.value, FirstToken(s, d))
    ensures token.Some? ==> off <= token.value && token.value + |FirstToken(s, d)| <= next
    ensures token.Some? && AfterToken(s, d) != [] ==> token.value + |FirstToken(s, d)| < next
    ensures next + |AfterToken(s, d)| == off + |s|
  {
    hide SkipLen, RunLen, TokenEnd, ReadsAs;
    ReadsFits(before, off, s);
    if HasToken(s, d) {
      var k, e := SkipLen(s, d), TokenEnd(s, d);
      if e < |s| {
        ReadsCut(before, off, s, k, e);
      } else {
        ReadsSuffix(before, off, s, k);
        assert s[k..] == s[k..e];
        ReadsSuffix(before, off, s, |s|);
        assert s[|s|..] == [];
      }
    } else {
      ReadsSuffix(before, off, s, |s|);
      assert s[|s|..] == [];
    }
  }

  /** Strings that lie wholly before or wholly behind the scanned one are not touched. */
  lemma ScannedKeeps(before: seq<char>, after: seq<char>, off: nat, s: string, d: string, token: Option<nat>, next: nat,
                     o: nat, t: string)
    requires ReadsAs(before, off, s)
    requires Scanned(before, after, off, s, d, token, next)
    requires ReadsAs(before, o, t) && (o + |t| < off || off + |s| <= o || (o + |t| == off && s == []))
    ensures ReadsAs(after, o, t)
  {
  }

  /** A scan writes only inside the string it scans. */
  lemma ScannedFrame(before: seq<char>, after: seq<char>, off: nat, s: string, d: string, token: Option<nat>, next: nat)
    requires ReadsAs(before, off, s)
    requires Scanned(before, after, off, s, d, token, next)
    ensures SameOutside(before, after, off, off + |s|)
  {
  }

  /** Memory agrees outside [from, to). */
  ghost predicate SameOutside(before: seq<char>, after: seq<char>, from: nat, to: nat) {
    && |before| == |after|
    && forall i | 0 <= i < |before| && !(from <= i < to) :: after[i] == before[i]
  }

  lemma ReadsOutside(before: seq<char>, after: seq<char>, from: nat, to: nat, off: nat, s: string)
    requires SameOutside(before, after, from, to)
    requires ReadsAs(before, off, s) && (off + |s| < from || to <= off)
    ensures ReadsAs(after, off, s)
  {
  }

  class Strtok {
    var text: array<char>
    var next: nat

    constructor ()
      ensures fresh(text)
    {
      text := new char[0];
      next := 0;
    }

    /** strtok(a + off, d) */
    method First(a: array<char>, off: nat, d: string, ghost s: string) returns (token: Option<nat>)
      requires ReadsAs(a[..], off, s)
      modifies this, a
      ensures text == a
      ensures Scanned(old(a[..]), a[..], off, s, d, token, next)
    {
      text, next := a, off;
      token := Next(d, s);
    }

    /** strtok(NULL, d) */
    method Next(d: string, ghost s: string) returns (token: Option<nat>)
      requires ReadsAs(text[..], next, s)
      modifies this, text
      ensures text == old(text)
      ensures Scanned(old(text[..]), text[..], old(next), s, d, token, next)
    {
      var start := SkipDelimiters(next, d, s);
      if text[start] == NUL {
        next := start;
        return None;
      }
      var end := FindDelimiter(start, d, s[SkipLen(s, d)..]);
      if text[end] == NUL {
        next := end;
      } else {
        text[end] := NUL;
        next := end + 1;
      }
      return Some(start);
    }

    method SkipDelimiters(from: nat, d: string, ghost s: string) returns (p: nat)
      requires ReadsAs(text[..], from, s)
      ensures p == from + SkipLen(s, d)
      ensures ReadsAs(text[..], p, s[SkipLen(s, d)..])
      ensures text[p] == NUL <==> !HasToken(s, d)
    {
      p := from;
      ghost var t := s;
      while text[p] != NUL && text[p] in d
        invariant ReadsAs(text[..], p, t)
        invariant p + SkipLen(t, d) == from + SkipLen(s, d)
        invariant p + |t| == from + |s|
        decreases |t|
      {
        ReadOne(text[..], p, t);
        t := t[1..];
        p := p + 1;
      }
      ReadOne(text[..], p, t);
      ReadsUnique(text[..], p, s[|s| - |t|..], t);
    }

    method FindDelimiter(from: nat, d: string, ghost s: string) returns (p: nat)
      requires ReadsAs(text[..], from, s)
      ensures p == from + RunLen(s, d) < text.Length
      ensures text[p] == NUL <==> RunLen(s, d) == |s|
    {
      p := from;
      ghost var t := s;
      while text[p] != NUL && text[p] !in d
        invariant ReadsAs(text[..], p, t)
        invariant p + RunLen(t, d) == from + RunLen(s, d)
        invariant p + |t| == from + |s|
        decreases |t|
      {
        ReadOne(text[..], p, t);
        t := t[1..];
        p := p + 1;
      }
      ReadOne(text[..], p, t);
    }
  }

  lemma ReadOne(memory: seq<char>, off: nat, s: string)
    requires ReadsAs(memory, off, s)
    ensures memory[off] == NUL <==> s == []
    ensures s != [] ==> memory[off] == s[0] && ReadsAs(memory, off + 1, s[1..])
  {
  }

  /** Reads the C string at a pointer. */
  method ReadCString(a: array<char>, off: nat, ghost s: string) returns (t: string)
    requires ReadsAs(a[..], off, s)
    ensures t == s
  {
    var end := off;
    ghost var rest := s;
    while a[end] != NUL
      invariant off <= end && end + |rest| == off + |s|
      invariant ReadsAs(a[..], end, rest)
      decreases |rest|
    {
      ReadOne(a[..], end, rest);
      end, rest := end + 1, rest[1..];
    }
    ReadOne(a[..], end, rest);
    t := a[off..end];
  }

  /** A copy of a string in memory of its own, as strdup makes it; `room` is its size. */
  method StringCopy(s: string, room: nat) returns (a: array<char>)
    requires |s| < room && NUL !in s
    ensures fresh(a) && a.Length == room && ReadsAs(a[..], 0, s)
  {
    a := new char[room](i => NUL);
    var i := 0;
    while i < |s|
      invariant 0 <= i <= |s|
      invariant forall k | 0 <= k < i :: a[k] == s[k]
    {
      a[i] := s[i];
      i := i + 1;
    }
    a[|s|] := NUL;
    assert forall k | 0 <= k < |s| :: s[k] in s;
  }

  /** strncpy: the string, then NULs to the end of the buffer. */
  method CopyInto(a: array<char>, s: string)
    requires |s| < a.Length && NUL !in s
    modifies a
    ensures ReadsAs(a[..], 0, s)
  {
    var i := 0;
    while i < a.Length
      invariant 0 <= i <= a.Length
      invariant forall k | 0 <= k < i :: a[k] == if k < |s| then s[k] else NUL
    {
      a[i] := if i < |s| then s[i] else NUL;
      i := i + 1;
    }
    assert forall k | 0 <= k < |s| :: s[k] in s;
  }

  /** sprintf: the string and one NUL, what is behind them left alone. */
  method WriteText(a: array<char>, s: string)
    requires |s| < a.Length && NUL !in s
    modifies a
    ensures ReadsAs(a[..], 0, s)
  {
    var i := 0;
    while i < |s|
      invariant 0 <= i <= |s|
      invariant forall k | 0 <= k < i :: a[k] == s[k]
    {
      a[i] := s[i];
      i := i + 1;
    }
    a[|s|] := NUL;
    assert forall k | 0 <= k < |s| :: s[k] in s;
  }
}
