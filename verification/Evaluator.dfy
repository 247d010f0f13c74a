/** The evaluator as it runs: one static buffer, cut up in place at commas, colons and tildes. */
module EvaluatorModule {
  import opened Text
  import opened Numbers
  import opened World
  import opened Random
  import opened Choice
  import opened Ranges
  import opened Eval
  import opened StrtokModule
  import opened Gather

  /** The pointers to the first `n` alternatives read as their heads, the others still as whole alternatives. */
  ghost predicate Beheaded(memory: seq<char>, offs: seq<nat>, parts: seq<string>, n: nat) {
    && |offs| == |parts|
    && (forall k | 0 <= k < |parts| && k < n :: ReadsAs(memory, offs[k], Head(parts[k])))
    && (forall k | 0 <= k < |parts| && n <= k :: ReadsAs(memory, offs[k], parts[k]))
  }

  lemma BeheadOne(before: seq<char>, after: seq<char>, offs: seq<nat>, parts: seq<string>, n: nat)
    requires Beheaded(before, offs, parts, n) && Spread(offs, parts) && n < |parts|
    requires SameOutside(before, after, offs[n], offs[n] + |parts[n]|)
    requires ReadsAs(after, offs[n], Head(parts[n]))
    ensures Beheaded(after, offs, parts, n + 1)
  {
    var from, to := offs[n], offs[n] + |parts[n]|;
    forall k | 0 <= k < n
      ensures ReadsAs(after, offs[k], Head(parts[k]))
    {
      ReadsOutside(before, after, from, to, offs[k], Head(parts[k]));
    }
    forall k | n < k < |parts|
      ensures ReadsAs(after, offs[k], parts[k])
    {
      ReadsOutside(before, after, from, to, offs[k], parts[k]);
    }
  }

  /** The two colon scans of one alternative: its pointer now reads as its head, and the second token is its weight. */
  lemma ColonScan(m0: seq<char>, m1: seq<char>, off: nat, s: string, token: Option<nat>, next: nat)
    requires ReadsAs(m0, off, s)
    requires Scanned(m0, m1, off, s, ":", token, next)
    ensures ReadsAs(m1, off, Head(s))
    ensures ReadsAs(m1, next, AfterToken(s, ":"))
    ensures off + |Head(s)| < next || (off + |Head(s)| == next && AfterToken(s, ":") == [])
    ensures next + |AfterToken(s, ":")| == off + |s|
    ensures token == None <==> Tokens(s, ":") == []
    ensures token.Some? ==> Tokens(s, ":") == [FirstToken(s, ":")] + Tokens(AfterToken(s, ":"), ":")
  {
    ScannedReads(m0, m1, off, s, ":", token, next);
    var e := TokenEnd(s, ":");
    if HasToken(s, ":") && e < |s| {
      ReadsCut(m0, off, s, 0, e);
      assert s[0..e] == Head(s);
    } else {
      assert e == |s| && Head(s) == s;
    }
  }

  lemma HeldIsUncut(memory: seq<char>, offs: seq<nat>, parts: seq<string>)
    requires Holds(memory, offs, parts)
    ensures Spread(offs, parts) && Beheaded(memory, offs, parts, 0)
  {
  }

  lemma BeheadedReads(memory: seq<char>, offs: seq<nat>, parts: seq<string>, k: nat)
    requires Beheaded(memory, offs, parts, |parts|) && k < |parts|
    ensures ReadsAs(memory, offs[k], Head(parts[k]))
  {
  }

  class Evaluator {
    const random: RandomSource
    const strtok: Strtok
    const buffer: array<char>

    constructor (w: World)
      ensures Valid() && fresh(random) && fresh(strtok) && fresh(buffer)
      ensures random.world == w && random.dice == Dice(None, 0)
    {
      random := new RandomSource(w);
      strtok := new Strtok();
      buffer := new char[MAX_LENGTH];
    }

    predicate Valid() {
      buffer.Length == MAX_LENGTH
    }

    method SplitAtCommas(l: string) returns (choices: array<nat>, count: nat)
      requires Valid() && ChoiceDefined(l)
      modifies strtok, buffer
      ensures fresh(choices)
      ensures count == |Tokens(l, ",")| <= choices.Length
      ensures Holds(buffer[..], choices[..count], Tokens(l, ","))
    {
      hide Tokens, Progress, Holds, FirstToken, AfterToken, Weights, Sum, HasToken;
      choices := new nat[MAX_CHOICES];
      CopyInto(buffer, l);
      ghost var offs: seq<nat>, done: seq<string>, rest := [], [], l;
      var p := FirstChoice(l);
      HasFirst(l, ",");
      choices[0] := p.value;
      count := 1;
      offs, done, rest := [p.value], [FirstToken(l, ",")], AfterToken(l, ",");
      while true
        invariant 1 <= count == |done| == |offs| <= MAX_CHOICES && choices.Length == MAX_CHOICES
        invariant strtok.text == buffer
        invariant choices[..count] == offs
        invariant Progress(l, ",", buffer[..], offs, done, strtok.next, rest)
        decreases |rest|
      {
        p := NextChoice(l, offs, done, rest);
        if p == None {
          HoldsLength(buffer[..], offs, Tokens(l, ","));
          break;
        }
        choices[count] := p.value;
        count := count + 1;
        offs, done, rest := offs + [p.value], done + [FirstToken(rest, ",")], AfterToken(rest, ",");
      }
    }

    /** strtok(eval_buffer, ",") */
    method FirstChoice(ghost l: string) returns (p: Option<nat>)
      requires ReadsAs(buffer[..], 0, l)
      modifies strtok, buffer
      ensures strtok.text == buffer && (p.Some? <==> HasToken(l, ","))
      ensures p.Some? ==>
                Progress(l, ",", buffer[..], [p.value], [FirstToken(l, ",")], strtok.next, AfterToken(l, ","))
    {
      hide Tokens, Progress, Holds;
      ghost var before := buffer[..];
      ProgressStart(l, ",", before, 0);
      p := strtok.First(buffer, 0, ",", l);
      ProgressStep(l, ",", before, buffer[..], [], [], 0, l, p, strtok.next);
      assert p.Some? ==> [] + [p.value] == [p.value] && [] + [FirstToken(l, ",")] == [FirstToken(l, ",")];
    }

    /** strtok(NULL, ",") */
    method NextChoice(ghost l: string, ghost offs: seq<nat>, ghost done: seq<string>, ghost rest: string)
        returns (p: Option<nat>)
      requires strtok.text == buffer && Progress(l, ",", buffer[..], offs, done, strtok.next, rest)
      modifies strtok, buffer
      ensures strtok.text == buffer
      ensures p == None ==> Holds(buffer[..], offs, Tokens(l, ","))
      ensures p.Some? ==> |AfterToken(rest, ",")| < |rest| && |done| < |Tokens(l, ",")|
      ensures p.Some? ==> Progress(l, ",", buffer[..], offs + [p.value], done + [FirstToken(rest, ",")],
                                   strtok.next, AfterToken(rest, ","))
    {
      hide Tokens, Progress, Holds;
      ghost var before, from := buffer[..], strtok.next;
      ProgressReads(l, ",", before, offs, done, from, rest);
      p := strtok.Next(",", rest);
      ProgressStep(l, ",", before, buffer[..], offs, done, from, rest, p, strtok.next);
    }

    /** Cuts one alternative at its colon; its weight, or 1. */
    method ReadWeight(off: nat, ghost s: string) returns (weight: nat)
      requires ReadsAs(buffer[..], off, s)
      modifies strtok, buffer
      ensures ReadsAs(buffer[..], off, Head(s))
      ensures weight == Weight(s)
      ensures SameOutside(old(buffer[..]), buffer[..], off, off + |s|)
    {
      ghost var m0 := buffer[..];
      var name := strtok.First(buffer, off, ":", s);
      ghost var m1, rest, from := buffer[..], AfterToken(s, ":"), strtok.next;
      ColonScan(m0, m1, off, s, name, from);
      ScannedFrame(m0, m1, off, s, ":", name, from);
      if name == None {
        return 1;
      }
      var digits := strtok.Next(":", rest);
      ScannedReads(m1, buffer[..], from, rest, ":", digits, strtok.next);
      ScannedKeeps(m1, buffer[..], from, rest, ":", digits, strtok.next, off, Head(s));
      ScannedFrame(m1, buffer[..], from, rest, ":", digits, strtok.next);
      if digits == None {
        return 1;
      }
      var text := ReadCString(buffer, digits.value, FirstToken(rest, ":"));
      return ParseULL(text).value;
    }

    method TakeWeight(off: nat, ghost offs: seq<nat>, ghost parts: seq<string>, ghost i: nat) returns (weight: nat)
      requires Spread(offs, parts) && i < |parts| && off == offs[i]
      requires Beheaded(buffer[..], offs, parts, i)
      modifies strtok, buffer
      ensures weight == Weight(parts[i])
      ensures Beheaded(buffer[..], offs, parts, i + 1)
    {
      ghost var before := buffer[..];
      weight := ReadWeight(off, parts[i]);
      BeheadOne(before, buffer[..], offs, parts, i);
    }

    /** Cuts every alternative at its colon and collects the weights. */
    method AssignWeights(choices: array<nat>, count: nat, ghost parts: seq<string>) returns (weights: array<nat>)
      requires count == |parts| <= MAX_CHOICES && count <= choices.Length
      requires Spread(choices[..count], parts) && Beheaded(buffer[..], choices[..count], parts, 0)
      modifies strtok, buffer
      ensures fresh(weights) && weights.Length == count
      ensures weights[..] == Weights(parts)
      ensures Beheaded(buffer[..], choices[..count], parts, count)
    {
      hide Beheaded, Spread, Head, Weight;
      weights := new nat[count];
      ghost var offs, ws := choices[..count], Weights(parts);
      for i := 0 to count
        invariant forall k | 0 <= k < count :: choices[k] == offs[k]
        invariant forall k | 0 <= k < i :: weights[k] == ws[k]
        invariant Beheaded(buffer[..], offs, parts, i)
      {
        var weight := TakeWeight(choices[i], offs, parts, i);
        weights[i] := weight;
      }
      assert choices[..count] == offs;
    }

    /** The running total, wrapping at 64 bits. */
    method SumUp(weights: array<nat>) returns (total: nat)
      ensures total == Total(weights[..])
    {
      total := 0;
      for i := 0 to weights.Length
        invariant total == Total(weights[..i])
      {
        TotalStep(weights[..], i);
        assert weights[..][..i] == weights[..i] && weights[..][..i + 1] == weights[..i + 1];
        total := (total + weights[i]) % TWO64;
      }
      assert weights[..weights.Length] == weights[..];
    }

    /** Walks the weights until their running total exceeds `w`. */
    method Scan(choices: array<nat>, weights: array<nat>, w: nat) returns (choice: nat)
      requires weights.Length <= choices.Length
      requires w < Total(weights[..])
      ensures Pick(weights[..], w, 0) < weights.Length
      ensures choice == choices[Pick(weights[..], w, 0)]
    {
      ghost var ws := weights[..];
      PickStaysInside(ws, w);
      var a, j := 0, 0;
      choice := 0;
      while a <= w
        invariant 0 <= j <= weights.Length
        invariant a == Total(ws[..j])
        invariant a <= w ==> Pick(ws, w, 0) == Pick(ws, w, j)
        invariant a > w ==> j > 0 && Pick(ws, w, 0) == j - 1 && choice == choices[j - 1]
        decreases weights.Length - j
      {
        assert j < weights.Length;
        choice := choices[j];
        TotalStep(ws, j);
        a := (a + weights[j]) % TWO64;
        j := j + 1;
      }
    }

    /** choose_from_weighted_list: a pointer into the buffer. */
    method ChooseFromWeightedList(l: string) returns (choice: nat)
      requires Valid() && ChoiceDefined(l)
      modifies random, strtok, buffer
      ensures ReadsAs(buffer[..], choice, Choose(l, Draw(random.world, old(random.dice))))
      ensures random.dice == AfterChoice(old(random.dice), l)
    {
      hide Tokens, Weights, Sum, Pick, Head, Holds, Draw, Spread, Beheaded, Total;
      var choices, count := SplitAtCommas(l);
      ghost var parts := Tokens(l, ",");
      HeldIsUncut(buffer[..], choices[..count], parts);
      var weights := AssignWeights(choices, count, parts);
      BeheadedReads(buffer[..], choices[..count], parts, ChosenIndex(l, Draw(random.world, random.dice)));
      var total := SumUp(weights);
      if total == 1 {
        return choices[0];
      }
      var draw := random.GetRandom();
      choice := Scan(choices, weights, draw % total);
    }

    /** Cuts a chosen alternative at its tilde: one or two numbers, as text. */
    method SplitAtTilde(chosen: nat, ghost text: string) returns (left: string, right: Option<string>)
      requires ReadsAs(buffer[..], chosen, text) && HasToken(text, "~")
      modifies strtok, buffer
      ensures |Tokens(text, "~")| >= 1 && left == Tokens(text, "~")[0]
      ensures right == if |Tokens(text, "~")| == 1 then None else Some(Tokens(text, "~")[1])
    {
      ghost var before := buffer[..];
      var p := strtok.First(buffer, chosen, "~", text);
      ghost var middle, from, rest := buffer[..], strtok.next, AfterToken(text, "~");
      ScannedReads(before, middle, chosen, text, "~", p, from);
      left := ReadCString(buffer, p.value, FirstToken(text, "~"));
      var q := strtok.Next("~", rest);
      ScannedReads(middle, buffer[..], from, rest, "~", q, strtok.next);
      if q == None {
        return left, None;
      }
      var t := ReadCString(buffer, q.value, FirstToken(rest, "~"));
      return left, Some(t);
    }

    method DrawFromRange(l: nat, r: nat) returns (value: nat)
      requires RangeDefined(l, r)
      modifies random
      ensures value == RangeValue(l, r, Draw(random.world, old(random.dice)))
      ensures random.dice == Advance(old(random.dice))
    {
      value := random.GetRandom();
      if !(l == 0 && r == TWO64 - 1) {
        value := (l + value % RangeSize(l, r)) % TWO64;
      }
    }

    /** sknobs_eval */
    method Eval(expr: string) returns (value: nat)
      requires Valid() && Evaluate(random.world, random.dice, expr).Some?
      modifies random, strtok, buffer
      ensures Evaluate(random.world, old(random.dice), expr) == Some((value, random.dice))
    {
      ghost var text := Choose(expr, Draw(random.world, random.dice));
      var chosen := ChooseFromWeightedList(expr);
      var left, right := SplitAtTilde(chosen, text);
      var l := ParseULL(left).value;
      if right == None {
        return l;
      }
      var r := ParseULL(right.value).value;
      value := DrawFromRange(l, r);
    }
  }
}
