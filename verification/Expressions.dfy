/** Lists of values and ranges in the knob syntax: printing one and evaluating the text preserves its meaning. */
module Expressions {
  import opened Text
  import opened Numbers
  import opened Numerals
  import opened World
  import opened Random
  import opened Choice
  import opened Ranges
  import opened Eval
  import opened Items

  /** What can stand between the commas: numbers, in any form that is read. */
  datatype Range = Single(number: string) | Between(lo: string, hi: string)

  datatype Alternative = Alternative(range: Range, weight: Option<string>)

  /** The word that a text reads as. */
  function Number(text: string): (v: nat)
    ensures v < TWO64
  {
    ParseULL(text).value
  }

  /** A text that can stand for a number: not empty, and none of the characters that divide a list. */
  predicate IsNumber(text: string) {
    text != [] && forall c | c in text :: c !in ",:~" && c != NUL
  }

  ghost predicate RangeOk(r: Range) {
    match r
    case Single(v) => IsNumber(v)
    case Between(lo, hi) => IsNumber(lo) && IsNumber(hi) && RangeDefined(Number(lo), Number(hi))
  }

  ghost predicate AlternativeOk(a: Alternative) {
    RangeOk(a.range) && (a.weight.Some? ==> IsNumber(a.weight.value))
  }

  ghost predicate Member(r: Range, v: nat) {
    match r
    case Single(x) => v == Number(x)
    case Between(lo, hi) => v < TWO64 && InCircle(Number(lo), Number(hi), v)
  }

  function PrintRange(r: Range): string {
    match r
    case Single(v) => v
    case Between(lo, hi) => lo + ['~'] + hi
  }

  /** As an item of a list, with the range as its name. */
  function ItemOf(a: Alternative): Item {
    Item(PrintRange(a.range), a.weight)
  }

  function ItemsOf(alts: seq<Alternative>): (items: seq<Item>)
    ensures |items| == |alts| && forall i | 0 <= i < |items| :: items[i] == ItemOf(alts[i])
  {
    if alts == [] then [] else [ItemOf(alts[0])] + ItemsOf(alts[1..])
  }

  function WeightsIn(alts: seq<Alternative>): (ws: seq<nat>)
    ensures |ws| == |alts|
    ensures forall i | 0 <= i < |ws| :: ws[i] == if alts[i].weight.Some? then Number(alts[i].weight.value) else 1
  {
    WeightsOf(ItemsOf(alts))
  }

  /** The text of a list of alternatives: `1,2~5:3,-2~0xff:2`. */
  function Print(alts: seq<Alternative>): string {
    PrintItems(ItemsOf(alts))
  }

  lemma NumberIsToken(s: string)
    requires IsNumber(s)
    ensures IsToken(s, ",") && IsToken(s, ":") && IsToken(s, "~") && NUL !in s
  {
  }

  lemma RangeReads(r: Range)
    requires RangeOk(r)
    ensures Tokens(PrintRange(r), "~") == match r case Single(v) => [v] case Between(lo, hi) => [lo, hi]
  {
    hide IsNumber;
    match r
    case Single(v) =>
      NumberIsToken(v);
      TokensOne(v, "~");
    case Between(lo, hi) =>
      NumberIsToken(lo);
      NumberIsToken(hi);
      TokensCons(lo, '~', hi, "~");
      TokensOne(hi, "~");
  }

  lemma AlternativeIsItem(a: Alternative)
    requires AlternativeOk(a)
    ensures ItemOk(ItemOf(a))
  {
  }

  lemma AlternativesAreItems(alts: seq<Alternative>)
    requires forall a | a in alts :: AlternativeOk(a)
    ensures forall item | item in ItemsOf(alts) :: ItemOk(item)
  {
    hide AlternativeOk, ItemOk, ItemOf;
    forall i | 0 <= i < |alts|
      ensures ItemOk(ItemsOf(alts)[i])
    {
      assert alts[i] in alts;
      AlternativeIsItem(alts[i]);
    }
  }

  ghost predicate Printable(alts: seq<Alternative>) {
    && 1 <= |alts| <= 100
    && (forall a | a in alts :: AlternativeOk(a))
    && |Print(alts)| < 8192
    && Fits(WeightsIn(alts))
    && (Sum(WeightsIn(alts)) == 1 ==> WeightsIn(alts)[0] == 1)
  }

  ghost function RangeOutcome(w: World, dice: Dice, r: Range): (nat, Dice)
    requires RangeOk(r)
  {
    match r
    case Single(v) => (Number(v), dice)
    case Between(lo, hi) => (RangeValue(Number(lo), Number(hi), Draw(w, dice)), Advance(dice))
  }

  lemma EvaluatePrintedRange(w: World, dice: Dice, r: Range)
    requires RangeOk(r)
    ensures EvaluateRange(w, dice, PrintRange(r)) == Some(RangeOutcome(w, dice, r))
  {
    hide ParseULL, Draw, RangeValue, Tokens;
    RangeReads(r);
  }

  /** Choosing from a printed list gives the printed range of one alternative. */
  lemma ChoosePrint(alts: seq<Alternative>, draw: nat) returns (k: nat)
    requires (forall a | a in alts :: AlternativeOk(a)) && ChoiceDefined(Print(alts))
    ensures Total(WeightsIn(alts)) != 0 && (NeedsDraw(Print(alts)) <==> Total(WeightsIn(alts)) != 1)
    ensures k == Selected(WeightsIn(alts), draw) < |alts|
    ensures RangeOk(alts[k].range) && Choose(Print(alts), draw) == PrintRange(alts[k].range)
  {
    hide PrintRange, RangeOk, ItemOk, Sum, ChoiceDefined, NeedsDraw, Choose, Selected;
    AlternativesAreItems(alts);
    k := ChooseItem(ItemsOf(alts), draw);
    assert alts[k] in alts && AlternativeOk(alts[k]);
  }

  /** What evaluating a printed list comes to, draw by draw: a value of the selected alternative. */
  lemma EvaluatePrint(w: World, dice: Dice, alts: seq<Alternative>) returns (k: nat)
    requires (forall a | a in alts :: AlternativeOk(a)) && ChoiceDefined(Print(alts))
    ensures Total(WeightsIn(alts)) != 0 && (NeedsDraw(Print(alts)) <==> Total(WeightsIn(alts)) != 1)
    ensures k == Selected(WeightsIn(alts), Draw(w, dice)) < |alts|
    ensures RangeOk(alts[k].range)
    ensures Evaluate(w, dice, Print(alts)) == Some(RangeOutcome(w, AfterChoice(dice, Print(alts)), alts[k].range))
  {
    hide PrintRange, RangeOk, ChoiceDefined, NeedsDraw, Choose, Selected, EvaluateRange, RangeOutcome, Total;
    k := ChoosePrint(alts, Draw(w, dice));
    EvaluatePrintedRange(w, AfterChoice(dice, Print(alts)), alts[k].range);
  }

  lemma PrintableIsDefined(alts: seq<Alternative>)
    requires Printable(alts)
    ensures (forall a | a in alts :: AlternativeOk(a)) && ChoiceDefined(Print(alts))
    ensures Total(WeightsIn(alts)) == Sum(WeightsIn(alts))
  {
    hide AlternativeOk, ItemOk, Sum, ChoiceDefined;
    AlternativesAreItems(alts);
    ChoiceDefinedIff(ItemsOf(alts));
  }

  lemma OutcomeIsMember(w: World, dice: Dice, r: Range)
    requires RangeOk(r)
    ensures Member(r, RangeOutcome(w, dice, r).0)
  {
    if r.Between? { RangeValueIsInCircle(Number(r.lo), Number(r.hi), Draw(w, dice)); }
  }

  /** Soundness: a printed list evaluates to a member of one of its alternatives of positive weight. */
  lemma EvaluatesToAMember(w: World, dice: Dice, alts: seq<Alternative>)
    requires Printable(alts)
    ensures Evaluate(w, dice, Print(alts)).Some?
    ensures exists k | 0 <= k < |alts| ::
              WeightsIn(alts)[k] > 0 && Member(alts[k].range, Evaluate(w, dice, Print(alts)).value.0)
  {
    hide Evaluate, RangeOutcome, Draw, Selected, Member, Sum, Print, AfterChoice;
    hide Printable, ChoiceDefined, AlternativeOk;
    PrintableIsDefined(alts);
    var k := EvaluatePrint(w, dice, alts);
    WordWeights(alts);
    SelectedIsExact(WeightsIn(alts), Draw(w, dice), k);
    OutcomeIsMember(w, AfterChoice(dice, Print(alts)), alts[k].range);
    assert WeightsIn(alts)[k] > 0;
  }

  lemma PrintableRange(alts: seq<Alternative>, k: nat)
    requires Printable(alts) && k < |alts|
    ensures RangeOk(alts[k].range)
  {
    hide Print, Fits, Sum;
    assert alts[k] in alts && AlternativeOk(alts[k]);
  }

  /** The weights of a printable list are words, their total fits, and where it is 1 it is the first one's. */
  lemma WordWeights(alts: seq<Alternative>)
    requires Printable(alts)
    ensures var ws := WeightsIn(alts);
            && Fits(ws) && Total(ws) != 0 && Total(ws) == Sum(ws)
            && (forall i | 0 <= i < |ws| :: ws[i] < TWO64)
            && (Sum(ws) == 1 ==> ws[0] == 1)
  {
    hide Sum, Print;
  }

  /** Completeness: every member of every alternative of positive weight comes out for some random stream. */
  lemma EveryMemberIsPossible(w: World, dice: Dice, alts: seq<Alternative>, k: nat, v: nat) returns (w': World)
    requires Printable(alts)
    requires k < |alts| && WeightsIn(alts)[k] > 0 && Member(alts[k].range, v)
    ensures w' == w.(random := w'.random)
    ensures Evaluate(w', dice, Print(alts)).Some? && Evaluate(w', dice, Print(alts)).value.0 == v
  {
    hide Evaluate, Draw, Selected, Sum, Print, NeedsDraw, RangeValue, Fits, Total, Printable, DrawFor, InCircle;
    hide ChoiceDefined, AlternativeOk;
    var ws, r := WeightsIn(alts), alts[k].range;
    PrintableRange(alts, k);
    WordWeights(alts);
    var first := DrawSelecting(ws, k);
    var second := if r.Between? then DrawFor(Number(r.lo), v) else 0;
    if r.Between? { DrawForYields(Number(r.lo), Number(r.hi), v); }
    PrintableIsDefined(alts);
    w' := SomeSourceDraws(w, dice, if Sum(ws) == 1 then second else first, second);
    var chosen := EvaluatePrint(w', dice, alts);
    SelectedIsExact(ws, Draw(w', dice), k);
  }

  /** A draw that selects alternative `k`. */
  lemma DrawSelecting(ws: seq<nat>, k: nat) returns (draw: nat)
    requires Fits(ws) && k < |ws| && ws[k] > 0 && forall i | 0 <= i < |ws| :: ws[i] < TWO64
    requires Sum(ws) == 1 ==> ws[0] == 1
    ensures draw < TWO64
    ensures Sum(ws) != 1 ==> Selected(ws, draw) == k
    ensures Sum(ws) == 1 ==> k == 0
  {
    draw := Sum(ws[..k]);
    FitsMeansBelow(ws);
    SumStep(ws, k);
    PrefixMonotone(ws, k + 1, |ws|);
    assert ws[..|ws|] == ws;
    if Sum(ws) == 1 {
      OnlyFirstWeighs(ws, k);
    } else {
      SmallModulo(draw, Sum(ws));
      SelectedIsExact(ws, draw, k);
    }
  }

  lemma OnlyFirstWeighs(ws: seq<nat>, k: nat)
    requires Sum(ws) == 1 && k < |ws| && ws[k] > 0 && ws[0] == 1
    ensures k == 0
  {
    SumStep(ws, 0);
    SumStep(ws, k);
    PrefixMonotone(ws, k + 1, |ws|);
    assert ws[..|ws|] == ws;
    if k > 0 {
      PrefixMonotone(ws, 1, k);
    }
  }

  /** A text that divides nothing evaluates to the number it reads as, without a draw. */
  lemma EvaluateNumber(w: World, dice: Dice, text: string)
    requires IsNumber(text) && |text| < 8192
    ensures Evaluate(w, dice, text) == Some((ParseULL(text).value, dice))
  {
    hide ParseULL, IsNumber, Evaluate, Tokens;
    var alts := [Alternative(Single(text), None)];
    OneAlternative(alts[0]);
    PrintableIsDefined(alts);
    var k := EvaluatePrint(w, dice, alts);
  }

  lemma OneAlternative(a: Alternative)
    requires AlternativeOk(a) && a.weight == None && |PrintRange(a.range)| < 8192
    ensures Print([a]) == PrintRange(a.range) && Printable([a]) && Sum(WeightsIn([a])) == 1
  {
    hide AlternativeOk, PrintRange;
    assert [a][1..] == [];
    assert PrintItem(ItemOf(a)) == PrintRange(a.range) + [] == PrintRange(a.range);
    assert ItemsOf([a]) == [ItemOf(a)] + [];
    assert [ItemOf(a)][1..] == [];
    assert PrintAll([ItemOf(a)]) == [PrintItem(ItemOf(a))] + [];
    var ws := WeightsIn([a]);
    assert ws == [1] && ws[..0] == [] && ws[..1] == ws;
    SumStep(ws, 0);
  }

  /** A range evaluates to a value of its circular interval after one draw, in whatever form its ends are written. */
  lemma EvaluateBetween(w: World, dice: Dice, lo: string, hi: string)
    requires RangeOk(Between(lo, hi)) && |lo| + |hi| < 8191
    ensures var l, h := ParseULL(lo).value, ParseULL(hi).value;
            Evaluate(w, dice, lo + ['~'] + hi) == Some((RangeValue(l, h, Draw(w, dice)), Advance(dice)))
  {
    hide ParseULL, RangeOk, Evaluate, RangeValue, Draw, Tokens;
    var alts := [Alternative(Between(lo, hi), None)];
    OneAlternative(alts[0]);
    PrintableIsDefined(alts);
    var k := EvaluatePrint(w, dice, alts);
  }

  /** A third end of a range is not looked at. */
  lemma ThirdEndIsIgnored(w: World, dice: Dice, lo: string, hi: string, more: string)
    requires IsToken(lo, "~") && IsToken(hi, "~")
    ensures EvaluateRange(w, dice, lo + ['~'] + (hi + ['~'] + more)) == EvaluateRange(w, dice, lo + ['~'] + hi)
  {
    hide ParseULL, RangeValue, RangeDefined, Draw, Tokens, HasToken, FirstToken, AfterToken, IsToken;
    TokensCons(hi, '~', more, "~");
    TokensCons(lo, '~', hi + ['~'] + more, "~");
    TokensOne(hi, "~");
    TokensCons(lo, '~', hi, "~");
  }

  /** A word evaluates to itself in every base that can be read; a number that is too large, to the largest word. */
  lemma EvaluateNumeral(w: World, dice: Dice, b: Base, n: nat)
    requires |PrintIn(b, n)| < 8192
    ensures Evaluate(w, dice, PrintIn(b, n)) ==
            Some((if n < 0x1_0000_0000_0000_0000 then n else 0xFFFF_FFFF_FFFF_FFFF, dice))
  {
    hide ParseULL, Evaluate, PrintIn;
    NumeralIsNumber(b, n);
    ParseOfPrintIn(b, n);
    EvaluateNumber(w, dice, PrintIn(b, n));
  }

  lemma NumeralIsNumber(b: Base, n: nat)
    ensures IsNumber(PrintIn(b, n))
  {
    hide DigitsOf, Written;
    var digits := DigitsOf(n, Radix(b));
    var text := Written(digits, if b.CapitalHexes? then UPPER else LOWER);
    assert PrintIn(b, n) == Prefix(b) + text;
    forall i | 0 <= i < |text|
      ensures text[i] !in ",:~" && text[i] != NUL
    {
      LetterIsClean(text[i], digits[i], Radix(b));
    }
  }

  lemma LetterIsClean(c: char, digit: nat, radix: nat)
    requires 8 <= radix && IsDigit(c, digit, radix)
    ensures c !in ",:~" && c != NUL
  {
    DigitReads(c, digit, radix);
  }

  /** A printed 64-bit word evaluates to itself without a draw. */
  lemma EvaluateLLD(w: World, dice: Dice, v: nat)
    requires v < TWO64
    ensures Evaluate(w, dice, PrintLLD(v)) == Some((v, dice))
  {
    hide ParseULL, Evaluate, PrintLLD;
    PrintIsShort(v);
    ParseOfPrint(v);
    assert forall c | c in PrintLLD(v) :: c !in ",:~" && c != NUL;
    EvaluateNumber(w, dice, PrintLLD(v));
  }
}
