/** Evaluation of a knob expression: choose an alternative, then a value of its range. */
module Eval {
  import opened Text
  import opened Numbers
  import opened World
  import opened Random
  import opened Choice
  import opened Ranges

  /** Reads one alternative, a value or a range. `None` where the C program has no defined behaviour. */
  function EvaluateRange(w: World, dice: Dice, text: string): (r: Option<(nat, Dice)>)
    ensures r.Some? ==> r.value.0 < TWO64
    ensures r.Some? ==> r.value.1.seed == dice.seed
  {
    var ends := Tokens(text, "~");
    if ends == [] then None
    else
      var lo := ParseULL(ends[0]).value;
      if |ends| == 1 then Some((lo, dice))
      else
        var hi := ParseULL(ends[1]).value;
        if RangeDefined(lo, hi) then Some((RangeValue(lo, hi, Draw(w, dice)), Advance(dice))) else None
  }

  function AfterChoice(dice: Dice, l: string): Dice {
    if NeedsDraw(l) then Advance(dice) else dice
  }

  /** sknobs_eval: the value and the generator afterwards. `None` where the C program has no defined
  behaviour: no alternative, a zero total, an alternative made of tildes, an unguarded empty range. */
  function Evaluate(w: World, dice: Dice, l: string): (r: Option<(nat, Dice)>)
    ensures r.Some? ==> r.value.0 < TWO64
    ensures r.Some? ==> r.value.1.seed == dice.seed
  {
    if ChoiceDefined(l) then EvaluateRange(w, AfterChoice(dice, l), Choose(l, Draw(w, dice))) else None
  }
}
