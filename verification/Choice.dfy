/** Weighted choice: `a:2,b,c:5` and the scan that turns a draw into one of the alternatives. */
module Choice {
  import opened Text
  import opened Numbers

  const MAX_CHOICES: nat := 100
  const MAX_LENGTH: nat := 8192

  /** What the choice pointer reads as once its colon has been overwritten. */
  function Head(part: string): string {
    part[..TokenEnd(part, ":")]
  }

  function Weight(part: string): (w: nat)
    ensures w < TWO64
  {
    var tokens := Tokens(part, ":");
    if |tokens| >= 2 then ParseULL(tokens[1]).value else 1
  }

  function Weights(parts: seq<string>): (ws: seq<nat>)
    ensures |ws| == |parts|
    ensures forall i | 0 <= i < |ws| :: ws[i] == Weight(parts[i])
  {
    if parts == [] then [] else [Weight(parts[0])] + Weights(parts[1..])
  }

  function Sum(ws: seq<nat>): nat {
    if ws == [] then 0 else Sum(ws[..|ws| - 1]) + ws[|ws| - 1]
  }

  /** The 64-bit running total. */
  function Total(ws: seq<nat>): (t: nat)
    ensures t < TWO64
  {
    Sum(ws) % TWO64
  }

  /** The total is positive and has not wrapped around. */
  predicate Fits(ws: seq<nat>) {
    0 < Sum(ws) == Total(ws)
  }

  lemma FitsMeansBelow(ws: seq<nat>)
    ensures Fits(ws) <==> 0 < Sum(ws) < TWO64
  {
  }

  /** The first alternative whose running total exceeds `w`, from alternative `j` on. */
  function Pick(ws: seq<nat>, w: nat, j: nat): (k: nat)
    requires j <= |ws|
    ensures j <= k <= |ws|
    decreases |ws| - j
  {
    if j == |ws| || Total(ws[..j + 1]) > w then j else Pick(ws, w, j + 1)
  }

  /** Where the expression has a meaning at all: it fits the buffers, names an alternative, and the total is not 0. */
  predicate ChoiceDefined(l: string) {
    && |l| < MAX_LENGTH && NUL !in l
    && 1 <= |Tokens(l, ",")| <= MAX_CHOICES
    && Total(Weights(Tokens(l, ","))) != 0
  }

  /** With a total of 1 the first alternative is taken without a draw. */
  predicate NeedsDraw(l: string) {
    Total(Weights(Tokens(l, ","))) != 1
  }

  /** Which alternative a draw selects. */
  function Selected(ws: seq<nat>, draw: nat): (k: nat)
    requires Total(ws) != 0
    ensures k < |ws|
  {
    if Total(ws) == 1 then
      TotalMeansSome(ws); 0
    else
      PickStaysInside(ws, draw % Total(ws)); Pick(ws, draw % Total(ws), 0)
  }

  lemma TotalMeansSome(ws: seq<nat>)
    requires Total(ws) != 0
    ensures ws != []
  {
  }

  function ChosenIndex(l: string, draw: nat): (k: nat)
    requires ChoiceDefined(l)
    ensures k < |Tokens(l, ",")|
  {
    Selected(Weights(Tokens(l, ",")), draw)
  }

  function Choose(l: string, draw: nat): string
    requires ChoiceDefined(l)
  {
    Head(Tokens(l, ",")[ChosenIndex(l, draw)])
  }

  // ---- The scan ----

  lemma {:induction false} PickIsFirst(ws: seq<nat>, w: nat, j: nat)
    requires j <= |ws|
    ensures forall i | j < i <= Pick(ws, w, j) :: Total(ws[..i]) <= w
    ensures Pick(ws, w, j) < |ws| ==> Total(ws[..Pick(ws, w, j) + 1]) > w
    decreases |ws| - j
  {
    if j < |ws| && Total(ws[..j + 1]) <= w {
      PickIsFirst(ws, w, j + 1);
    }
  }

  /** The scan never runs past the alternatives, even when the total wraps around. */
  lemma PickStaysInside(ws: seq<nat>, w: nat)
    requires w < Total(ws)
    ensures Pick(ws, w, 0) < |ws|
  {
    PickIsFirst(ws, w, 0);
    assert ws[..|ws|] == ws;
  }

  lemma {:induction false} PrefixMonotone(ws: seq<nat>, i: nat, j: nat)
    requires i <= j <= |ws|
    ensures Sum(ws[..i]) <= Sum(ws[..j])
    decreases j - i
  {
    if i < j {
      assert ws[..j][..j - 1] == ws[..j - 1];
      PrefixMonotone(ws, i, j - 1);
    }
  }

  lemma SumStep(ws: seq<nat>, k: nat)
    requires k < |ws|
    ensures Sum(ws[..k + 1]) == Sum(ws[..k]) + ws[k]
  {
    assert ws[..k + 1][..k] == ws[..k];
  }

  lemma TotalStep(ws: seq<nat>, k: nat)
    requires k < |ws|
    ensures Total(ws[..k + 1]) == (Total(ws[..k]) + ws[k]) % TWO64
  {
    SumStep(ws, k);
  }

  /** When the total does not wrap, the scan stops at the one index whose slice of [0, total) holds `w`;
  that alternative has positive weight. */
  lemma PickIsExact(ws: seq<nat>, w: nat, k: nat)
    requires Fits(ws) && w < Sum(ws)
    ensures Pick(ws, w, 0) == k <==> k < |ws| && Sum(ws[..k]) <= w < Sum(ws[..k + 1])
    ensures ws[PickInside(ws, w)] > 0
  {
    var p := PickInside(ws, w);
    assert ws[..|ws|] == ws;
    FitsMeansBelow(ws);
    forall j: nat | j <= |ws|
      ensures Total(ws[..j]) == Sum(ws[..j])
    {
      PrefixMonotone(ws, j, |ws|);
    }
    PickIsFirst(ws, w, 0);
    SumStep(ws, p);
    if k < |ws| && k < p {
      PrefixMonotone(ws, k + 1, p);
    } else if k < |ws| && p < k {
      PrefixMonotone(ws, p + 1, k);
    }
  }

  function PickInside(ws: seq<nat>, w: nat): (k: nat)
    requires w < Total(ws)
    ensures k == Pick(ws, w, 0) < |ws|
  {
    PickStaysInside(ws, w); Pick(ws, w, 0)
  }

  lemma SmallModulo(x: nat, m: nat)
    requires x < m
    ensures x % m == x
  {
  }

  /** Which alternative a draw selects. With a total of 1 it is the first, whatever it weighs; otherwise the scan
  stops at the first one whose running total exceeds the residue, and if the total has not wrapped, that is the one
  whose slice of [0, total) holds the residue. An alternative of weight zero is selected in one case only, over all
  lists of 64-bit weights, wrapping or not: the total is 1 and the first alternative weighs zero. */
  lemma SelectedIsExact(ws: seq<nat>, draw: nat, k: nat)
    requires Total(ws) != 0 && forall i | 0 <= i < |ws| :: ws[i] < TWO64
    ensures Total(ws) == 1 ==> Selected(ws, draw) == 0
    ensures Fits(ws) && Sum(ws) != 1 ==>
              (Selected(ws, draw) == k <==> k < |ws| && Sum(ws[..k]) <= draw % Sum(ws) < Sum(ws[..k + 1]))
    ensures ws[Selected(ws, draw)] == 0 <==> Total(ws) == 1 && ws[0] == 0
  {
    hide Fits, Sum;
    FitsMeansTotal(ws);
    if Total(ws) != 1 {
      var w := draw % Total(ws);
      PickedWeighs(ws, w);
      if Fits(ws) {
        PickIsExact(ws, w, k);
      }
    }
  }

  lemma FitsMeansTotal(ws: seq<nat>)
    ensures Fits(ws) ==> Sum(ws) == Total(ws)
  {
  }

  /** The scan never stops at an alternative of weight zero, even when the total wraps around. */
  lemma PickedWeighs(ws: seq<nat>, w: nat)
    requires w < Total(ws) && forall i | 0 <= i < |ws| :: ws[i] < TWO64
    ensures Pick(ws, w, 0) < |ws| && ws[Pick(ws, w, 0)] > 0
  {
    hide Total;
    PickStaysInside(ws, w);
    PickIsFirst(ws, w, 0);
    var p := Pick(ws, w, 0);
    TotalStep(ws, p);
    EmptyTotal(ws);
    SmallModulo(Total(ws[..p]), TWO64);
  }

  lemma EmptyTotal(ws: seq<nat>)
    ensures Total(ws[..0]) == 0
  {
  }

  /** A total that wraps around to 1 has the same effect as a total of 1. */
  lemma WrappedZeroWeightTaken(draw: nat)
    ensures var ws := [0, TWO64 - 1, 2];
            Total(ws) == 1 && !Fits(ws) && ws[Selected(ws, draw)] == 0
  {
    hide Pick;
    var ws := [0, TWO64 - 1, 2];
    assert ws[..0] == [] && ws[..3] == ws;
    SumStep(ws, 0);
    SumStep(ws, 1);
    SumStep(ws, 2);
  }

  /** So `a:0,b:1` always gives `a`, although its weight is zero. */
  lemma ZeroWeightTaken(draw: nat)
    ensures ChoiceDefined("a:0,b:1") && Choose("a:0,b:1", draw) == "a"
  {
    hide Tokens, Weight, Head, Sum;
    var parts := ["a:0", "b:1"];
    ExampleParts();
    ExampleWeights();
    var ws := Weights(parts);
    assert ws == [0, 1];
  }

  lemma ExampleParts()
    ensures Tokens("a:0,b:1", ",") == ["a:0", "b:1"]
  {
    hide Tokens, HasToken, FirstToken, AfterToken;
    TokensCons("a:0", ',', "b:1", ",");
    TokensOne("b:1", ",");
    assert "a:0" + [','] + "b:1" == "a:0,b:1";
  }

  lemma ExampleWeights()
    ensures Head("a:0") == "a" && Weight("a:0") == 0 && Weight("b:1") == 1 && Sum([0, 1]) == 1
  {
    hide Tokens, Weight, Head;
    WeighedPart("a", "0");
    WeighedPart("b", "1");
    assert "a" + [':'] + "0" == "a:0" && "b" + [':'] + "1" == "b:1";
    assert Decimal(0) == "0" && Decimal(1) == "1";
    ParseOfDecimal(0);
    ParseOfDecimal(1);
    assert [0, 1][..1] == [0] && [0][..0] == [];
  }

  lemma WeighedPart(name: string, digits: string)
    requires IsToken(name, ":") && IsToken(digits, ":")
    ensures Head(name + [':'] + digits) == name
    ensures Weight(name + [':'] + digits) == ParseULL(digits).value
  {
    hide Tokens, TokenEnd, FirstToken, AfterToken, HasToken;
    var s := name + [':'] + digits;
    TokensCons(name, ':', digits, ":");
    TokensOne(digits, ":");
    TokenInFront(name, ':', digits, ":");
    assert s[..|name|] == name;
  }
}
