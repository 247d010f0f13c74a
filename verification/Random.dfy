/** The private random source: 64-bit draws put together from four 16-bit pieces. */
module Random {
  import opened Text
  import opened Numbers
  import opened World

  const TWO16: nat := 0x1_0000

  /** The private generator: its seed, if it was ever seeded, and how many `random()` calls it has answered. */
  datatype Dice = Dice(seed: Option<nat>, calls: nat)

  /** The low 16 bits of the i-th `random()`. */
  function Piece(w: World, seed: Option<nat>, i: nat): (p: nat)
    ensures p < TWO16
  {
    w.random(seed, i) % TWO16
  }

  /** Four pieces, the first lowest. The C code ors them together; their bits do not overlap. */
  function Compose(a: nat, b: nat, c: nat, d: nat): (v: nat)
    requires a < TWO16 && b < TWO16 && c < TWO16 && d < TWO16
    ensures v < TWO64
  {
    a + 0x1_0000 * b + 0x1_0000_0000 * c + 0x1_0000_0000_0000 * d
  }

  /** The i-th 16-bit digit of `v`. */
  function PieceOf(v: nat, i: nat): (p: nat)
    ensures p < TWO16
  {
    if i == 0 then v % 0x1_0000 else PieceOf(v / 0x1_0000, i - 1)
  }

  /** The next 64-bit draw. */
  function Draw(w: World, dice: Dice): (v: nat)
    ensures v < TWO64
  {
    Compose(Piece(w, dice.seed, dice.calls), Piece(w, dice.seed, dice.calls + 1),
            Piece(w, dice.seed, dice.calls + 2), Piece(w, dice.seed, dice.calls + 3))
  }

  function Advance(dice: Dice): Dice {
    dice.(calls := dice.calls + 4)
  }

  /** Quadruples of pieces and 64-bit draws correspond one to one. */
  lemma DrawsAreQuadruples(a: nat, b: nat, c: nat, d: nat, v: nat)
    requires a < TWO16 && b < TWO16 && c < TWO16 && d < TWO16 && v < TWO64
    ensures Compose(a, b, c, d) == v <==>
            a == PieceOf(v, 0) && b == PieceOf(v, 1) && c == PieceOf(v, 2) && d == PieceOf(v, 3)
  {
    var q := v / 0x1_0000;
    var r := q / 0x1_0000;
    assert PieceOf(v, 1) == q % 0x1_0000;
    assert PieceOf(v, 2) == PieceOf(q, 1) == r % 0x1_0000;
    assert PieceOf(v, 3) == PieceOf(q, 2) == PieceOf(r, 1) == r / 0x1_0000 by {
      assert r < 0x1_0000_0000;
    }
    assert Compose(a, b, c, d) == a + 0x1_0000 * (b + 0x1_0000 * (c + 0x1_0000 * d));
    DigitAndRest(a, b + 0x1_0000 * (c + 0x1_0000 * d), v);
    DigitAndRest(b, c + 0x1_0000 * d, q);
    DigitAndRest(c, d, r);
  }

  lemma DigitAndRest(digit: nat, rest: nat, v: nat)
    requires digit < TWO16
    ensures digit + 0x1_0000 * rest == v <==> digit == v % 0x1_0000 && rest == v / 0x1_0000
  {
  }

  /** The draw in binary: bits 0 to 15 are the low bits of the next value of random(), bits 16 to 31 those of the
  value after it, and so on. The higher bits of these values do not count. */
  lemma DrawInBits(w: World, dice: Dice)
    ensures var (v, r) := (Draw(w, dice), (i: nat) => w.random(dice.seed, dice.calls + i));
            && v < 0x1_0000_0000_0000_0000
            && v % 0x1_0000 == r(0) % 0x1_0000
            && v / 0x1_0000 % 0x1_0000 == r(1) % 0x1_0000
            && v / 0x1_0000_0000 % 0x1_0000 == r(2) % 0x1_0000
            && v / 0x1_0000_0000_0000 % 0x1_0000 == r(3) % 0x1_0000
  {
    hide Compose;
    var v, i, s := Draw(w, dice), dice.calls, dice.seed;
    DrawsAreQuadruples(Piece(w, s, i), Piece(w, s, i + 1), Piece(w, s, i + 2), Piece(w, s, i + 3), v);
    PiecesAreDigits(v);
  }

  lemma PiecesAreDigits(v: nat)
    ensures PieceOf(v, 0) == v % 0x1_0000 && PieceOf(v, 1) == v / 0x1_0000 % 0x1_0000
    ensures PieceOf(v, 2) == v / 0x1_0000_0000 % 0x1_0000 && PieceOf(v, 3) == v / 0x1_0000_0000_0000 % 0x1_0000
  {
    var q := v / 0x1_0000;
    var r := q / 0x1_0000;
    assert PieceOf(v, 1) == PieceOf(q, 0);
    assert PieceOf(v, 2) == PieceOf(q, 1) == PieceOf(r, 0);
    assert PieceOf(v, 3) == PieceOf(q, 2) == PieceOf(r, 1) == PieceOf(r / 0x1_0000, 0);
    ShiftTwice(v);
    ShiftThrice(v);
  }

  lemma ShiftTwice(v: nat)
    ensures v / 0x1_0000 / 0x1_0000 == v / 0x1_0000_0000
  {
  }

  lemma ShiftThrice(v: nat)
    ensures v / 0x1_0000 / 0x1_0000 / 0x1_0000 == v / 0x1_0000_0000_0000
  {
    ShiftTwice(v);
    var u := v / 0x1_0000_0000;
    assert u / 0x1_0000 == v / 0x1_0000_0000_0000;
  }

  /** A draw is what the low bits of four values of random() spell out, whatever their higher bits. */
  lemma DrawOfPieces(w: World, dice: Dice, v: nat)
    requires v < TWO64
    requires forall i | dice.calls <= i < dice.calls + 4 ::
               w.random(dice.seed, i) % 0x1_0000 == PieceOf(v, i - dice.calls)
    ensures Draw(w, dice) == v
  {
    hide PieceOf, Compose;
    DrawsAreQuadruples(PieceOf(v, 0), PieceOf(v, 1), PieceOf(v, 2), PieceOf(v, 3), v);
  }

  /** A source whose calls from the n-th on spell out two given draws. */
  function Scripted(first: nat, second: nat, n: nat, i: nat): nat {
    if i < n then 0 else if i < n + 4 then PieceOf(first, i - n) else PieceOf(second, i - n - 4)
  }

  /** Every pair of consecutive draws is produced by some source. */
  lemma SomeSourceDraws(w: World, dice: Dice, first: nat, second: nat) returns (w': World)
    requires first < TWO64 && second < TWO64
    ensures w' == w.(random := w'.random)
    ensures Draw(w', dice) == first && Draw(w', Advance(dice)) == second
  {
    hide PieceOf, Draw, Compose;
    var n := dice.calls;
    w' := w.(random := (s: Option<nat>, i: nat) => Scripted(first, second, n, i));
    assert forall i | n <= i < n + 4 :: w'.random(dice.seed, i) == Scripted(first, second, n, i);
    DrawOfPieces(w', dice, first);
    assert forall i | n + 4 <= i < n + 8 :: w'.random(dice.seed, i) == Scripted(first, second, n, i);
    DrawOfPieces(w', Advance(dice), second);
  }

  class RandomSource {
    const world: World
    var dice: Dice

    constructor (w: World)
      ensures world == w && dice == Dice(None, 0)
    {
      world := w;
      dice := Dice(None, 0);
    }

    /** random() under the private state */
    method Next() returns (value: nat)
      modifies this
      ensures value == world.random(old(dice).seed, old(dice).calls)
      ensures dice == old(dice).(calls := old(dice).calls + 1)
    {
      value := world.random(dice.seed, dice.calls);
      dice := dice.(calls := dice.calls + 1);
    }

    method GetRandom() returns (value: nat)
      modifies this
      ensures value == Draw(world, old(dice))
      ensures dice == Advance(old(dice))
    {
      var r := Next();
      value := r % TWO16;
      r := Next();
      value := value + 0x1_0000 * (r % TWO16);
      r := Next();
      value := value + 0x1_0000_0000 * (r % TWO16);
      r := Next();
      value := value + 0x1_0000_0000_0000 * (r % TWO16);
    }
  }
}
