/** How numbers are read: what `strtoull` with base 0 makes of any text, said without reference to how it scans. */
module Numerals {
  import opened Numbers

  const LOWER: string := "0123456789abcdef"
  const UPPER: string := "0123456789ABCDEF"

  /** A digit below the base, in lower or upper case. */
  predicate IsDigit(c: char, digit: nat, radix: nat) {
    digit < radix <= 16 && (c == LOWER[digit] || c == UPPER[digit])
  }

  /** The text spells these digits. */
  ghost predicate Spells(text: string, digits: seq<nat>, radix: nat) {
    |text| == |digits| && forall i | 0 <= i < |text| :: IsDigit(text[i], digits[i], radix)
  }

  /** The number that the digits stand for, the last one counting once. */
  function Value(digits: seq<nat>, radix: nat): nat {
    if digits == [] then 0 else Value(digits[..|digits| - 1], radix) * radix + digits[|digits| - 1]
  }

  /** No digit of the base goes on here. */
  ghost predicate Ends(tail: string, radix: nat) {
    tail == [] || forall digit: nat :: !IsDigit(tail[0], digit, radix)
  }

  predicate Blank(space: string) {
    forall i | 0 <= i < |space| :: space[i] in " \t\n\U{0B}\U{0C}\r"
  }

  datatype Base = Decimals | Octals | Hexes | CapitalHexes

  function Radix(b: Base): nat {
    match b case Decimals => 10 case Octals => 8 case _ => 16
  }

  function Prefix(b: Base): string {
    match b case Decimals => "" case Octals => "0" case Hexes => "0x" case CapitalHexes => "0X"
  }

  /** The first digit of a decimal is not 0, and an octal without further digits is not followed by an 'x'. */
  ghost predicate Fitting(b: Base, digits: seq<nat>, tail: string) {
    && (b.Decimals? ==> digits != [] && digits[0] != 0)
    && (b.Octals? && digits == [] && tail != [] ==> tail[0] != 'x' && tail[0] != 'X')
  }

  function Saturated(n: nat, negative: bool): Parsed {
    if n >= 0x1_0000_0000_0000_0000 then Parsed(0xFFFF_FFFF_FFFF_FFFF, true)
    else if negative && n > 0 then Parsed(0x1_0000_0000_0000_0000 - n, false)
    else Parsed(n, false)
  }

  /** Any blank space, then at most one sign, then a number in one of the three bases with its prefix, then anything:
  the number is what the digits stand for, negated modulo 2^64 after a minus; from 2^64 on it saturates. */
  lemma NumeralReads(space: string, sign: string, b: Base, digits: seq<nat>, text: string, tail: string)
    requires Blank(space) && sign in {"", "+", "-"}
    requires Spells(text, digits, Radix(b)) && Ends(tail, Radix(b)) && Fitting(b, digits, tail)
    ensures ParseULL(space + sign + (Prefix(b) + text + tail)) == Saturated(Value(digits, Radix(b)), sign == "-")
  {
    hide SkipSpace, Unsigned, Value, Spells, Ends, Fitting;
    var body := Prefix(b) + text + tail;
    UnsignedReads(b, digits, text, tail);
    BodyStarts(b, digits, text, tail);
    SignedReads(space, sign, body);
  }

  /** Without a digit in front there is no number, and the value is 0. */
  lemma NoNumeralReads(space: string, sign: string, tail: string)
    requires Blank(space) && sign in {"", "+", "-"}
    requires tail == [] || tail[0] !in "0123456789"
    requires sign == "" && tail != [] ==> tail[0] !in " \t\n\U{0B}\U{0C}\r+-"
    ensures ParseULL(space + sign + tail) == Parsed(0, false)
  {
    hide SkipSpace;
    if tail != [] && '0' <= tail[0] <= '9' { TenDigits(tail[0]); }
    SignedReads(space, sign, tail);
  }

  lemma TenDigits(c: char)
    requires '0' <= c <= '9'
    ensures c in "0123456789"
  {
    assert c == "0123456789"[c as int - '0' as int];
  }

  lemma SixSpaces(c: char)
    requires IsSpace(c)
    ensures c in " \t\n\U{0B}\U{0C}\r"
  {
    var spaces := " \t\n\U{0B}\U{0C}\r";
    assert c == spaces[0] || c == spaces[1] || c == spaces[2] || c == spaces[3] || c == spaces[4] || c == spaces[5];
  }

  /** The sign and what stands in front of it. */
  lemma SignedReads(space: string, sign: string, body: string)
    requires Blank(space) && sign in {"", "+", "-"}
    requires sign == "" && body != [] ==> body[0] !in " \t\n\U{0B}\U{0C}\r+-"
    ensures ParseULL(space + sign + body) == Saturated(Unsigned(body), sign == "-")
  {
    hide SkipSpace, Unsigned;
    SkipBlank(space, sign + body);
    assert space + sign + body == space + (sign + body);
    NoSpaceLeft(sign + body);
    if sign == "" {
      assert sign + body == body;
    } else {
      assert (sign + body)[1..] == body;
    }
  }

  lemma {:induction false} SkipBlank(space: string, s: string)
    requires Blank(space)
    ensures SkipSpace(space + s) == SkipSpace(s)
  {
    if space == [] {
      assert space + s == s;
    } else {
      assert (space + s)[1..] == space[1..] + s;
      SkipBlank(space[1..], s);
    }
  }

  lemma NoSpaceLeft(s: string)
    requires s != [] ==> s[0] !in " \t\n\U{0B}\U{0C}\r"
    ensures SkipSpace(s) == s
  {
    if s != [] && IsSpace(s[0]) {
      SixSpaces(s[0]);
    }
  }

  /** A character is a digit of the base exactly if the scanner takes it for one, with that value. */
  lemma DigitReads(c: char, digit: nat, radix: nat)
    requires 8 <= radix <= 16
    ensures IsDigit(c, digit, radix) <==> Digit(c) == digit < radix
  {
    if 0 <= digit < 10 {
      assert LOWER[digit] == '0' + digit as char == UPPER[digit];
    } else if digit < 16 {
      assert LOWER[digit] == 'a' + (digit - 10) as char;
      assert UPPER[digit] == 'A' + (digit - 10) as char;
    }
  }

  lemma {:induction false} MagnitudeReads(digits: seq<nat>, text: string, tail: string, radix: nat, acc: nat)
    requires 8 <= radix <= 16 && Spells(text, digits, radix) && Ends(tail, radix)
    ensures Magnitude(text + tail, radix, acc) == Magnitude(text, radix, acc)
  {
    hide IsDigit;
    if text == [] {
      assert text + tail == tail;
      if tail != [] { DigitReads(tail[0], Digit(tail[0]), radix); }
    } else {
      DigitReads(text[0], digits[0], radix);
      assert (text + tail)[1..] == text[1..] + tail;
      MagnitudeReads(digits[1..], text[1..], tail, radix, acc * radix + digits[0]);
    }
  }

  /** The scan from the left comes to the value from the right. */
  lemma {:induction false} MagnitudeIsValue(digits: seq<nat>, text: string, radix: nat)
    requires 8 <= radix <= 16 && Spells(text, digits, radix)
    ensures Magnitude(text, radix, 0) == Value(digits, radix)
    decreases |text|
  {
    hide IsDigit;
    if text != [] {
      var n := |text| - 1;
      assert Spells(text[..n], digits[..n], radix);
      MagnitudeIsValue(digits[..n], text[..n], radix);
      assert text == text[..n] + [text[n]];
      DigitReads(text[n], digits[n], radix);
      MagnitudeLast(digits[..n], text[..n], text[n], radix, 0);
    }
  }

  lemma {:induction false} MagnitudeLast(digits: seq<nat>, text: string, c: char, radix: nat, acc: nat)
    requires 8 <= radix <= 16 && Spells(text, digits, radix) && Digit(c) < radix
    ensures Magnitude(text + [c], radix, acc) == Magnitude(text, radix, acc) * radix + Digit(c)
  {
    hide IsDigit;
    if text == [] {
      assert text + [c] == [c] && [c][1..] == [];
    } else {
      DigitReads(text[0], digits[0], radix);
      assert (text + [c])[1..] == text[1..] + [c];
      MagnitudeLast(digits[1..], text[1..], c, radix, acc * radix + digits[0]);
    }
  }

  lemma UnsignedReads(b: Base, digits: seq<nat>, text: string, tail: string)
    requires Spells(text, digits, Radix(b)) && Ends(tail, Radix(b)) && Fitting(b, digits, tail)
    ensures Unsigned(Prefix(b) + text + tail) == Value(digits, Radix(b))
  {
    hide IsDigit, Value, Magnitude;
    MagnitudeReads(digits, text, tail, Radix(b), 0);
    MagnitudeIsValue(digits, text, Radix(b));
    var s := Prefix(b) + text + tail;
    match b
    case Decimals =>
      DigitReads(text[0], digits[0], 10);
      assert s == text + tail;
    case Octals =>
      if text != [] { DigitReads(text[0], digits[0], 8); }
      LeadingZero(text + tail);
      assert s == "0" + (text + tail);
    case _ =>
      assert s[2..] == text + tail;
  }

  /** A leading 0 does not count. */
  lemma LeadingZero(s: string)
    ensures Magnitude("0" + s, 8, 0) == Magnitude(s, 8, 0)
  {
    assert ("0" + s)[1..] == s;
  }

  /** A number does not begin with a space or a sign. */
  lemma BodyStarts(b: Base, digits: seq<nat>, text: string, tail: string)
    requires Spells(text, digits, Radix(b)) && Fitting(b, digits, tail)
    ensures var body := Prefix(b) + text + tail; body != [] && body[0] !in " \t\n\U{0B}\U{0C}\r+-"
  {
    hide IsDigit;
    if b.Decimals? {
      DigitReads(text[0], digits[0], 10);
      assert (Prefix(b) + text + tail)[0] == text[0];
    }
  }

  // ---- Printing in these bases ----

  /** The digits of a number. */
  function DigitsOf(n: nat, radix: nat): (digits: seq<nat>)
    requires 2 <= radix
    ensures digits != [] && forall i | 0 <= i < |digits| :: digits[i] < radix
  {
    if n < radix then [n] else QuotientFalls(n, radix); DigitsOf(n / radix, radix) + [n % radix]
  }

  lemma QuotientFalls(n: nat, radix: nat)
    requires 2 <= radix <= n
    ensures n / radix < n && n % radix < radix && n / radix * radix + n % radix == n
    ensures n / radix > 0
  {
  }

  lemma {:induction false} ValueOfDigits(n: nat, radix: nat)
    requires 2 <= radix
    ensures Value(DigitsOf(n, radix), radix) == n
    ensures DigitsOf(n, radix) != [] && (n > 0 ==> DigitsOf(n, radix)[0] != 0)
  {
    if n >= radix {
      QuotientFalls(n, radix);
      ValueOfDigits(n / radix, radix);
      var front := DigitsOf(n / radix, radix);
      assert DigitsOf(n, radix)[..|front|] == front;
    } else {
      assert [n][..0] == [];
    }
  }

  /** Digits written in one case. */
  function Written(digits: seq<nat>, alphabet: string): (text: string)
    requires forall i | 0 <= i < |digits| :: digits[i] < |alphabet|
    ensures |text| == |digits| && forall i | 0 <= i < |text| :: text[i] == alphabet[digits[i]]
  {
    if digits == [] then [] else [alphabet[digits[0]]] + Written(digits[1..], alphabet)
  }

  /** A number with its prefix: `255` as "255", "0377", "0xff" or "0XFF". */
  function PrintIn(b: Base, n: nat): string {
    var digits := DigitsOf(n, Radix(b));
    Prefix(b) + Written(digits, if b.CapitalHexes? then UPPER else LOWER)
  }

  /** `%lld`: a minus and the magnitude for words from 2^63 on, decimal digits without leading zeros otherwise. */
  lemma PrintIsSigned(v: nat)
    requires v < 0x1_0000_0000_0000_0000
    ensures PrintLLD(v) ==
            if v < 0x8000_0000_0000_0000 then PrintIn(Decimals, v)
            else "-" + PrintIn(Decimals, 0x1_0000_0000_0000_0000 - v)
  {
    hide PrintIn;
    DecimalIsPrinted(if v < TWO63 then v else TWO64 - v);
  }

  lemma {:induction false} DecimalIsPrinted(n: nat)
    ensures Decimal(n) == PrintIn(Decimals, n)
  {
    DecimalIsWritten(n);
    assert Prefix(Decimals) + Written(DigitsOf(n, 10), LOWER) == Written(DigitsOf(n, 10), LOWER);
  }

  lemma {:induction false} DecimalIsWritten(n: nat)
    ensures Decimal(n) == Written(DigitsOf(n, 10), LOWER)
  {
    if n < 10 {
      assert [n][1..] == [];
      assert LOWER[n] == DigitChar(n);
    } else {
      DecimalIsWritten(n / 10);
      WrittenLast(DigitsOf(n / 10, 10), n % 10, LOWER);
      assert LOWER[n % 10] == DigitChar(n % 10);
    }
  }

  lemma {:induction false} WrittenLast(digits: seq<nat>, digit: nat, alphabet: string)
    requires (forall i | 0 <= i < |digits| :: digits[i] < |alphabet|) && digit < |alphabet|
    ensures Written(digits + [digit], alphabet) == Written(digits, alphabet) + [alphabet[digit]]
  {
    if digits == [] {
      assert digits + [digit] == [digit] && [digit][1..] == [];
    } else {
      assert (digits + [digit])[1..] == digits[1..] + [digit];
      WrittenLast(digits[1..], digit, alphabet);
    }
  }

  /** Reading inverts printing in every base, on all 64-bit words, and saturates from 2^64 on. */
  lemma ParseOfPrintIn(b: Base, n: nat)
    ensures ParseULL(PrintIn(b, n)) ==
            if n < 0x1_0000_0000_0000_0000 then Parsed(n, false) else Parsed(0xFFFF_FFFF_FFFF_FFFF, true)
  {
    var digits := DigitsOf(n, Radix(b));
    var text := Written(digits, if b.CapitalHexes? then UPPER else LOWER);
    ValueOfDigits(n, Radix(b));
    if b.Decimals? && n == 0 {
      assert text == "0" && PrintIn(b, n) == "0" && [0][..0] == [];
      NumeralReads("", "", Octals, [], "", "");
      assert "" + "" + ("0" + "" + "") == "0";
    } else {
      NumeralReads("", "", b, digits, text, "");
      assert "" + "" + (Prefix(b) + text + "") == PrintIn(b, n);
    }
  }

  /** A 64-bit word takes at most 66 characters in any base. */
  lemma NumeralIsShort(b: Base, n: nat)
    requires n < 0x1_0000_0000_0000_0000
    ensures |PrintIn(b, n)| <= 66
  {
    hide DigitsOf;
    DigitsOfWord(n, Radix(b));
  }

  function PowerOfTwo(k: nat): nat {
    if k == 0 then 1 else 2 * PowerOfTwo(k - 1)
  }

  lemma {:induction false} DigitsOfPower(n: nat, radix: nat, k: nat)
    requires 2 <= radix && 1 <= k && n < PowerOfTwo(k)
    ensures |DigitsOf(n, radix)| <= k
    decreases k
  {
    if n >= radix {
      QuotientFalls(n, radix);
      Halved(n, radix);
      DigitsOfPower(n / radix, radix, k - 1);
    }
  }

  lemma Halved(n: nat, radix: nat)
    requires 2 <= radix <= n
    ensures 2 * (n / radix) <= n
  {
    QuotientFalls(n, radix);
    assert 2 * (n / radix) <= n / radix * radix;
  }

  lemma DigitsOfWord(n: nat, radix: nat)
    requires 2 <= radix && n < 0x1_0000_0000_0000_0000
    ensures |DigitsOf(n, radix)| <= 64
  {
    PowersOfTwo();
    DigitsOfPower(n, radix, 64);
  }

  lemma PowersOfTwo()
    ensures PowerOfTwo(64) == 0x1_0000_0000_0000_0000
  {
    assert PowerOfTwo(4) == 16;
    PowersMultiply(4, 4);
    PowersMultiply(8, 8);
    PowersMultiply(16, 16);
    PowersMultiply(32, 32);
  }

  lemma {:induction false} PowersMultiply(j: nat, k: nat)
    ensures PowerOfTwo(j + k) == PowerOfTwo(j) * PowerOfTwo(k)
  {
    if j > 0 { PowersMultiply(j - 1, k); }
  }
}
