/** Numbers as text: `strtoull` with base 0 (section 7.22.1.4 of ISO/IEC 9899:2011, saturating and
reporting a range error on overflow) and the signed decimal that `%lld` prints for a 64-bit word. */
module Numbers {
  const TWO63: nat := 0x8000_0000_0000_0000
  const TWO64: nat := 0x1_0000_0000_0000_0000

  /** An unsigned 64-bit word. */
  type Word = v: nat | v < TWO64 witness 0

  datatype Parsed = Parsed(value: nat, overflow: bool)

  predicate IsSpace(c: char) {
    c == ' ' || c == '\t' || c == '\n' || c == '\U{0B}' || c == '\U{0C}' || c == '\r'
  }

  function SkipSpace(s: string): (r: string)
    ensures r == [] || !IsSpace(r[0])
  {
    if s != [] && IsSpace(s[0]) then SkipSpace(s[1..]) else s
  }

  /** Value of a digit in bases up to 16; 16 stands for "not a digit". */
  function Digit(c: char): (v: nat)
    ensures v <= 16
  {
    if '0' <= c <= '9' then c as int - '0' as int
    else if 'a' <= c <= 'f' then c as int - 'a' as int + 10
    else if 'A' <= c <= 'F' then c as int - 'A' as int + 10
    else 16
  }

  /** The longest digit prefix, read as a number on top of `acc`. */
  function Magnitude(s: string, radix: nat, acc: nat): nat {
    if s == [] || Digit(s[0]) >= radix then acc else Magnitude(s[1..], radix, acc * radix + Digit(s[0]))
  }

  function Unsigned(s: string): nat {
    if s != [] && s[0] == '0' then
      if |s| >= 2 && (s[1] == 'x' || s[1] == 'X') then Magnitude(s[2..], 16, 0) else Magnitude(s, 8, 0)
    else Magnitude(s, 10, 0)
  }

  /** `strtoull(s, NULL, 0)` with the range error of `errno`. */
  function ParseULL(s: string): (p: Parsed)
    ensures p.value < TWO64
  {
    var t := SkipSpace(s);
    var negative := t != [] && t[0] == '-';
    var body := if t != [] && (t[0] == '-' || t[0] == '+') then t[1..] else t;
    var m := Unsigned(body);
    if m >= TWO64 then Parsed(TWO64 - 1, true)
    else if negative && m > 0 then Parsed(TWO64 - m, false)
    else Parsed(m, false)
  }

  function DigitChar(k: nat): (c: char)
    requires k < 10
    ensures '0' <= c <= '9' && Digit(c) == k
  {
    '0' + k as char
  }

  function Decimal(n: nat): (s: string)
    ensures s != [] && forall c | c in s :: '0' <= c <= '9'
    ensures s[0] == '0' ==> n == 0
  {
    if n < 10 then [DigitChar(n)] else Decimal(n / 10) + [DigitChar(n % 10)]
  }

  /** `%lld` applied to the 64-bit word `v`: words from 2^63 on print as negative numbers. */
  function PrintLLD(v: nat): (s: string)
    requires v < TWO64
    ensures s != [] && forall c | c in s :: c == '-' || '0' <= c <= '9'
  {
    if v < TWO63 then Decimal(v) else "-" + Decimal(TWO64 - v)
  }

  lemma {:induction false} MagnitudeSnoc(s: string, c: char, acc: nat)
    requires forall x | x in s :: Digit(x) < 10
    requires Digit(c) < 10
    ensures Magnitude(s + [c], 10, acc) == Magnitude(s, 10, acc) * 10 + Digit(c)
  {
    var t := s + [c];
    if s == [] {
      assert t[0] == c && t[1..] == [];
    } else {
      assert s[0] in s && t[0] == s[0];
      assert t[1..] == s[1..] + [c];
      MagnitudeSnoc(s[1..], c, acc * 10 + Digit(s[0]));
    }
  }

  lemma {:induction false} MagnitudeOfDecimal(n: nat)
    ensures Magnitude(Decimal(n), 10, 0) == n
  {
    if n < 10 {
      assert Magnitude([], 10, n) == n;
    } else {
      MagnitudeOfDecimal(n / 10);
      MagnitudeSnoc(Decimal(n / 10), DigitChar(n % 10), 0);
    }
  }

  lemma UnsignedOfDecimal(n: nat)
    ensures Unsigned(Decimal(n)) == n
  {
    MagnitudeOfDecimal(n);
    if Decimal(n)[0] == '0' {
      assert Decimal(0) == ['0'];
      assert Magnitude([], 8, 0) == 0;
    }
  }

  lemma ParseOfDecimal(n: nat)
    requires n < TWO64
    ensures ParseULL(Decimal(n)) == Parsed(n, false)
  {
    var s := Decimal(n);
    assert s[0] in s;
    UnsignedOfDecimal(n);
  }

  /** Every 64-bit word survives being printed as a signed decimal and read back. */
  lemma ParseOfPrint(v: nat)
    requires v < TWO64
    ensures ParseULL(PrintLLD(v)) == Parsed(v, false)
  {
    if v < TWO63 {
      ParseOfDecimal(v);
    } else {
      var s := PrintLLD(v);
      assert s[1..] == Decimal(TWO64 - v);
      UnsignedOfDecimal(TWO64 - v);
    }
  }

  function PowerOfTen(k: nat): nat {
    if k == 0 then 1 else 10 * PowerOfTen(k - 1)
  }

  lemma {:induction false} PowerOfTenAdds(j: nat, k: nat)
    ensures PowerOfTen(j + k) == PowerOfTen(j) * PowerOfTen(k)
  {
    if j > 0 {
      PowerOfTenAdds(j - 1, k);
      assert PowerOfTen(j + k) == 10 * (PowerOfTen(j - 1) * PowerOfTen(k)) == (10 * PowerOfTen(j - 1)) * PowerOfTen(k);
    }
  }

  lemma {:induction false} DecimalLength(n: nat, k: nat)
    requires 1 <= k && n < PowerOfTen(k)
    ensures |Decimal(n)| <= k
  {
    if n >= 10 {
      assert PowerOfTen(1) == 10;
      DecimalLength(n / 10, k - 1);
    }
  }

  /** A printed word takes at most 21 characters. */
  lemma PrintIsShort(v: nat)
    requires v < TWO64
    ensures |PrintLLD(v)| <= 21
  {
    assert PowerOfTen(5) == 100000 by { assert PowerOfTen(2) == 100; assert PowerOfTen(4) == 10000; }
    PowerOfTenAdds(5, 5);
    PowerOfTenAdds(10, 10);
    DecimalLength(if v < TWO63 then v else TWO64 - v, 20);
  }

  /** Quotient and remainder are determined by the equation. */
  lemma DivModUnique(n: nat, m: nat, q: nat, r: nat)
    requires r < m && n == m * q + r
    ensures n / m == q && n % m == r
  {
    var q', r' := n / m, n % m;
    assert n == m * q' + r';
    if q < q' { MultiplesApart(m, q, q'); } else if q' < q { MultiplesApart(m, q', q); }
  }

  lemma MultiplesApart(m: nat, a: nat, b: nat)
    requires a < b
    ensures m * a + m <= m * b
  {
    assert m * b == m * a + m * (b - a);
    assert b - a >= 1;
    assert m * (b - a) >= m * 1;
  }

  lemma ModuloStep(n: nat, period: nat)
    requires period > 0
    ensures (n + 1) % period == if n % period == period - 1 then 0 else n % period + 1
    ensures 0 % period == 0
  {
    var q, r := n / period, n % period;
    assert n == period * q + r;
    DivModUnique(0, period, 0, 0);
    if r == period - 1 {
      assert n + 1 == period * (q + 1) + 0;
      DivModUnique(n + 1, period, q + 1, 0);
    } else {
      DivModUnique(n + 1, period, q, r + 1);
    }
  }
}
