/** Exact money: decimal amounts in and out of int64 micro-cents, and metered cost rounded up
    (internal/spending/money.go, internal/spending/meter.go). */
module Money {
  import opened Wrappers
  import opened Positional
  import opened Strings

  /** int64: every arithmetic operation on it below is proved to stay in range. */
  newtype MicroCents = x: int | -0x8000_0000_0000_0000 <= x <= 0x7FFF_FFFF_FFFF_FFFF

  newtype Unsigned = x: int | 0 <= x <= 0xFFFF_FFFF_FFFF_FFFF

  const MAX_AMOUNT: MicroCents := 0x7FFF_FFFF_FFFF_FFFF
  const MIN_AMOUNT: MicroCents := -0x8000_0000_0000_0000
  const PER_USD: MicroCents := 100_000_000
  const MAX_FRAC_DIGITS: nat := 8

  // ----- decimal numerals ----------------------------------------------------

  predicate IsDigit(c: char) {
    '0' <= c <= '9'
  }

  predicate AllDigits(s: string) {
    forall c :: c in s ==> IsDigit(c)
  }

  function Digit(c: char): (d: nat)
    requires IsDigit(c)
    ensures d < 10
  {
    c as nat - '0' as nat
  }

  function Numeral(d: nat): (c: char)
    requires d < 10
    ensures IsDigit(c) && Digit(c) == d
  {
    (d + '0' as nat) as char
  }

  lemma DropLast(s: string)
    requires AllDigits(s) && s != ""
    ensures AllDigits(s[..|s| - 1]) && IsDigit(s[|s| - 1])
  {
    assert forall c :: c in s[..|s| - 1] ==> c in s;
    assert s[|s| - 1] in s;
  }

  function Number(s: string): nat
    requires AllDigits(s)
  {
    if s == "" then 0
    else
      DropLast(s);
      Number(s[..|s| - 1]) * 10 + Digit(s[|s| - 1])
  }

  lemma NumberSnoc(s: string, c: char)
    requires AllDigits(s) && IsDigit(c)
    ensures AllDigits(s + [c]) && Number(s + [c]) == Number(s) * 10 + Digit(c)
  {
    assert (s + [c])[..|s|] == s;
  }

  /** More digits never make a smaller number. */
  lemma {:induction false} PrefixNumber(s: string, i: nat)
    requires AllDigits(s) && i <= |s|
    ensures AllDigits(s[..i]) && Number(s[..i]) <= Number(s)
  {
    assert forall c :: c in s[..i] ==> c in s;
    if i < |s| {
      DropLast(s);
      PrefixNumber(s[..|s| - 1], i);
      assert s[..|s| - 1][..i] == s[..i];
    } else {
      assert s[..i] == s;
    }
  }

  // ----- what an amount means ------------------------------------------------

  /** `s` is the plain decimal with whole part `w` and fraction `f`. */
  predicate Reads(s: string, w: string, f: string) {
    && AllDigits(w) && AllDigits(f) && |f| <= MAX_FRAC_DIGITS && w + f != ""
    && (s == w + "." + f || (f == "" && s == w))
  }

  function Amount(w: string, f: string): nat
    requires AllDigits(w) && AllDigits(f) && |f| <= MAX_FRAC_DIGITS
  {
    Number(w) * 100_000_000 + Fraction(f)
  }

  /** What the digits after the point are worth. */
  function Fraction(f: string): nat
    requires AllDigits(f) && |f| <= MAX_FRAC_DIGITS
  {
    Number(f) * Pow(10, MAX_FRAC_DIGITS - |f|)
  }

  /** The decimal `s` is exactly `n` hundred-millionths of a dollar. */
  ghost predicate Denotes(s: string, n: int) {
    exists w, f :: Reads(s, w, f) && Amount(w, f) == n
  }

  function Before(s: string): string {
    s[..Position(s, '.')]
  }

  function After(s: string): string {
    if Position(s, '.') == |s| then "" else s[Position(s, '.') + 1..]
  }

  /** A string is cut at its first point in one way only. */
  lemma CutOnce(s: string, before: string, after: string)
    requires '.' !in before && (s == before + "." + after || (after == "" && s == before))
    ensures before == Before(s) && after == After(s)
  {
    PositionAt(before, '.', after);
  }

  /** A string is read in one way at most, and a reading starts with a digit or the point. */
  lemma ReadAtPoint(s: string, w: string, f: string)
    requires Reads(s, w, f)
    ensures w == Before(s) && f == After(s)
    ensures s != "" && (IsDigit(s[0]) || s[0] == '.')
  {
    assert '.' !in w;
    CutOnce(s, w, f);
    if w != "" {
      assert w[0] in w;
    }
  }

  function Meaning(s: string): Option<int> {
    if Reads(s, Before(s), After(s)) then Some(Amount(Before(s), After(s))) else None
  }

  lemma OneMeaning(s: string)
    ensures forall n :: Denotes(s, n) <==> Meaning(s) == Some(n)
    ensures Meaning(s).Some? ==> s != "" && (IsDigit(s[0]) || s[0] == '.')
  {
    forall w, f | Reads(s, w, f)
      ensures w == Before(s) && f == After(s) && s != "" && (IsDigit(s[0]) || s[0] == '.')
    {
      ReadAtPoint(s, w, f);
    }
  }

  lemma {:induction false} NumberConcat(a: string, b: string)
    requires AllDigits(a) && AllDigits(b)
    ensures AllDigits(a + b) && Number(a + b) == Number(a) * Pow(10, |b|) + Number(b)
  {
    if b == "" {
      assert a + b == a;
    } else {
      var init, c := b[..|b| - 1], b[|b| - 1];
      DropLast(b);
      NumberConcat(a, init);
      NumberSnoc(a + init, c);
      assert a + b == a + init + [c];
      ShiftNumber(Number(a), Pow(10, |init|), Number(init));
    }
  }

  lemma ShiftNumber(a: nat, p: nat, b: nat)
    ensures (a * p + b) * 10 == a * (p * 10) + b * 10
  {
  }

  /** An amount is the decimal's digits, read as one number, over the power of ten that the point
      stands for, counted in hundred-millionths. */
  lemma AmountIsDecimal(w: string, f: string)
    requires AllDigits(w) && AllDigits(f) && |f| <= MAX_FRAC_DIGITS
    ensures AllDigits(w + f) && Amount(w, f) * Pow(10, |f|) == Number(w + f) * 100_000_000
  {
    NumberConcat(w, f);
    SmallPowers();
    PowAdd(10, MAX_FRAC_DIGITS - |f|, |f|);
    Distribute(Number(w), Number(f), Pow(10, MAX_FRAC_DIGITS - |f|), Pow(10, |f|));
  }

  lemma Distribute(a: nat, b: nat, p: nat, q: nat)
    requires p * q == 100_000_000
    ensures (a * 100_000_000 + b * p) * q == (a * q + b) * 100_000_000
  {
    assert (b * p) * q == b * (p * q);
    assert (a * 100_000_000) * q == (a * q) * 100_000_000;
  }

  // ----- ParseUSD ------------------------------------------------------------

  datatype ParseError = Empty | Signed | Invalid | TooFine | TooLarge

  method Cut(s: string) returns (before: string, after: string)
    ensures '.' !in before
    ensures s == before + "." + after || (after == "" && s == before)
  {
    for i := 0 to |s|
      invariant '.' !in s[..i]
    {
      if s[i] == '.' {
        assert s == s[..i] + [s[i]] + s[i + 1..];
        return s[..i], s[i + 1..];
      }
    }
    assert s[..|s|] == s;
    return s, "";
  }

  /** The whole part: its digits, or the reason there is no amount. */
  method ParseWhole(whole: string) returns (r: Result<MicroCents, ParseError>)
    ensures r.Ok? ==> r.value >= 0 && AllDigits(whole) && r.value as int == Number(whole) * 100_000_000
    ensures r.Err? ==> AllDigits(whole) ==> r == Err(TooLarge) && Number(whole) * 100_000_000 > MAX_AMOUNT as int
    ensures r.Err? ==> r.error in {Invalid, TooLarge}
  {
    var total: MicroCents := 0;
    for i := 0 to |whole|
      invariant AllDigits(whole[..i]) && total >= 0 && total as int == Number(whole[..i]) * 100_000_000
    {
      assert whole[i] in whole;
      if !IsDigit(whole[i]) {
        return Err(Invalid);
      }
      NumberSnoc(whole[..i], whole[i]);
      assert whole[..i] + [whole[i]] == whole[..i + 1];
      var d := Digit(whole[i]) as MicroCents;
      if total > (MAX_AMOUNT - d * PER_USD) / 10 {
        if AllDigits(whole) {
          PrefixNumber(whole, i + 1);
        }
        return Err(TooLarge);
      }
      total := total * 10 + d * PER_USD;
    }
    assert whole[..|whole|] == whole;
    r := Ok(total);
  }

  /** What is left to scale the fraction's next digit by. */
  function Scale(i: nat): nat {
    if i < 8 then Pow(10, 7 - i) else 0
  }

  lemma ShiftDigit(n: nat, d: nat, p: nat)
    ensures (n * 10 + d) * p == n * (p * 10) + d * p && d * p >= 0
  {
  }

  lemma ScaleStep(f: string, i: nat)
    requires i < |f| <= MAX_FRAC_DIGITS && AllDigits(f[..i]) && IsDigit(f[i])
    ensures AllDigits(f[..i + 1])
    ensures Fraction(f[..i + 1]) == Fraction(f[..i]) + Digit(f[i]) * Scale(i) && Digit(f[i]) * Scale(i) >= 0
  {
    NumberSnoc(f[..i], f[i]);
    assert f[..i] + [f[i]] == f[..i + 1];
    ShiftDigit(Number(f[..i]), Digit(f[i]), Pow(10, 7 - i));
  }

  lemma ScaleBounds(d: nat, i: nat)
    requires d < 10 && i < 8
    ensures Scale(i + 1) == Scale(i) / 10 && Scale(i) <= 10_000_000 && 0 <= d * Scale(i) <= 90_000_000
  {
    SmallPowers();
    PowMonotone(10, 7 - i, 7);
    MulMonotone(d, 9, Scale(i));
  }

  lemma SmallPowers()
    ensures Pow(10, 0) == 1 && Pow(10, 1) == 10 && Pow(10, 2) == 100 && Pow(10, 3) == 1000
    ensures Pow(10, 4) == 10000 && Pow(10, 5) == 100000 && Pow(10, 6) == 1000000
    ensures Pow(10, 7) == 10_000_000 && Pow(10, 8) == 100_000_000
  {
    assert Pow(10, 2) == Pow(10, 1) * 10;
    assert Pow(10, 3) == Pow(10, 2) * 10;
    assert Pow(10, 4) == Pow(10, 3) * 10;
    assert Pow(10, 5) == Pow(10, 4) * 10;
    assert Pow(10, 6) == Pow(10, 5) * 10;
    assert Pow(10, 7) == Pow(10, 6) * 10;
    assert Pow(10, 8) == Pow(10, 7) * 10;
  }

  lemma {:induction false} FractionPrefix(f: string, i: nat)
    requires AllDigits(f) && i <= |f| <= MAX_FRAC_DIGITS
    ensures AllDigits(f[..i]) && Fraction(f[..i]) <= Fraction(f)
    decreases |f| - i
  {
    assert forall c :: c in f[..i] ==> c in f;
    if i < |f| {
      assert f[i] in f;
      ScaleStep(f, i);
      FractionPrefix(f, i + 1);
    } else {
      assert f[..i] == f;
    }
  }

  /** The fraction, on top of what the whole part came to. */
  method ParseFraction(start: MicroCents, frac: string) returns (r: Result<MicroCents, ParseError>)
    requires start >= 0 && |frac| <= MAX_FRAC_DIGITS
    ensures r.Ok? ==> r.value >= 0 && AllDigits(frac) && r.value as int == start as int + Fraction(frac)
    ensures r.Err? ==> AllDigits(frac) ==>
              r == Err(TooLarge) && start as int + Fraction(frac) > MAX_AMOUNT as int
    ensures r.Err? ==> r.error in {Invalid, TooLarge}
  {
    var total, scale := start, PER_USD / 10;
    SmallPowers();
    for i := 0 to |frac|
      invariant AllDigits(frac[..i]) && total >= 0 && scale as int == Scale(i)
      invariant total as int == start as int + Fraction(frac[..i])
    {
      assert frac[i] in frac;
      if !IsDigit(frac[i]) {
        return Err(Invalid);
      }
      ScaleStep(frac, i);
      ScaleBounds(Digit(frac[i]), i);
      var d := Digit(frac[i]) as MicroCents * scale;
      if total > MAX_AMOUNT - d {
        if AllDigits(frac) {
          FractionPrefix(frac, i + 1);
        }
        return Err(TooLarge);
      }
      total := total + d;
      scale := scale / 10;
    }
    assert frac[..|frac|] == frac;
    r := Ok(total);
  }

  method ParseParts(whole: string, frac: string) returns (r: Result<MicroCents, ParseError>)
    requires |frac| <= MAX_FRAC_DIGITS
    ensures r.Ok? ==> AllDigits(whole) && AllDigits(frac) && r.value as int == Amount(whole, frac)
    ensures r.Err? ==> AllDigits(whole) && AllDigits(frac) ==>
            r == Err(TooLarge) && Amount(whole, frac) > MAX_AMOUNT as int
    ensures r.Err? ==> r.error in {Invalid, TooLarge}
  {
    r := ParseWhole(whole);
    if r.Ok? {
      r := ParseFraction(r.value, frac);
    }
  }

  /** Succeeds exactly on the decimals that fit, with exactly their value; a decimal that is too
      large is called so. `s` is what is left once surrounding space is trimmed. */
  method ParseUSD(s: string) returns (r: Result<MicroCents, ParseError>)
    ensures forall n: MicroCents :: r == Ok(n) <==> Denotes(s, n as int)
    ensures forall n: int :: n > MAX_AMOUNT as int && Denotes(s, n) ==> r == Err(TooLarge)
    ensures r == Err(Empty) <==> s == ""
    ensures r == Err(Signed) <==> s != "" && (s[0] == '+' || s[0] == '-')
    ensures r == Err(TooFine) ==> exists w, f :: '.' !in w && s == w + "." + f && |f| > 8
  {
    OneMeaning(s);
    if s == "" {
      return Err(Empty);
    }
    if s[0] == '+' || s[0] == '-' {
      return Err(Signed);
    }
    var before, frac := Cut(s);
    CutOnce(s, before, frac);
    if before == "" && frac == "" {
      return Err(Invalid);
    }
    var whole := if before == "" then "0" else before;
    NothingIsZero(frac);
    if |frac| > MAX_FRAC_DIGITS {
      return Err(TooFine);
    }
    r := ParseParts(whole, frac);
  }

  /** A missing whole part counts as zero. */
  lemma NothingIsZero(frac: string)
    ensures AllDigits("0") && AllDigits("")
    ensures AllDigits(frac) && |frac| <= MAX_FRAC_DIGITS ==> Amount("", frac) == Amount("0", frac)
  {
    NumberSnoc("", '0');
    assert "" + ['0'] == "0";
  }

  // ----- USD -----------------------------------------------------------------

  function Decimal(n: nat): (s: string)
    ensures AllDigits(s) && s != ""
  {
    if n < 10 then [Numeral(n)] else Decimal(n / 10) + [Numeral(n % 10)]
  }

  lemma {:induction false} DecimalNumber(n: nat)
    ensures Number(Decimal(n)) == n
  {
    if n < 10 {
      NumberSnoc("", Numeral(n));
      assert "" + [Numeral(n)] == [Numeral(n)];
    } else {
      DecimalNumber(n / 10);
      NumberSnoc(Decimal(n / 10), Numeral(n % 10));
    }
  }

  /** `n` in exactly `width` digits. */
  function Padded(n: nat, width: nat): (s: string)
    ensures AllDigits(s) && |s| == width
  {
    if width == 0 then "" else Padded(n / 10, width - 1) + [Numeral(n % 10)]
  }

  lemma {:induction false} PaddedNumber(n: nat, width: nat)
    requires n < Pow(10, width)
    ensures Number(Padded(n, width)) == n
  {
    if width > 0 {
      PaddedNumber(n / 10, width - 1);
      NumberSnoc(Padded(n / 10, width - 1), Numeral(n % 10));
    }
  }

  lemma TrimZero(f: string)
    requires AllDigits(f) && 0 < |f| <= MAX_FRAC_DIGITS && f[|f| - 1] == '0'
    ensures AllDigits(f[..|f| - 1]) && Fraction(f[..|f| - 1]) == Fraction(f)
  {
    DropLast(f);
    ShiftDigit(Number(f[..|f| - 1]), 0, Pow(10, MAX_FRAC_DIGITS - |f|));
  }

  /** Two decimals at least, and no zero after those at the end. */
  predicate Trimmed(s: string) {
    |s| >= Position(s, '.') + 3 && (|s| > Position(s, '.') + 3 ==> s[|s| - 1] != '0')
  }

  /** The printed amount denotes the amount, a negative one behind a single sign. */
  method USD(m: MicroCents) returns (s: string)
    ensures m >= 0 ==> Denotes(s, m as int) && Trimmed(s)
    ensures m < 0 ==> s != "" && s[0] == '-' && Denotes(s[1..], -(m as int)) && Trimmed(s[1..])
  {
    // uint64(m), and the unsigned negation, wrap at 2^64.
    var neg, v := "", (m as int % 0x1_0000_0000_0000_0000) as Unsigned;
    if m < 0 {
      neg, v := "-", ((0x1_0000_0000_0000_0000 - v as int) % 0x1_0000_0000_0000_0000) as Unsigned;
    }
    assert v as int == if m < 0 then -(m as int) else m as int;
    var whole, frac := v / 100_000_000, v % 100_000_000;
    var w := Decimal(whole as int);
    ghost var f := Padded(frac as int, 8);
    PrintedParts(w, f, whole as int, frac as int);
    s, f := TrimZeros(w + "." + Padded(frac as int, 8), w, f);
    assert Reads(s, w, f) && Amount(w, f) == v as int;
    assert ("-" + s)[1..] == s;
    s := neg + s;
  }

  /** The loop that drops zeros from the end; `w` and `f` are the two parts of what is left. */
  method TrimZeros(printed: string, ghost w: string, ghost f: string) returns (s: string, ghost f': string)
    requires printed == w + "." + f && AllDigits(w) && AllDigits(f) && |f| == 8
    ensures s == w + "." + f' && AllDigits(f') && |f'| <= 8 && Fraction(f') == Fraction(f)
    ensures Trimmed(s)
  {
    s, f' := printed, f;
    var dot := Position(s, '.');
    PositionAt(w, '.', f);
    while |s| > dot + 3 && s[|s| - 1] == '0'
      invariant s == w + "." + f' && dot == |w| && 2 <= |f'| <= 8
      invariant AllDigits(f') && Fraction(f') == Fraction(f)
    {
      TrimZero(f');
      f' := f'[..|f'| - 1];
      s := s[..|s| - 1];
    }
    PositionAt(w, '.', f');
  }

  lemma PrintedParts(w: string, f: string, whole: nat, frac: nat)
    requires w == Decimal(whole) && f == Padded(frac, 8) && frac < 100_000_000
    ensures Number(w) == whole && Fraction(f) == frac && Position(w + "." + f, '.') == |w|
  {
    DecimalNumber(whole);
    SmallPowers();
    PaddedNumber(frac, 8);
    PositionAt(w, '.', f);
  }

  /** Printing and parsing again gives the amount back, MaxInt64 included. */
  method PrintThenParse(m: MicroCents) returns (r: Result<MicroCents, ParseError>)
    requires m >= 0
    ensures r == Ok(m)
  {
    var s := USD(m);
    r := ParseUSD(s);
  }

  // ----- Cost and Add --------------------------------------------------------

  /** An exact rational, as math/big keeps it. */
  datatype Rational = Rational(num: int, den: nat)
  type Usage = u: Rational | u.den > 0 witness Rational(0, 1)

  datatype CostError = NotANumber | NegativeUsage | NegativePrice | Overflow | Underflow

  /** Usage times price, with nothing rounded. */
  function Exact(u: Usage, price: int): real {
    (u.num * price) as real / u.den as real
  }

  predicate IsCeiling(q: int, x: real) {
    (q - 1) as real < x <= q as real
  }

  lemma {:induction false} RealProduct(a: int, b: nat)
    ensures (a * b) as real == a as real * b as real
  {
    if b > 0 {
      RealProduct(a, b - 1);
      assert a * b == a * (b - 1) + a;
    }
  }

  /** Comparing with a fraction is comparing cross-multiplied. */
  lemma CrossMultiply(q: int, n: int, d: nat)
    requires d > 0
    ensures n <= q * d <==> n as real / d as real <= q as real
  {
    RealProduct(q, d);
    var x, y := n as real / d as real, d as real;
    assert x * y == n as real;
    if x <= q as real {
      assert x * y <= q as real * y;
    } else {
      assert x * y > q as real * y;
    }
  }

  lemma QuotientRoundedUp(n: nat, d: nat)
    requires d > 0
    ensures IsCeiling(if n % d == 0 then n / d else n / d + 1, n as real / d as real)
  {
    var q := n / d;
    Quotient(n, d);
    assert (q + 1) * d == q * d + d && (q - 1) * d == q * d - d;
    CrossMultiply(q, n, d);
    CrossMultiply(q + 1, n, d);
    CrossMultiply(q - 1, n, d);
  }

  /** The exact cost rounded up to the next micro-cent, or the reason there is none. */
  method Cost(read: string -> Option<Usage>, usage: string, price: MicroCents)
    returns (r: Result<MicroCents, CostError>)
    ensures read(usage).None? ==> r == Err(NotANumber)
    ensures read(usage).Some? && read(usage).value.num < 0 ==> r == Err(NegativeUsage)
    ensures read(usage).Some? && read(usage).value.num >= 0 && price < 0 ==> r == Err(NegativePrice)
    ensures read(usage).Some? && read(usage).value.num >= 0 && price >= 0 ==>
              var x := Exact(read(usage).value, price as int);
              if x > MAX_AMOUNT as real then r == Err(Overflow)
              else r.Ok? && r.value >= 0 && IsCeiling(r.value as int, x)
    ensures r.Ok? ==> read(usage).Some?
    ensures r.Ok? ==>
              var u := read(usage).value;
              var cost := (u.num * price as int) as real / u.den as real;
              u.num >= 0 && price >= 0 && r.value as real - 1.0 < cost <= r.value as real
    ensures r == Err(Overflow) ==> read(usage).Some?
    ensures r == Err(Overflow) ==>
              var u := read(usage).value;
              (u.num * price as int) as real / u.den as real > 9223372036854775807.0
  {
    if read(usage).None? {
      return Err(NotANumber);
    }
    var u := read(usage).value;
    if u.num < 0 {
      return Err(NegativeUsage);
    }
    if price < 0 {
      return Err(NegativePrice);
    }
    MulMonotone(0, u.num, price as int);
    var num, denom := u.num * price as int, u.den;
    var q, rem := num / denom, num % denom;
    if rem != 0 {
      q := q + 1;
    }
    QuotientRoundedUp(num, denom);
    if q > MAX_AMOUNT as int {
      return Err(Overflow);
    }
    r := Ok(q as MicroCents);
  }

  /** The sum, or an error exactly when int64 does not hold it. */
  method Add(a: MicroCents, b: MicroCents) returns (r: Result<MicroCents, CostError>)
    ensures r.Ok? <==> MIN_AMOUNT as int <= a as int + b as int <= MAX_AMOUNT as int
    ensures r.Ok? ==> r.value as int == a as int + b as int
    ensures r.Err? ==> r == Err(if b > 0 then Overflow else Underflow)
  {
    if b > 0 && a > MAX_AMOUNT - b {
      return Err(Overflow);
    }
    if b < 0 && a < MIN_AMOUNT - b {
      return Err(Underflow);
    }
    r := Ok(a + b);
  }
}
