/** Numbers and their digits, most significant first, in any base. */
module Positional {

  lemma {:induction false} MulMonotone(a: nat, b: nat, c: nat)
    ensures a <= b ==> a * c <= b * c
  {
    if c > 0 {
      MulMonotone(a, b, c - 1);
    }
  }

  /** Division with remainder, and its uniqueness. */
  lemma Quotient(n: nat, base: nat)
    requires base > 0
    ensures n == (n / base) * base + n % base && n % base < base
    ensures base > 1 && n > 0 ==> n / base < n
  {
    MulMonotone(2, base, n / base);
  }

  lemma QuotientRemainder(base: nat, q: nat, r: nat)
    requires r < base
    ensures (q * base + r) / base == q && (q * base + r) % base == r
  {
    var n := q * base + r;
    Quotient(n, base);
    OneQuotient(base, q, r, n / base, n % base);
  }

  lemma OneQuotient(base: nat, q: nat, r: nat, p: nat, s: nat)
    requires r < base && s < base && q * base + r == p * base + s
    ensures p == q && s == r
  {
    assert (q + 1) * base == q * base + base && (p + 1) * base == p * base + base;
    MulMonotone(q + 1, p, base);
    MulMonotone(p + 1, q, base);
  }

  predicate Digits(base: nat, ds: seq<nat>) {
    forall d :: d in ds ==> d < base
  }

  function Value(base: nat, ds: seq<nat>): nat {
    if ds == [] then 0 else Value(base, ds[..|ds| - 1]) * base + ds[|ds| - 1]
  }

  /** The digits of `n` without leading zeros: none at all for zero. */
  function Write(base: nat, n: nat): (ds: seq<nat>)
    requires base > 1
    ensures Digits(base, ds)
    ensures ds != [] ==> ds[0] != 0
    ensures (ds == []) == (n == 0)
  {
    if n == 0 then []
    else
      Quotient(n, base);
      var ds := Write(base, n / base) + [n % base];
      ds
  }

  lemma {:induction false} ValueWrite(base: nat, n: nat)
    requires base > 1
    ensures Value(base, Write(base, n)) == n
  {
    if n > 0 {
      Quotient(n, base);
      ValueWrite(base, n / base);
      var ds := Write(base, n);
      assert ds[..|ds| - 1] == Write(base, n / base);
    }
  }

  lemma {:induction false} ValuePositive(base: nat, ds: seq<nat>)
    requires base > 1 && ds != [] && ds[0] != 0
    ensures Value(base, ds) > 0
  {
    if |ds| > 1 {
      ValuePositive(base, ds[..|ds| - 1]);
      MulMonotone(1, Value(base, ds[..|ds| - 1]), base);
    }
  }

  /** Digits with no leading zero are the digits of their value. */
  lemma {:induction false} WriteValue(base: nat, ds: seq<nat>)
    requires base > 1 && Digits(base, ds) && (ds != [] ==> ds[0] != 0)
    ensures Write(base, Value(base, ds)) == ds
  {
    if ds != [] {
      var init, last := ds[..|ds| - 1], ds[|ds| - 1];
      ValuePositive(base, ds);
      forall d | d in init ensures d < base { assert d in ds; }
      WriteValue(base, init);
      assert last in ds;
      QuotientRemainder(base, Value(base, init), last);
      assert ds == init + [last];
    }
  }

  function Zeros(n: nat): (zs: seq<nat>)
    ensures |zs| == n && forall i :: 0 <= i < n ==> zs[i] == 0
  {
    seq(n, _ => 0)
  }

  lemma {:induction false} LeadingZerosAddNothing(base: nat, n: nat, ds: seq<nat>)
    ensures Value(base, Zeros(n) + ds) == Value(base, ds)
    decreases n + |ds|
  {
    var all := Zeros(n) + ds;
    if ds != [] {
      assert all[..|all| - 1] == Zeros(n) + ds[..|ds| - 1];
      LeadingZerosAddNothing(base, n, ds[..|ds| - 1]);
    } else if n > 0 {
      assert all[..n - 1] == Zeros(n - 1) + [];
      LeadingZerosAddNothing(base, n - 1, []);
    }
  }

  function LeadingZeros(ds: seq<nat>): (n: nat)
    ensures n <= |ds|
  {
    if ds == [] || ds[0] != 0 then 0 else LeadingZeros(ds[1..]) + 1
  }

  lemma {:induction false} LeadingZerosSplit(ds: seq<nat>)
    ensures ds == Zeros(LeadingZeros(ds)) + ds[LeadingZeros(ds)..]
    ensures LeadingZeros(ds) < |ds| ==> ds[LeadingZeros(ds)] != 0
  {
    if ds != [] && ds[0] == 0 {
      var rest, k := ds[1..], LeadingZeros(ds[1..]);
      LeadingZerosSplit(rest);
      assert Zeros(k + 1) == [0] + Zeros(k);
      assert ds == [0] + rest && ds[k + 1..] == rest[k..];
      assert [0] + (Zeros(k) + rest[k..]) == [0] + Zeros(k) + rest[k..];
    } else {
      assert Zeros(0) + ds == ds;
    }
  }

  lemma {:induction false} LeadingZerosOf(n: nat, ds: seq<nat>)
    requires ds != [] ==> ds[0] != 0
    ensures LeadingZeros(Zeros(n) + ds) == n
  {
    var all := Zeros(n) + ds;
    if n > 0 {
      assert all[1..] == Zeros(n - 1) + ds;
      LeadingZerosOf(n - 1, ds);
    }
  }

  // ----- how many digits a number has ----------------------------------------

  function Pow(b: nat, e: nat): nat {
    if e == 0 then 1 else Pow(b, e - 1) * b
  }

  lemma {:induction false} ValueBelow(base: nat, ds: seq<nat>)
    requires Digits(base, ds)
    ensures Value(base, ds) < Pow(base, |ds|)
  {
    if ds != [] {
      var init := ds[..|ds| - 1];
      forall d | d in init ensures d < base { assert d in ds; }
      ValueBelow(base, init);
      assert ds[|ds| - 1] in ds;
      NextPlace(Value(base, init), ds[|ds| - 1], Pow(base, |init|), base);
    }
  }

  lemma NextPlace(v: nat, d: nat, p: nat, base: nat)
    requires v < p && d < base
    ensures v * base + d < p * base
  {
    MulMonotone(v + 1, p, base);
  }

  lemma {:induction false} ValueAtLeast(base: nat, ds: seq<nat>)
    requires base > 1 && ds != [] && ds[0] != 0
    ensures Value(base, ds) >= Pow(base, |ds| - 1)
  {
    if |ds| > 1 {
      var init := ds[..|ds| - 1];
      ValueAtLeast(base, init);
      MulMonotone(Pow(base, |init| - 1), Value(base, init), base);
    }
  }

  lemma {:induction false} PowMonotone(b: nat, d: nat, e: nat)
    requires b > 0 && d <= e
    ensures 0 < Pow(b, d) <= Pow(b, e)
    decreases e
  {
    if d < e {
      PowMonotone(b, d, e - 1);
      MulMonotone(1, b, Pow(b, e - 1));
    } else if e > 0 {
      PowMonotone(b, d - 1, e - 1);
    }
  }

  /** A number has exactly `len` digits when it lies between the two powers. */
  lemma DigitCount(base: nat, n: nat, len: nat)
    requires base > 1 && len > 0
    requires Pow(base, len - 1) <= n < Pow(base, len)
    ensures |Write(base, n)| == len
  {
    PowMonotone(base, 0, len - 1);
    var ds := Write(base, n);
    ValueWrite(base, n);
    ValueBelow(base, ds);
    ValueAtLeast(base, ds);
    if |ds| < len {
      PowMonotone(base, |ds|, len - 1);
    } else if |ds| > len {
      PowMonotone(base, len, |ds| - 1);
    }
  }

  lemma {:induction false} PowAdd(b: nat, d: nat, e: nat)
    ensures Pow(b, d + e) == Pow(b, d) * Pow(b, e)
  {
    if e > 0 {
      PowAdd(b, d, e - 1);
    }
  }
}
