/** The representative spelling of a member name under Unicode simple folding: `foldRune` and
    `foldKey` (internal/mcpgate/gate.go). A name is its sequence of runes. */
module Folding {

  type Rune = nat
  type Key = seq<Rune>

  function Iter(f: Rune -> Rune, r: Rune, k: nat): Rune {
    if k == 0 then r else f(Iter(f, r, k - 1))
  }

  predicate Upper(r: Rune) {
    65 <= r <= 90
  }

  predicate Lower(r: Rune) {
    97 <= r <= 122
  }

  /** What unicode.SimpleFold is taken to be: a permutation whose orbits are finite cycles, in
      which an ASCII capital is the least of its orbit and shares it with its small letter, and
      every other ASCII rune is alone. */
  ghost predicate SimpleFolding(f: Rune -> Rune, period: Rune -> nat) {
    && (forall r: Rune :: period(r) > 0 && Iter(f, r, period(r)) == r)
    && (forall r: Rune, k: nat :: 0 < k < period(r) ==> Iter(f, r, k) != r)
    && (forall r: Rune, k: nat :: Upper(r) ==> r <= Iter(f, r, k))
    && (forall r: Rune {:trigger Upper(r)} :: Upper(r) ==> SameOrbit(f, r, r + 32))
    && (forall r: Rune :: r < 128 && !Upper(r) && !Lower(r) ==> f(r) == r)
  }

  ghost predicate SameOrbit(f: Rune -> Rune, a: Rune, b: Rune) {
    exists k: nat :: Iter(f, a, k) == b
  }

  lemma {:induction false} IterAdd(f: Rune -> Rune, r: Rune, j: nat, k: nat)
    ensures Iter(f, Iter(f, r, j), k) == Iter(f, r, j + k)
  {
    if k > 0 {
      IterAdd(f, r, j, k - 1);
    }
  }

  /** Going round the cycle any number of times changes nothing. */
  lemma {:induction false} Round(f: Rune -> Rune, period: Rune -> nat, r: Rune, n: nat)
    requires SimpleFolding(f, period)
    ensures Iter(f, r, n * period(r)) == r
  {
    if n > 0 {
      Round(f, period, r, n - 1);
      IterAdd(f, r, (n - 1) * period(r), period(r));
      assert (n - 1) * period(r) + period(r) == n * period(r);
    }
  }

  lemma OrbitSymmetric(f: Rune -> Rune, period: Rune -> nat, a: Rune, b: Rune)
    requires SimpleFolding(f, period) && SameOrbit(f, a, b)
    ensures SameOrbit(f, b, a)
  {
    var k: nat :| Iter(f, a, k) == b;
    Round(f, period, a, k);
    assert k * period(a) >= k by { Grows(k, period(a)); }
    var back := k * period(a) - k;
    IterAdd(f, a, k, back);
    assert Iter(f, b, back) == a;
  }

  lemma {:induction false} Grows(k: nat, p: nat)
    requires p > 0
    ensures k * p >= k
  {
    if k > 0 {
      Grows(k - 1, p);
      assert k * p == (k - 1) * p + p;
    }
  }

  lemma OrbitTransitive(f: Rune -> Rune, a: Rune, b: Rune, c: Rune)
    requires SameOrbit(f, a, b) && SameOrbit(f, b, c)
    ensures SameOrbit(f, a, c)
  {
    var j: nat :| Iter(f, a, j) == b;
    var k: nat :| Iter(f, b, k) == c;
    IterAdd(f, a, j, k);
  }

  // ----- the least rune of an orbit ------------------------------------------

  /** The least of the first `n` runes on the way round. */
  function Least(f: Rune -> Rune, r: Rune, n: nat): (m: Rune)
    requires n > 0
  {
    if n == 1 then r
    else
      var m, next := Least(f, r, n - 1), Iter(f, r, n - 1);
      if next < m then next else m
  }

  lemma {:induction false} LeastInOrbit(f: Rune -> Rune, r: Rune, n: nat)
    requires n > 0
    ensures SameOrbit(f, r, Least(f, r, n))
    ensures forall k :: 0 <= k < n ==> Least(f, r, n) <= Iter(f, r, k)
  {
    if n == 1 {
      assert Iter(f, r, 0) == r;
    } else {
      LeastInOrbit(f, r, n - 1);
    }
  }

  ghost function OrbitLeast(f: Rune -> Rune, period: Rune -> nat, r: Rune): Rune
    requires SimpleFolding(f, period)
  {
    Least(f, r, period(r))
  }

  lemma {:induction false} LeastOfAll(f: Rune -> Rune, period: Rune -> nat, r: Rune, k: nat)
    requires SimpleFolding(f, period)
    ensures OrbitLeast(f, period, r) <= Iter(f, r, k)
    decreases k
  {
    LeastInOrbit(f, r, period(r));
    if k >= period(r) {
      LeastOfAll(f, period, r, k - period(r));
      IterAdd(f, r, period(r), k - period(r));
    }
  }

  /** Runes of one orbit share its least rune, and runes that share a least rune share an orbit. */
  lemma LeastNamesOrbit(f: Rune -> Rune, period: Rune -> nat, a: Rune, b: Rune)
    requires SimpleFolding(f, period)
    ensures OrbitLeast(f, period, a) == OrbitLeast(f, period, b) <==> SameOrbit(f, a, b)
  {
    var m, n := OrbitLeast(f, period, a), OrbitLeast(f, period, b);
    LeastInOrbit(f, a, period(a));
    LeastInOrbit(f, b, period(b));
    if SameOrbit(f, a, b) {
      OrbitSymmetric(f, period, a, b);
      OrbitTransitive(f, a, b, n);
      OrbitTransitive(f, b, a, m);
      var j: nat :| Iter(f, a, j) == n;
      var k: nat :| Iter(f, b, k) == m;
      LeastOfAll(f, period, a, j);
      LeastOfAll(f, period, b, k);
    }
    if m == n {
      OrbitSymmetric(f, period, b, n);
      OrbitTransitive(f, a, m, b);
    }
  }

  // ----- foldRune ------------------------------------------------------------

  function Shifted(lo: Rune): Rune {
    if Upper(lo) then lo + 32 else lo
  }

  ghost function FoldRune(f: Rune -> Rune, period: Rune -> nat, r: Rune): Rune
    requires SimpleFolding(f, period)
  {
    Shifted(OrbitLeast(f, period, r))
  }

  /** Equal representatives mean one orbit: the shift to lower case never makes two orbits meet. */
  lemma SameFoldIffSameOrbit(f: Rune -> Rune, period: Rune -> nat, a: Rune, b: Rune)
    requires SimpleFolding(f, period)
    ensures FoldRune(f, period, a) == FoldRune(f, period, b) <==> SameOrbit(f, a, b)
  {
    LeastNamesOrbit(f, period, a, b);
    ShiftIsInjective(f, period, a, b);
    ShiftIsInjective(f, period, b, a);
  }

  lemma ShiftIsInjective(f: Rune -> Rune, period: Rune -> nat, a: Rune, b: Rune)
    requires SimpleFolding(f, period)
    ensures var m, n := OrbitLeast(f, period, a), OrbitLeast(f, period, b);
            Upper(m) ==> m + 32 != n
  {
    var m, n := OrbitLeast(f, period, a), OrbitLeast(f, period, b);
    if Upper(m) && m + 32 == n {
      LeastInOrbit(f, b, period(b));
      OrbitSymmetric(f, period, m, n);
      OrbitTransitive(f, b, n, m);
      var k: nat :| Iter(f, b, k) == m;
      LeastOfAll(f, period, b, k);
    }
  }

  /** On ASCII the representative needs no walk. */
  lemma AsciiFold(f: Rune -> Rune, period: Rune -> nat, r: Rune)
    requires SimpleFolding(f, period) && r < 128
    ensures FoldRune(f, period, r) == if Upper(r) then r + 32 else r
  {
    LeastInOrbit(f, r, period(r));
    if Upper(r) {
      LeastIsCapital(f, period, r);
    } else if Lower(r) {
      LeastIsCapital(f, period, r - 32);
      assert Upper(r - 32);
      LeastNamesOrbit(f, period, r - 32, r);
    } else {
      var k: nat :| Iter(f, r, k) == OrbitLeast(f, period, r);
      Fixed(f, r, k);
    }
  }

  lemma LeastIsCapital(f: Rune -> Rune, period: Rune -> nat, r: Rune)
    requires SimpleFolding(f, period) && Upper(r)
    ensures OrbitLeast(f, period, r) == r
  {
    LeastInOrbit(f, r, period(r));
    assert Iter(f, r, 0) == r;
  }

  lemma {:induction false} Fixed(f: Rune -> Rune, r: Rune, k: nat)
    requires f(r) == r
    ensures Iter(f, r, k) == r
  {
    if k > 0 {
      Fixed(f, r, k - 1);
    }
  }

  /** The representative is the least rune of the orbit, in lower case if it is an ASCII capital. */
  lemma FoldRuneIs(f: Rune -> Rune, period: Rune -> nat, r: Rune)
    requires SimpleFolding(f, period)
    ensures exists lo: Rune :: SameOrbit(f, r, lo) && (forall k: nat :: lo <= Iter(f, r, k))
                               && FoldRune(f, period, r) == if 65 <= lo <= 90 then lo + 32 else lo
  {
    LeastInOrbit(f, r, period(r));
    forall k: nat ensures OrbitLeast(f, period, r) <= Iter(f, r, k) {
      LeastOfAll(f, period, r, k);
    }
  }

  /** The walk round the orbit, which the period bounds. */
  method FoldOneRune(simpleFold: Rune -> Rune, ghost period: Rune -> nat, r: Rune) returns (folded: Rune)
    requires SimpleFolding(simpleFold, period)
    ensures folded == FoldRune(simpleFold, period, r)
  {
    if r < 128 {
      AsciiFold(simpleFold, period, r);
      return if Upper(r) then r + 32 else r;
    }
    var lo, g := r, simpleFold(r);
    ghost var k := 1;
    assert Iter(simpleFold, r, 1) == simpleFold(Iter(simpleFold, r, 0));
    while g != r
      invariant 1 <= k <= period(r) && g == Iter(simpleFold, r, k)
      invariant lo == Least(simpleFold, r, k)
      decreases period(r) - k
    {
      if g < lo {
        lo := g;
      }
      g := simpleFold(g);
      k := k + 1;
    }
    if 65 <= lo <= 90 {
      lo := lo + 32;
    }
    folded := lo;
  }

  // ----- foldKey -------------------------------------------------------------

  ghost function FoldKey(f: Rune -> Rune, period: Rune -> nat, key: Key): Key
    requires SimpleFolding(f, period)
  {
    seq(|key|, i requires 0 <= i < |key| => FoldRune(f, period, key[i]))
  }

  /** Names have one folded spelling exactly when they agree rune by rune up to their orbits. */
  lemma SameFoldedKey(f: Rune -> Rune, period: Rune -> nat, a: Key, b: Key)
    requires SimpleFolding(f, period)
    ensures FoldKey(f, period, a) == FoldKey(f, period, b)
       <==> |a| == |b| && forall i :: 0 <= i < |a| ==> SameOrbit(f, a[i], b[i])
  {
    if |a| == |b| {
      forall i | 0 <= i < |a|
        ensures FoldKey(f, period, a)[i] == FoldKey(f, period, b)[i] <==> SameOrbit(f, a[i], b[i])
      {
        SameFoldIffSameOrbit(f, period, a[i], b[i]);
      }
      if FoldKey(f, period, a) == FoldKey(f, period, b) {
        forall i | 0 <= i < |a| ensures SameOrbit(f, a[i], b[i]) {
          assert FoldKey(f, period, a)[i] == FoldKey(f, period, b)[i];
        }
      }
    } else {
      assert |FoldKey(f, period, a)| == |a| && |FoldKey(f, period, b)| == |b|;
    }
  }

  method FoldKeyOf(simpleFold: Rune -> Rune, ghost period: Rune -> nat, key: Key) returns (folded: Key)
    requires SimpleFolding(simpleFold, period)
    ensures folded == FoldKey(simpleFold, period, key)
  {
    var simple := true;
    for i := 0 to |key|
      invariant simple ==> forall k :: 0 <= k < i ==> key[k] < 128 && !Upper(key[k])
    {
      if key[i] >= 128 || 65 <= key[i] <= 90 {
        simple := false;
        break;
      }
    }
    if simple {
      forall i | 0 <= i < |key| ensures FoldKey(simpleFold, period, key)[i] == key[i] {
        AsciiFold(simpleFold, period, key[i]);
      }
      return key;
    }
    folded := [];
    for i := 0 to |key|
      invariant folded == FoldKey(simpleFold, period, key)[..i]
    {
      var r := FoldOneRune(simpleFold, period, key[i]);
      folded := folded + [r];
    }
  }

  // ----- the hypothesis can be met -------------------------------------------

  /** Swapping the case of ASCII letters. */
  function AsciiSwap(r: Rune): Rune {
    if Upper(r) then r + 32 else if Lower(r) then r - 32 else r
  }

  function AsciiPeriod(r: Rune): nat {
    if Upper(r) || Lower(r) then 2 else 1
  }

  lemma {:induction false} AsciiSwapTurns(r: Rune, k: nat)
    ensures Iter(AsciiSwap, r, k) == if k % 2 == 0 then r else AsciiSwap(r)
  {
    if k > 0 {
      AsciiSwapTurns(r, k - 1);
    }
  }

  /** Folding that knows only ASCII is one of the foldings all this holds for. */
  lemma AsciiFoldingIsOne()
    ensures SimpleFolding(AsciiSwap, AsciiPeriod)
  {
    forall r: Rune, k: nat
      ensures Iter(AsciiSwap, r, k) == if k % 2 == 0 then r else AsciiSwap(r)
    {
      AsciiSwapTurns(r, k);
    }
    forall r: Rune | Upper(r) ensures SameOrbit(AsciiSwap, r, r + 32) {
      assert Iter(AsciiSwap, r, 1) == r + 32;
    }
  }
}
