/** The key suggestion of the manifest parser: `editDistance` and `nearestKey`
    (pkg/manifest/strict.go). A string is its sequence of runes. */
module EditDistance {
  import opened Strings
  import opened Wrappers

  // ----- the distance, by its recurrence ------------------------------------

  function Min(a: nat, b: nat): nat { if a <= b then a else b }

  function Cost(x: char, y: char): nat { if x == y then 0 else 1 }

  /** The string without its last rune. */
  function Init(s: string): string
    requires s != []
  {
    s[..|s| - 1]
  }

  function Last(s: string): char
    requires s != []
  {
    s[|s| - 1]
  }

  function Lev(a: string, b: string): nat
    decreases |a| + |b|
  {
    if a == [] then |b|
    else if b == [] then |a|
    else Min(Lev(Init(a), b) + 1, Min(Lev(a, Init(b)) + 1, Lev(Init(a), Init(b)) + Cost(Last(a), Last(b))))
  }

  // ----- the distance, by what it means: scripts of single edits -------------

  datatype Edit = Insert(at: nat, ch: char) | Delete(at: nat) | Substitute(at: nat, ch: char)

  predicate Applies(e: Edit, s: string) {
    match e
    case Insert(at, _) => at <= |s|
    case Delete(at) => at < |s|
    case Substitute(at, _) => at < |s|
  }

  function Apply(e: Edit, s: string): string
    requires Applies(e, s)
  {
    match e
    case Insert(at, ch) => s[..at] + [ch] + s[at..]
    case Delete(at) => s[..at] + s[at + 1..]
    case Substitute(at, ch) => s[..at] + [ch] + s[at + 1..]
  }

  /** The script turns `a` into `b`, one edit after the other. */
  predicate Turns(a: string, script: seq<Edit>, b: string)
    decreases |script|
  {
    if script == [] then a == b
    else Applies(script[0], a) && Turns(Apply(script[0], a), script[1..], b)
  }

  lemma ConsConcat(s1: seq<Edit>, s2: seq<Edit>)
    requires s1 != []
    ensures s1 + s2 == [s1[0]] + (s1[1..] + s2)
  {
  }

  lemma EmptyConcat(s2: seq<Edit>)
    ensures [] + s2 == s2
  {
  }

  lemma {:induction false} TurnsConcat(a: string, s1: seq<Edit>, c: string, s2: seq<Edit>, b: string)
    requires Turns(a, s1, c) && Turns(c, s2, b)
    ensures Turns(a, s1 + s2, b)
    decreases |s1|
  {
    if s1 == [] {
      EmptyConcat(s2);
    } else {
      TurnsConcat(Apply(s1[0], a), s1[1..], c, s2, b);
      FirstEdit(a, s1[0], s1[1..] + s2, b);
      ConsConcat(s1, s2);
    }
  }

  /** Edits of a prefix do not disturb what follows it. */
  lemma {:induction false} TurnsFrame(a: string, script: seq<Edit>, b: string, tail: string)
    requires Turns(a, script, b)
    ensures Turns(a + tail, script, b + tail)
    decreases |script|
  {
    if script != [] {
      var e := script[0];
      TurnsFrame(Apply(e, a), script[1..], b, tail);
      ApplyFrame(e, a, tail);
    }
  }

  lemma ApplyFrame(e: Edit, a: string, tail: string)
    requires Applies(e, a)
    ensures Applies(e, a + tail) && Apply(e, a + tail) == Apply(e, a) + tail
  {
    match e
    case Insert(at, ch) => SpliceFrame(a, at, [ch], at, tail);
    case Delete(at) => CutFrame(a, at, tail);
    case Substitute(at, ch) => SpliceFrame(a, at, [ch], at + 1, tail);
  }

  lemma SpliceFrame(a: string, at: nat, mid: string, on: nat, tail: string)
    requires at <= on <= |a|
    ensures (a + tail)[..at] + mid + (a + tail)[on..] == a[..at] + mid + a[on..] + tail
  {
    assert (a + tail)[on..] == a[on..] + tail;
  }

  lemma CutFrame(a: string, at: nat, tail: string)
    requires at < |a|
    ensures (a + tail)[..at] + (a + tail)[at + 1..] == a[..at] + a[at + 1..] + tail
  {
    assert (a + tail)[at + 1..] == a[at + 1..] + tail;
  }

  lemma InitLast(a: string)
    requires a != []
    ensures Init(a) + [Last(a)] == a
  {
  }

  lemma FirstEdit(a: string, e: Edit, rest: seq<Edit>, b: string)
    requires Applies(e, a) && Turns(Apply(e, a), rest, b)
    ensures Turns(a, [e] + rest, b)
  {
    assert ([e] + rest)[1..] == rest;
  }

  lemma AppendLast(a: string, rest: seq<Edit>, b: string) returns (script: seq<Edit>)
    requires b != [] && Turns(a, rest, Init(b))
    ensures Turns(a, script, b) && |script| == |rest| + 1
  {
    TurnsFrame(a, rest, Init(b), [Last(b)]);
    InitLast(b);
    var e := Insert(|a|, Last(b));
    assert Apply(e, a) == a + [Last(b)];
    FirstEdit(a, e, rest, b);
    script := [e] + rest;
  }

  lemma DropLast(a: string, rest: seq<Edit>, b: string) returns (script: seq<Edit>)
    requires a != [] && Turns(Init(a), rest, b)
    ensures Turns(a, script, b) && |script| == |rest| + 1
  {
    var e := Delete(|a| - 1);
    assert Apply(e, a) == Init(a);
    FirstEdit(a, e, rest, b);
    script := [e] + rest;
  }

  lemma ReplaceLast(a: string, rest: seq<Edit>, b: string) returns (script: seq<Edit>)
    requires a != [] && b != [] && Turns(Init(a), rest, Init(b))
    ensures Turns(a, script, b) && |script| == |rest| + Cost(Last(a), Last(b))
  {
    TurnsFrame(Init(a), rest, Init(b), [Last(b)]);
    InitLast(b);
    InitLast(a);
    if Last(a) == Last(b) {
      script := rest;
    } else {
      var e := Substitute(|a| - 1, Last(b));
      assert Apply(e, a) == Init(a) + [Last(b)];
      FirstEdit(a, e, rest, b);
      script := [e] + rest;
    }
  }

  /** Some script reaches `b` in exactly the distance. */
  lemma {:induction false} ScriptOfLength(a: string, b: string) returns (script: seq<Edit>)
    ensures Turns(a, script, b) && |script| == Lev(a, b)
    decreases |a| + |b|
  {
    if a == [] && b == [] {
      script := [];
    } else if a == [] || (b != [] && Lev(a, b) == Lev(a, Init(b)) + 1) {
      var rest := ScriptOfLength(a, Init(b));
      script := AppendLast(a, rest, b);
    } else if b == [] || Lev(a, b) == Lev(Init(a), b) + 1 {
      var rest := ScriptOfLength(Init(a), b);
      script := DropLast(a, rest, b);
    } else {
      var rest := ScriptOfLength(Init(a), Init(b));
      script := ReplaceLast(a, rest, b);
    }
  }

  /** Dropping a last rune moves the distance by at most one. */
  lemma {:induction false} LevInit(a: string, b: string)
    requires a != []
    ensures Lev(Init(a), b) <= Lev(a, b) + 1
    ensures Lev(a, b) <= Lev(Init(a), b) + 1
    decreases |b|
  {
    if b != [] {
      LevInit(a, Init(b));
    }
  }

  lemma {:induction false} LevLast(p: string, x: char, y: char, b: string)
    ensures Lev(p + [x], b) <= Lev(p + [y], b) + 1
    decreases |b|
  {
    assert Init(p + [x]) == p && Init(p + [y]) == p;
    if b != [] {
      LevLast(p, x, y, Init(b));
    }
  }

  /** One edit in the middle moves the distance by at most one: the texts differ only in what
      stands between the prefix `p` and the suffix `s`, at most one rune on each side. */
  lemma {:induction false} LevOneEdit(p: string, x: string, y: string, s: string, b: string)
    requires |x| <= 1 && |y| <= 1
    ensures Lev(p + x + s, b) <= Lev(p + y + s, b) + 1
    decreases |s| + |b|
  {
    if s == [] {
      assert p + x + s == p + x && p + y + s == p + y;
      if x == [] {
        assert p + x == p;
        if y == [] {
          assert p + y == p;
        } else {
          assert Init(p + y) == p;
          LevInit(p + y, b);
        }
      } else if y == [] {
        assert p + y == p && Init(p + x) == p;
        LevInit(p + x, b);
      } else {
        assert x == [x[0]] && y == [y[0]];
        LevLast(p, x[0], y[0], b);
      }
    } else {
      assert Init(p + x + s) == p + x + Init(s) && Init(p + y + s) == p + y + Init(s);
      LevOneEdit(p, x, y, Init(s), b);
      if b != [] {
        LevOneEdit(p, x, y, s, Init(b));
        LevOneEdit(p, x, y, Init(s), Init(b));
      }
    }
  }

  lemma LevApply(a: string, e: Edit, b: string)
    requires Applies(e, a)
    ensures Lev(a, b) <= Lev(Apply(e, a), b) + 1
  {
    match e
    case Insert(at, ch) =>
      assert a == a[..at] + [] + a[at..];
      LevOneEdit(a[..at], [], [ch], a[at..], b);
    case Delete(at) =>
      assert a == a[..at] + [a[at]] + a[at + 1..] && Apply(e, a) == a[..at] + [] + a[at + 1..];
      LevOneEdit(a[..at], [a[at]], [], a[at + 1..], b);
    case Substitute(at, ch) =>
      assert a == a[..at] + [a[at]] + a[at + 1..];
      LevOneEdit(a[..at], [a[at]], [ch], a[at + 1..], b);
  }

  lemma {:induction false} LevSelf(a: string)
    ensures Lev(a, a) == 0
  {
    if a != [] {
      LevSelf(Init(a));
    }
  }

  /** No script is shorter than the distance. */
  lemma {:induction false} NoShorterScript(a: string, script: seq<Edit>, b: string)
    requires Turns(a, script, b)
    ensures Lev(a, b) <= |script|
    decreases |script|
  {
    if script == [] {
      LevSelf(a);
    } else {
      NoShorterScript(Apply(script[0], a), script[1..], b);
      LevApply(a, script[0], b);
    }
  }

  lemma Triangle(a: string, c: string, b: string)
    ensures Lev(a, b) <= Lev(a, c) + Lev(c, b)
  {
    var s1 := ScriptOfLength(a, c);
    var s2 := ScriptOfLength(c, b);
    TurnsConcat(a, s1, c, s2, b);
    NoShorterScript(a, s1 + s2, b);
  }

  lemma {:induction false} Symmetric(a: string, b: string)
    ensures Lev(a, b) == Lev(b, a)
    decreases |a| + |b|
  {
    if a != [] && b != [] {
      Symmetric(Init(a), b);
      Symmetric(a, Init(b));
      Symmetric(Init(a), Init(b));
    }
  }

  lemma {:induction false} ZeroIffEqual(a: string, b: string)
    ensures Lev(a, b) == 0 <==> a == b
  {
    LevSelf(a);
    var script := ScriptOfLength(a, b);
  }

  // ----- the two-row loop ----------------------------------------------------

  /** Entry (i, j) of the table the loop fills, of which it keeps two rows. */
  ghost function Cell(a: string, b: string, i: nat, j: nat): nat
    requires i <= |a| && j <= |b|
  {
    Lev(a[..i], b[..j])
  }

  lemma CellEdges(a: string, b: string, k: nat)
    ensures k <= |a| ==> Cell(a, b, k, 0) == k
    ensures k <= |b| ==> Cell(a, b, 0, k) == k
  {
  }

  lemma CellStep(a: string, b: string, i: nat, j: nat)
    requires 0 < i <= |a| && 0 < j <= |b|
    ensures Cell(a, b, i, j) == Min(Cell(a, b, i - 1, j) + 1,
              Min(Cell(a, b, i, j - 1) + 1, Cell(a, b, i - 1, j - 1) + Cost(a[i - 1], b[j - 1])))
  {
    assert Init(a[..i]) == a[..i - 1] && Init(b[..j]) == b[..j - 1];
  }

  /** The first `n` cells of row `i` are in place. */
  ghost predicate RowFilled(a: string, b: string, i: nat, row: seq<nat>, n: nat)
    requires i <= |a| && n <= |row| == |b| + 1
  {
    forall j: nat {:trigger row[j]} :: j < n ==> row[j] == Cell(a, b, i, j)
  }

  lemma NextCell(a: string, b: string, i: nat, j: nat, above: seq<nat>, row: seq<nat>, row': seq<nat>)
    requires 0 < i <= |a| && 0 < j <= |b| && |above| == |row| == |row'| == |b| + 1
    requires RowFilled(a, b, i - 1, above, |b| + 1) && RowFilled(a, b, i, row, j)
    requires row' == row[j := Min(above[j] + 1, Min(row[j - 1] + 1, above[j - 1] + Cost(a[i - 1], b[j - 1])))]
    ensures RowFilled(a, b, i, row', j + 1)
  {
    CellStep(a, b, i, j);
  }

  method EditDistance(a: string, b: string) returns (d: nat)
    ensures d == Lev(a, b)
  {
    var prev, curr := new nat[|b| + 1](j => j), new nat[|b| + 1](_ => 0);
    forall j: nat | j <= |b| ensures prev[..][j] == Cell(a, b, 0, j) { CellEdges(a, b, j); }
    for i := 1 to |a| + 1
      invariant prev != curr && fresh(prev) && fresh(curr)
      invariant prev.Length == curr.Length == |b| + 1
      invariant RowFilled(a, b, i - 1, prev[..], |b| + 1)
    {
      curr[0] := i;
      CellEdges(a, b, i);
      ghost var above := prev[..];
      for j := 1 to |b| + 1
        invariant prev[..] == above && RowFilled(a, b, i, curr[..], j)
      {
        ghost var row := curr[..];
        var cost := if a[i - 1] == b[j - 1] then 0 else 1;
        curr[j] := Min(prev[j] + 1, Min(curr[j - 1] + 1, prev[j - 1] + cost));
        NextCell(a, b, i, j, above, row, curr[..]);
      }
      prev, curr := curr, prev;
    }
    assert a[..|a|] == a && b[..|b|] == b;
    d := prev[|b|];
    assert prev[..][|b|] == d;
  }

  // ----- the suggestion ------------------------------------------------------

  function Distance(lower: string -> string, written: string, key: string): nat {
    Lev(lower(written), lower(key))
  }

  /** `key` is nearer than `other`, or as near and earlier in string order. */
  predicate Nearer(lower: string -> string, written: string, key: string, other: string) {
    var d, e := Distance(lower, written, key), Distance(lower, written, other);
    d < e || (d == e && !Less(other, key))
  }

  /** The best of the accepted keys: none is nearer, none as near is smaller. */
  ghost predicate Best(lower: string -> string, written: string, keys: seq<string>, best: string) {
    best in keys && forall k :: k in keys ==> Nearer(lower, written, best, k)
  }

  /** Close enough to be worth naming. */
  predicate Close(written: string, d: nat) {
    d <= 3 && d * 2 <= |written|
  }

  /** `lower` stands for strings.ToLower. */
  method NearestKey(lower: string -> string, written: string, keys: seq<string>) returns (key: Option<string>)
    ensures key.Some? ==> Best(lower, written, keys, key.value) && Close(written, Distance(lower, written, key.value))
    ensures key.None? ==> forall k :: k in keys ==> !Close(written, Distance(lower, written, k))
    ensures key.Some? ==>
              var d := Lev(lower(written), lower(key.value));
              && d <= 3 && d * 2 <= |written| && key.value in keys
              && forall k :: k in keys ==>
                   var e := Lev(lower(written), lower(k));
                   d <= e && (d == e && k != key.value ==> Less(key.value, k))
    ensures key.None? ==> forall k :: k in keys ==>
              Lev(lower(written), lower(k)) > 3 || Lev(lower(written), lower(k)) * 2 > |written|
  {
    var best, bestDist := "", -1;
    for n := 0 to |keys|
      invariant bestDist == -1 <==> n == 0
      invariant n > 0 ==> bestDist == Distance(lower, written, best) && Best(lower, written, keys[..n], best)
    {
      var k := keys[n];
      var d := EditDistance(lower(written), lower(k));
      assert keys[..n + 1] == keys[..n] + [k];
      LessTrichotomy(k, best);
      LessTrichotomy(k, k);
      if bestDist == -1 || d < bestDist || (d == bestDist && Less(k, best)) {
        forall other | n > 0 && other in keys[..n] && Less(other, k) && Less(k, best)
          ensures Less(other, best)
        {
          LessTransitive(other, k, best);
        }
        best, bestDist := k, d;
      }
    }
    assert keys[..|keys|] == keys;
    if bestDist < 0 || bestDist > 3 || bestDist * 2 > |written| {
      return None;
    }
    forall k | k in keys && Distance(lower, written, k) == bestDist && k != best ensures Less(best, k) {
      assert Nearer(lower, written, best, k);
      LessTrichotomy(best, k);
    }
    return Some(best);
  }

  /** At most one key is best, so the answer does not depend on the order of the list. */
  lemma BestIsUnique(lower: string -> string, written: string, keys: seq<string>, others: seq<string>, k: string,
                     m: string)
    requires forall x :: x in keys <==> x in others
    requires Best(lower, written, keys, k) && Best(lower, written, others, m)
    ensures k == m
  {
    assert Nearer(lower, written, k, m) && Nearer(lower, written, m, k);
    LessTrichotomy(k, m);
  }
}
