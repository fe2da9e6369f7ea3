/** The order of Go strings, and splitting and joining at a separator. */
module Strings {

  /** `a < b` on strings: the first difference decides, and a proper prefix is smaller. */
  predicate Less(a: string, b: string) {
    b != [] && (a == [] || a[0] < b[0] || (a[0] == b[0] && Less(a[1..], b[1..])))
  }

  /** `a` and `b` first differ at `k`, where `a` has the smaller character. */
  predicate SmallerAt(a: string, b: string, k: nat) {
    k < |a| && k < |b| && a[..k] == b[..k] && a[k] < b[k]
  }

  lemma SmallerAtTail(a: string, b: string, k: nat)
    requires a != [] && b != [] && a[0] == b[0]
    ensures SmallerAt(a, b, k + 1) <==> SmallerAt(a[1..], b[1..], k)
  {
    if k < |a| - 1 && k < |b| - 1 {
      assert a[..k + 1] == [a[0]] + a[1..][..k] && b[..k + 1] == [b[0]] + b[1..][..k];
    }
  }

  /** The same order, by the place of the first difference. */
  lemma {:induction false} LessIff(a: string, b: string)
    ensures Less(a, b) <==> (a <= b && a != b) || exists k: nat :: SmallerAt(a, b, k)
  {
    if a != [] && b != [] {
      if a[0] == b[0] {
        LessIff(a[1..], b[1..]);
        forall k: nat ensures SmallerAt(a, b, k + 1) <==> SmallerAt(a[1..], b[1..], k) {
          SmallerAtTail(a, b, k);
        }
        assert forall k: nat :: SmallerAt(a, b, k) ==> k > 0 && SmallerAt(a[1..], b[1..], k - 1);
        assert a == [a[0]] + a[1..] && b == [b[0]] + b[1..];
      } else {
        assert SmallerAt(a, b, 0) <==> a[0] < b[0];
        assert forall k: nat :: SmallerAt(a, b, k) ==> k == 0;
      }
    }
  }

  lemma {:induction false} LessTransitive(a: string, b: string, c: string)
    requires Less(a, b) && Less(b, c)
    ensures Less(a, c)
  {
    if a != [] && a[0] == b[0] == c[0] {
      LessTransitive(a[1..], b[1..], c[1..]);
    }
  }

  lemma {:induction false} LessTrichotomy(a: string, b: string)
    ensures Less(a, b) || Less(b, a) || a == b
    ensures !(Less(a, b) && Less(b, a))
    ensures a == b ==> !Less(a, b)
  {
    if a != [] && b != [] && a[0] == b[0] {
      LessTrichotomy(a[1..], b[1..]);
      assert a == [a[0]] + a[1..] && b == [b[0]] + b[1..];
    }
  }

  /** Pieces of `s` between separators: one more piece than there are separators. */
  function Split(s: string, sep: char): (pieces: seq<string>)
    ensures |pieces| > 0
    ensures forall p :: p in pieces ==> sep !in p
    ensures Join(pieces, sep) == s
  {
    if s == [] then [[]]
    else
      var rest := Split(s[1..], sep);
      if s[0] == sep then [[]] + rest
      else
        assert rest[0] in rest;
        var pieces := [[s[0]] + rest[0]] + rest[1..];
        assert forall p :: p in rest[1..] ==> p in rest;
        assert s == [s[0]] + s[1..];
        pieces
  }

  function Join(pieces: seq<string>, sep: char): (s: string)
    requires |pieces| > 0
  {
    if |pieces| == 1 then pieces[0] else pieces[0] + [sep] + Join(pieces[1..], sep)
  }

  /** Splitting undoes joining for pieces that hold no separator. */
  lemma {:induction false} SplitJoin(pieces: seq<string>, sep: char)
    requires |pieces| > 0
    requires forall p :: p in pieces ==> sep !in p
    ensures Split(Join(pieces, sep), sep) == pieces
    decreases |pieces|, |pieces[0]|
  {
    var s := Join(pieces, sep);
    if pieces[0] == [] {
      if |pieces| > 1 {
        assert s[0] == sep && s[1..] == Join(pieces[1..], sep);
        SplitJoin(pieces[1..], sep);
        assert pieces == [[]] + pieces[1..];
      }
    } else {
      var shorter := [pieces[0][1..]] + pieces[1..];
      assert shorter[1..] == pieces[1..];
      assert s == [pieces[0][0]] + Join(shorter, sep);
      assert pieces[0] in pieces;
      SplitJoin(shorter, sep);
      assert s[1..] == Join(shorter, sep);
      assert [s[0]] + shorter[0] == pieces[0];
      assert pieces == [pieces[0]] + shorter[1..];
    }
  }

  /** Where `c` first is, or the length of the string. */
  function Position(s: string, c: char): (i: nat)
    ensures i <= |s|
  {
    if s == "" || s[0] == c then 0 else 1 + Position(s[1..], c)
  }

  lemma {:induction false} PositionAt(before: string, c: char, after: string)
    requires c !in before
    ensures Position(before, c) == Position(before + [c] + after, c) == |before|
  {
    if before != "" {
      PositionAt(before[1..], c, after);
      assert before[0] in before;
      assert (before + [c] + after)[1..] == before[1..] + [c] + after;
    }
  }

  lemma {:induction false} JoinConcat(p: seq<string>, q: seq<string>, sep: char)
    requires |p| > 0 && |q| > 0
    ensures Join(p + q, sep) == Join(p, sep) + [sep] + Join(q, sep)
    decreases |p|
  {
    if |p| == 1 {
      assert (p + q)[1..] == q;
    } else {
      JoinConcat(p[1..], q, sep);
      assert (p + q)[1..] == p[1..] + q;
    }
  }

  /** A separator splits what is before it from what is after. */
  lemma SplitConcat(a: string, sep: char, b: string)
    ensures Split(a + [sep] + b, sep) == Split(a, sep) + Split(b, sep)
  {
    var pieces := Split(a, sep) + Split(b, sep);
    JoinConcat(Split(a, sep), Split(b, sep), sep);
    SplitJoin(pieces, sep);
  }

  lemma {:induction false} SplitSingle(s: string, sep: char)
    requires sep !in s
    ensures Split(s, sep) == [s]
  {
    if s != [] {
      assert s[0] in s;
      SplitSingle(s[1..], sep);
      assert s == [s[0]] + s[1..];
    }
  }
}
