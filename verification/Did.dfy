/** did:key identifiers of Ed25519 keys and their base58btc text (pkg/did/did.go). Text and
    byte strings are both sequences of bytes, as in Go. */
module Did {
  import opened Positional
  import opened Wrappers

  type Byte = b: nat | b < 256

  const PREFIX: string := "did:key:z"
  const ENCODED_LEN: nat := 47
  const MAX_LEN: nat := |PREFIX| + ENCODED_LEN
  const MULTICODEC: seq<Byte> := [0xed, 0x01]
  const KEY_SIZE: nat := 32
  predicate Rises(s: string, i: nat)
    requires i + 1 < |s|
  {
    s[i] < s[i + 1]
  }

  predicate Rising(s: string) {
    forall i {:trigger Rises(s, i)} :: 0 <= i < |s| - 1 ==> Rises(s, i)
  }

  lemma RisingConcat(a: string, b: string)
    requires Rising(a) && Rising(b) && a != "" && b != "" && a[|a| - 1] < b[0]
    ensures Rising(a + b)
  {
    forall i | 0 <= i < |a + b| - 1 ensures Rises(a + b, i) {
      assert i + 1 < |a| ==> Rises(a, i);
      assert i >= |a| ==> Rises(b, i - |a|);
    }
  }

  lemma PiecesRise()
    ensures Rising("123456789") && Rising("ABCDEFGH") && Rising("JKLMN") && Rising("PQRSTUVWXYZ")
    ensures Rising("abcdefghijk") && Rising("mnopqrstuvwxyz")
  {
  }

  const LETTERS := "123456789" + ("ABCDEFGH" + ("JKLMN" + ("PQRSTUVWXYZ" + ("abcdefghijk" + "mnopqrstuvwxyz"))))

  lemma LettersRise()
    ensures |LETTERS| == 58 && LETTERS[0] == '1' && Rising(LETTERS)
  {
    PiecesRise();
    var small := "abcdefghijk" + "mnopqrstuvwxyz";
    RisingConcat("abcdefghijk", "mnopqrstuvwxyz");
    RisingConcat("PQRSTUVWXYZ", small);
    RisingConcat("JKLMN", "PQRSTUVWXYZ" + small);
    RisingConcat("ABCDEFGH", "JKLMN" + ("PQRSTUVWXYZ" + small));
    RisingConcat("123456789", "ABCDEFGH" + ("JKLMN" + ("PQRSTUVWXYZ" + small)));
  }

  /** 58 characters in ascending order, '1' standing for zero: all the proofs need to know
      about the base58btc alphabet. */
  type Alphabet = s: string | |s| == 58 && s[0] == '1' && Rising(s)
    witness (LettersRise(); LETTERS)

  const ALPHABET: Alphabet := (LettersRise(); LETTERS)

  datatype Error =
    | InputTooLong(len: nat)
    | BadDigit(ch: char, at: nat)
    | DidTooLong(len: nat)
    | BadPrefix
    | BadMulticodec
    | BadKeyLength(len: nat)

  // ----- changing the base of a digit string ---------------------------------

  /** Leading zeros are kept one for one; the rest is rewritten in the other base. */
  function Rebase(from: nat, to: nat, ds: seq<nat>): (es: seq<nat>)
    requires to > 1
    ensures Digits(to, es)
  {
    Zeros(LeadingZeros(ds)) + Write(to, Value(from, ds))
  }

  lemma RebaseInverse(from: nat, to: nat, ds: seq<nat>)
    requires from > 1 && to > 1 && Digits(from, ds)
    ensures Rebase(to, from, Rebase(from, to, ds)) == ds
  {
    var k := LeadingZeros(ds);
    var rest, v := ds[k..], Value(from, ds);
    forall d | d in rest ensures d < from { assert d in ds; }
    LeadingZerosSplit(ds);
    LeadingZerosAddNothing(from, k, rest);
    WriteValue(from, rest);
    LeadingZerosOf(k, Write(to, v));
    LeadingZerosAddNothing(to, k, Write(to, v));
    ValueWrite(to, v);
  }

  // ----- the alphabet --------------------------------------------------------

  function Letters(abc: Alphabet, ds: seq<nat>): (s: string)
    requires Digits(58, ds)
    ensures |s| == |ds|
  {
    seq(|ds|, i requires 0 <= i < |ds| => assert ds[i] in ds; abc[ds[i]])
  }

  /** strings.IndexByte over the alphabet: the first position of `c`, or none. */
  function Index(abc: Alphabet, c: char, from: nat := 0): (i: Option<nat>)
    requires from <= 58
    ensures i.Some? ==> from <= i.value < 58 && abc[i.value] == c
    ensures i.None? ==> forall k :: from <= k < 58 ==> abc[k] != c
    decreases 58 - from
  {
    if from == 58 then None else if abc[from] == c then Some(from) else Index(abc, c, from + 1)
  }

  lemma {:induction false} Ascending(abc: Alphabet, i: nat, j: nat)
    requires i < j < 58
    ensures abc[i] < abc[j]
  {
    assert Rises(abc, j - 1);
    if i < j - 1 {
      Ascending(abc, i, j - 1);
    }
  }

  lemma IndexOfLetter(abc: Alphabet, d: nat)
    requires d < 58
    ensures Index(abc, abc[d]) == Some(d)
  {
    var i := Index(abc, abc[d]).value;
    if i < d {
      Ascending(abc, i, d);
    } else if d < i {
      Ascending(abc, d, i);
    }
  }

  /** The digit values of a text, or its first character outside the alphabet. */
  function Numerals(abc: Alphabet, s: string): (r: Result<seq<nat>, Error>)
    ensures r.Ok? ==> Digits(58, r.value) && Letters(abc, r.value) == s
    ensures r.Ok? ==> forall c :: c in s ==> c in abc
    ensures r.Err? ==> exists c :: c in s && c !in abc
  {
    if s == [] then Ok([])
    else
      var init, last := s[..|s| - 1], s[|s| - 1];
      assert s == init + [last];
      var higher := Numerals(abc, init);
      if higher.Err? then higher
      else if Index(abc, last).None? then
        assert last in s && last !in abc;
        Err(BadDigit(last, |s| - 1))
      else Ok(higher.value + [Index(abc, last).value])
  }

  lemma {:induction false} NumeralsOfLetters(abc: Alphabet, ds: seq<nat>)
    requires Digits(58, ds)
    ensures Numerals(abc, Letters(abc, ds)) == Ok(ds)
  {
    var s := Letters(abc, ds);
    if ds != [] {
      var init, last := ds[..|ds| - 1], ds[|ds| - 1];
      forall d | d in init ensures d < 58 { assert d in ds; }
      assert s[..|s| - 1] == Letters(abc, init);
      NumeralsOfLetters(abc, init);
      assert last in ds;
      IndexOfLetter(abc, last);
      assert ds == init + [last];
    }
  }

  // ----- base58btc -----------------------------------------------------------

  function AsBytes(ds: seq<nat>): (bytes: seq<Byte>)
    requires Digits(256, ds)
    ensures bytes == ds
  {
    assert forall i :: 0 <= i < |ds| ==> ds[i] in ds;
    ds
  }

  function Encode(abc: Alphabet, bytes: seq<Byte>): string {
    Letters(abc, Rebase(256, 58, bytes))
  }

  function Decode(abc: Alphabet, s: string): Result<seq<Byte>, Error> {
    if |s| > ENCODED_LEN then Err(InputTooLong(|s|))
    else
      var ds := Numerals(abc, s);
      if ds.Err? then Err(ds.error) else Ok(AsBytes(Rebase(58, 256, ds.value)))
  }

  /** Decoding undoes encoding, leading zero bytes included. */
  lemma DecodeEncode(abc: Alphabet, bytes: seq<Byte>)
    requires |Encode(abc, bytes)| <= ENCODED_LEN
    ensures Decode(abc, Encode(abc, bytes)) == Ok(bytes)
  {
    NumeralsOfLetters(abc, Rebase(256, 58, bytes));
    RebaseInverse(256, 58, bytes);
  }

  /** Encoding undoes decoding, for every text the decoder accepts; it accepts exactly the
      texts over the alphabet that are short enough. */
  lemma EncodeDecode(abc: Alphabet, s: string)
    ensures Decode(abc, s).Ok? ==> Encode(abc, Decode(abc, s).value) == s
    ensures Decode(abc, s).Ok? <==> |s| <= ENCODED_LEN && forall c :: c in s ==> c in abc
  {
    if |s| <= ENCODED_LEN && Numerals(abc, s).Ok? {
      RebaseInverse(58, 256, Numerals(abc, s).value);
    }
  }

  /** What the decoder refuses, exactly: a text that is too long, or else its first character outside
      the alphabet. */
  lemma DecodeRefusesIff(abc: Alphabet, s: string)
    ensures forall n: nat :: Decode(abc, s) == Err(InputTooLong(n)) <==> |s| > 47 && n == |s|
    ensures forall c, i: nat :: Decode(abc, s) == Err(BadDigit(c, i)) <==>
              && |s| <= 47 && i < |s| && s[i] == c && c !in abc
              && forall j :: 0 <= j < i ==> s[j] in abc
  {
    NumeralsRefuse(abc, s);
  }

  lemma {:induction false} NumeralsRefuse(abc: Alphabet, s: string)
    ensures var r := Numerals(abc, s);
            r.Err? ==>
              && r.error.BadDigit? && r.error.at < |s| && s[r.error.at] == r.error.ch && r.error.ch !in abc
              && forall j :: 0 <= j < r.error.at ==> s[j] in abc
    ensures Numerals(abc, s).Ok? ==> forall j :: 0 <= j < |s| ==> s[j] in abc
  {
    if s != [] {
      NumeralsRefuse(abc, s[..|s| - 1]);
    }
  }

  function Reverse(s: string): string {
    if s == [] then [] else [s[|s| - 1]] + Reverse(s[..|s| - 1])
  }

  lemma LettersConcat(abc: Alphabet, ds: seq<nat>, es: seq<nat>)
    requires Digits(58, ds) && Digits(58, es)
    ensures Digits(58, ds + es) && Letters(abc, ds + es) == Letters(abc, ds) + Letters(abc, es)
  {
  }

  /** One turn of the encoder's division loop. */
  lemma NextDigit(abc: Alphabet, num: nat, digits: string)
    requires num > 0
    ensures Letters(abc, Write(58, num)) + Reverse(digits)
         == Letters(abc, Write(58, num / 58)) + Reverse(digits + [abc[num % 58]])
  {
    Quotient(num, 58);
    LettersConcat(abc, Write(58, num / 58), [num % 58]);
    var longer := digits + [abc[num % 58]];
    assert longer[..|longer| - 1] == digits;
    assert Letters(abc, [num % 58]) == [abc[num % 58]];
  }

  method CountZeros(input: seq<nat>) returns (zeros: nat)
    ensures zeros == LeadingZeros(input)
  {
    zeros := 0;
    while zeros < |input| && input[zeros] == 0
      invariant zeros <= |input|
      invariant LeadingZeros(input) == zeros + LeadingZeros(input[zeros..])
    {
      zeros := zeros + 1;
    }
  }

  function Ones(n: nat): string {
    seq(n, _ => '1')
  }

  method Base58Encode(abc: Alphabet, input: seq<Byte>) returns (s: string)
    ensures s == Encode(abc, input)
  {
    var zeros := CountZeros(input);
    var num := Value(256, input);
    var digits := "";
    while num > 0
      invariant Letters(abc, Write(58, Value(256, input))) == Letters(abc, Write(58, num)) + Reverse(digits)
      decreases num
    {
      NextDigit(abc, num, digits);
      digits := digits + [abc[num % 58]];
      Quotient(num, 58);
      num := num / 58;
    }
    s := Ones(zeros);
    var i := |digits|;
    assert digits[..i] == digits;
    while i > 0
      invariant 0 <= i <= |digits|
      invariant s + Reverse(digits[..i]) == Ones(zeros) + Reverse(digits)
    {
      i := i - 1;
      assert digits[..i + 1][..i] == digits[..i];
      s := s + [digits[i]];
    }
    assert s + Reverse(digits[..0]) == s;
    assert Letters(abc, Write(58, 0)) + Reverse(digits) == Reverse(digits);
    LettersConcat(abc, Zeros(zeros), Write(58, Value(256, input)));
    assert Letters(abc, Zeros(zeros)) == Ones(zeros);
  }

  lemma {:induction false} FirstBadDigit(abc: Alphabet, s: string, i: nat)
    requires i < |s| && Numerals(abc, s[..i]).Ok? && Index(abc, s[i]).None?
    ensures Numerals(abc, s) == Err(BadDigit(s[i], i))
    decreases |s|
  {
    var init := s[..|s| - 1];
    if i < |s| - 1 {
      assert init[..i] == s[..i];
      FirstBadDigit(abc, init, i);
    }
  }

  lemma OnlyZeroIsOne(abc: Alphabet, d: nat)
    requires d < 58
    ensures abc[d] == '1' <==> d == 0
  {
    if d > 0 {
      Ascending(abc, 0, d);
    }
  }

  /** Leading '1's are leading zeros. */
  lemma {:induction false} LeadingOnes(abc: Alphabet, ds: seq<nat>, zeros: nat)
    requires Digits(58, ds) && zeros <= |ds|
    requires forall i :: 0 <= i < zeros ==> Letters(abc, ds)[i] == '1'
    requires zeros < |ds| ==> Letters(abc, ds)[zeros] != '1'
    ensures LeadingZeros(ds) == zeros
  {
    if ds != [] {
      assert ds[0] in ds;
      OnlyZeroIsOne(abc, ds[0]);
      assert Letters(abc, ds)[0] == abc[ds[0]];
      if zeros > 0 {
        var rest := ds[1..];
        forall d | d in rest ensures d < 58 { assert d in ds; }
        assert Letters(abc, rest) == Letters(abc, ds)[1..];
        LeadingOnes(abc, rest, zeros - 1);
      }
    }
  }

  lemma NextNumeral(abc: Alphabet, s: string, i: nat)
    requires i < |s| && Numerals(abc, s[..i]).Ok? && Index(abc, s[i]).Some?
    ensures Numerals(abc, s[..i + 1]) == Ok(Numerals(abc, s[..i]).value + [Index(abc, s[i]).value])
  {
    assert s[..i + 1][..i] == s[..i];
  }

  lemma NextValue(ds: seq<nat>, d: nat)
    ensures Value(58, ds + [d]) == Value(58, ds) * 58 + d
  {
    assert (ds + [d])[..|ds|] == ds;
  }

  method CountOnes(s: string) returns (zeros: nat)
    ensures zeros <= |s| && forall i :: 0 <= i < zeros ==> s[i] == '1'
    ensures zeros < |s| ==> s[zeros] != '1'
  {
    zeros := 0;
    while zeros < |s| && s[zeros] == '1'
      invariant zeros <= |s|
      invariant forall i :: 0 <= i < zeros ==> s[i] == '1'
    {
      zeros := zeros + 1;
    }
  }

  /** The big integer the digits spell, or the first character that is no digit. */
  method ReadNumber(abc: Alphabet, s: string) returns (num: Result<nat, Error>)
    ensures var ds := Numerals(abc, s);
            num == if ds.Err? then Err(ds.error) else Ok(Value(58, ds.value))
  {
    var n := 0;
    for i := 0 to |s|
      invariant Numerals(abc, s[..i]).Ok? && n == Value(58, Numerals(abc, s[..i]).value)
    {
      var v := Index(abc, s[i]);
      if v.None? {
        FirstBadDigit(abc, s, i);
        return Err(BadDigit(s[i], i));
      }
      NextNumeral(abc, s, i);
      NextValue(Numerals(abc, s[..i]).value, v.value);
      n := n * 58;
      n := n + v.value;
    }
    assert s[..|s|] == s;
    num := Ok(n);
  }

  method Base58Decode(abc: Alphabet, s: string) returns (r: Result<seq<Byte>, Error>)
    ensures r == Decode(abc, s)
  {
    if |s| > ENCODED_LEN {
      return Err(InputTooLong(|s|));
    }
    var zeros := CountOnes(s);
    var num := ReadNumber(abc, s);
    if num.Err? {
      return Err(num.error);
    }
    LeadingOnes(abc, Numerals(abc, s).value, zeros);
    r := Ok(AsBytes(Zeros(zeros) + Write(256, num.value)));
  }

  // ----- identifiers ---------------------------------------------------------

  function FromPublicKey(key: seq<Byte>): Result<string, Error> {
    if |key| != KEY_SIZE then Err(BadKeyLength(|key|)) else Ok(PREFIX + Encode(ALPHABET, MULTICODEC + key))
  }

  function PublicKey(did: string): Result<seq<Byte>, Error> {
    if |did| > MAX_LEN then Err(DidTooLong(|did|))
    else if !(PREFIX <= did) then Err(BadPrefix)
    else
      var payload := Decode(ALPHABET, did[|PREFIX|..]);
      if payload.Err? then Err(payload.error)
      else if !(MULTICODEC <= payload.value) then Err(BadMulticodec)
      else
        var key := payload.value[|MULTICODEC|..];
        if |key| != KEY_SIZE then Err(BadKeyLength(|key|)) else Ok(key)
  }

  lemma PowersOf58()
    ensures Pow(58, 46) == 1311256650531604040683918106085433325685010428206934077445436201506164705899577344
    ensures Pow(58, 47) == 76052885730833034359667250152955132889730604836002176491835299687357552942175485952
  {
    assert Pow(58, 1) == 58 && Pow(58, 2) == 3364;
    PowAdd(58, 2, 2);
    PowAdd(58, 4, 1);
    PowAdd(58, 5, 5);
    PowAdd(58, 10, 1);
    assert Pow(58, 11) == 24986644000165537792;
    PowAdd(58, 11, 11);
    PowAdd(58, 22, 1);
    assert Pow(58, 23) == 36211277946678491129762594928113653645312;
    PowAdd(58, 23, 23);
    PowAdd(58, 46, 1);
  }

  lemma PowersOf256()
    ensures Pow(256, 32) == 115792089237316195423570985008687907853269984665640564039457584007913129639936
  {
    assert Pow(256, 1) == 256;
    PowAdd(256, 1, 1);
    PowAdd(256, 2, 2);
    PowAdd(256, 4, 4);
    PowAdd(256, 8, 8);
    assert Pow(256, 16) == 340282366920938463463374607431768211456;
    PowAdd(256, 16, 16);
  }

  lemma ShiftPlace(hi: nat, p: nat, lo: nat, base: nat)
    ensures (hi * p + lo) * base == hi * (p * base) + lo * base
  {
    assert (hi * p) * base == hi * (p * base);
  }

  lemma {:induction false} ValueConcat(base: nat, hi: seq<nat>, lo: seq<nat>)
    ensures Value(base, hi + lo) == Value(base, hi) * Pow(base, |lo|) + Value(base, lo)
  {
    if lo == [] {
      assert hi + lo == hi;
    } else {
      var init := lo[..|lo| - 1];
      assert (hi + lo)[..|hi + lo| - 1] == hi + init;
      ValueConcat(base, hi, init);
      assert (hi + lo)[|hi + lo| - 1] == lo[|lo| - 1];
      ShiftPlace(Value(base, hi), Pow(base, |init|), Value(base, init), base);
    }
  }

  /** Every payload is exactly 47 digits long and has no leading '1'. */
  lemma PayloadLength(key: seq<Byte>)
    requires |key| == KEY_SIZE
    ensures |Encode(ALPHABET, MULTICODEC + key)| == ENCODED_LEN
    ensures Encode(ALPHABET, MULTICODEC + key)[0] != '1'
  {
    var payload: seq<nat> := MULTICODEC + key;
    var n := Value(256, payload);
    ValueConcat(256, MULTICODEC, key);
    ValueBelow(256, key);
    assert Value(256, MULTICODEC) == 0xed01 by {
      assert MULTICODEC[..1] == [0xed];
      assert Value(256, [0xed]) == 0xed;
    }
    PowersOf256();
    PowersOf58();
    DigitCount(58, n, ENCODED_LEN);
    assert payload[0] == 0xed;
    var ds := Write(58, n);
    assert Rebase(256, 58, payload) == ds;
    assert ds[0] in ds;
    OnlyZeroIsOne(ALPHABET, ds[0]);
  }

  lemma PowerOf58()
    ensures Pow(58, 44) == 389790918707373377135528568990913592653094657612049369038476873218241589149696
  {
    assert Pow(58, 1) == 58 && Pow(58, 2) == 3364;
    PowAdd(58, 2, 2);
    PowAdd(58, 4, 1);
    PowAdd(58, 5, 5);
    PowAdd(58, 10, 1);
    assert Pow(58, 11) == 24986644000165537792;
    PowAdd(58, 11, 11);
    PowAdd(58, 22, 22);
  }

  /** The first three of 47 digits, by the size of the number. */
  lemma LeadingDigits(ds: seq<nat>, p: nat)
    requires Digits(58, ds) && |ds| == 47 && p == Pow(58, 44)
    requires 18023 * p <= Value(58, ds) < 18024 * p
    ensures ds[0] == 5 && ds[1] == 20 && ds[2] == 43
  {
    var hi, lo := ds[..3], ds[3..];
    assert hi + lo == ds;
    ValueConcat(58, hi, lo);
    forall d | d in lo ensures d < 58 { assert d in ds; }
    ValueBelow(58, lo);
    OneQuotient(p, Value(58, hi), Value(58, lo), 18023, Value(58, ds) - 18023 * p);
    assert Value(58, hi) == (ds[0] * 58 + ds[1]) * 58 + ds[2] by {
      assert hi[..2][..1] == [ds[0]] && hi[..2] == [ds[0], ds[1]];
      assert Value(58, [ds[0]]) == ds[0];
    }
    assert ds[0] in ds && ds[1] in ds && ds[2] in ds;
  }

  lemma LettersAt()
    ensures ALPHABET[5] == '6' && ALPHABET[20] == 'M' && ALPHABET[43] == 'k'
  {
    var small := "abcdefghijk" + "mnopqrstuvwxyz";
    var big := "PQRSTUVWXYZ" + small;
    assert small[10] == 'k' && big[21] == 'k';
    assert ("JKLMN" + big)[3] == 'M' && ("JKLMN" + big)[26] == 'k';
    assert ("ABCDEFGH" + ("JKLMN" + big))[11] == 'M' && ("ABCDEFGH" + ("JKLMN" + big))[34] == 'k';
  }

  /** Every identifier of an Ed25519 key starts alike, whatever the key. */
  lemma StartsWithZ6Mk(key: seq<Byte>)
    requires |key| == KEY_SIZE
    ensures FromPublicKey(key).Ok? && "did:key:z" + "6Mk" <= FromPublicKey(key).value
  {
    var payload: seq<nat> := MULTICODEC + key;
    PayloadLength(key);
    var ds := Rebase(256, 58, payload);
    PayloadValue(key);
    LeadingDigits(ds, Pow(58, 44));
    LettersAt();
    var text := Encode(ALPHABET, MULTICODEC + key);
    assert text[0] == '6' && text[1] == 'M' && text[2] == 'k';
    assert text[..3] == "6Mk";
  }

  /** Between which multiples of a power of 58 every payload lies. */
  lemma PayloadValue(key: seq<Byte>)
    requires |key| == KEY_SIZE
    ensures var ds := Rebase(256, 58, MULTICODEC + key);
            18023 * Pow(58, 44) <= Value(58, ds) < 18024 * Pow(58, 44)
  {
    var payload: seq<nat> := MULTICODEC + key;
    ValueConcat(256, MULTICODEC, key);
    ValueBelow(256, key);
    assert Value(256, MULTICODEC) == 0xed01 by {
      assert MULTICODEC[..1] == [0xed];
      assert Value(256, [0xed]) == 0xed;
    }
    PowersOf256();
    PowerOf58();
    assert payload[0] == 0xed;
    assert Rebase(256, 58, payload) == Write(58, Value(256, payload));
    ValueWrite(58, Value(256, payload));
  }

  /** The key is recovered from the identifier made of it. */
  lemma KeyRoundTrip(key: seq<Byte>)
    requires |key| == KEY_SIZE
    ensures FromPublicKey(key).Ok?
    ensures |FromPublicKey(key).value| == MAX_LEN
    ensures PublicKey(FromPublicKey(key).value) == Ok(key)
  {
    PayloadLength(key);
    DecodeEncode(ALPHABET, MULTICODEC + key);
    var did := FromPublicKey(key).value;
    assert did[|PREFIX|..] == Encode(ALPHABET, MULTICODEC + key);
    assert (MULTICODEC + key)[..|MULTICODEC|] == MULTICODEC;
  }

  /** An accepted identifier is the one made of the key it holds, so all are 56 bytes long. */
  lemma DidRoundTrip(did: string)
    requires PublicKey(did).Ok?
    ensures FromPublicKey(PublicKey(did).value) == Ok(did)
    ensures |did| == MAX_LEN
  {
    var digits := did[|PREFIX|..];
    EncodeDecode(ALPHABET, digits);
    var key := PublicKey(did).value;
    assert Decode(ALPHABET, digits).value == MULTICODEC + key;
    assert did == PREFIX + digits;
    PayloadLength(key);
  }

  /** Comparing identifiers is comparing keys. */
  lemma DidEqualityIsKeyEquality(d: string, e: string)
    requires PublicKey(d).Ok? && PublicKey(e).Ok?
    ensures d == e <==> PublicKey(d).value == PublicKey(e).value
  {
    DidRoundTrip(d);
    DidRoundTrip(e);
  }
}
