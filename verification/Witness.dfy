/** Worlds that meet every hypothesis of the signed log and of the envelopes at once: encoders that
    encode every record, decoders that read any object, and one signer of both kinds of text. The
    theorems speak of something. */
module Witness {
  import opened Strings
  import opened Wrappers
  import opened SignedJson
  import A = AuditLog
  import T = AuditTheorems
  import E = Envelope

  // ----- an encoding of field lists ------------------------------------------

  function Tally(n: nat): (s: string)
    ensures |s| == n && ',' !in s
  {
    seq(n, _ => '1')
  }

  /** Each field behind its length. */
  function Pack(fields: seq<string>): string {
    if fields == [] then "" else Tally(|fields[0]|) + "," + (fields[0] + Pack(fields[1..]))
  }

  lemma {:induction false} PackInjective(a: seq<string>, b: seq<string>)
    requires |a| == |b| && Pack(a) == Pack(b)
    ensures a == b
    decreases |a|
  {
    if a != [] {
      var m, n := |a[0]|, |b[0]|;
      var x, y := a[0] + Pack(a[1..]), b[0] + Pack(b[1..]);
      PositionAt(Tally(m), ',', x);
      PositionAt(Tally(n), ',', y);
      assert m == n;
      assert x == Pack(a)[m + 1..] == y;
      assert a[0] == x[..m] && b[0] == y[..m];
      assert Pack(a[1..]) == x[m..] && Pack(b[1..]) == y[m..];
      PackInjective(a[1..], b[1..]);
      assert a == [a[0]] + a[1..] && b == [b[0]] + b[1..];
    }
  }

  /** A kind of record: the letter that opens its texts, a list of its fields that loses nothing, and
      what a decoder makes of an object that has none of them. */
  datatype Kind<!R> = Kind(letter: char, fields: R -> seq<string>, blank: R)

  ghost predicate Lossless<R(!new)>(kind: Kind<R>) {
    forall a, b :: |kind.fields(a)| == |kind.fields(b)| && (kind.fields(a) == kind.fields(b) ==> a == b)
  }

  function Text<R>(kind: Kind<R>, r: R): (s: string)
    ensures |s| >= 2 && s[0] == kind.letter && s[|s| - 1] == '}'
  {
    [kind.letter] + Pack(kind.fields(r)) + "}"
  }

  const SIG := "A"

  lemma TextsDiffer<R(!new)>(kind: Kind<R>, a: R, b: R)
    requires Lossless(kind) && Attach(Text(kind, a), SIG) == Attach(Text(kind, b), SIG)
    ensures a == b
  {
    DetachAttach(Text(kind, a), SIG);
    DetachAttach(Text(kind, b), SIG);
    var p, q := Pack(kind.fields(a)), Pack(kind.fields(b));
    assert p == Text(kind, a)[1..|p| + 1] && q == Text(kind, b)[1..|q| + 1];
    PackInjective(kind.fields(a), kind.fields(b));
  }

  /** The record whose signed text this is; any other object is read as a record without fields. */
  ghost function ParseExact<R(!new)>(kind: Kind<R>, t: string): Option<(R, string)> {
    if r: R :| t == Attach(Text(kind, r), SIG) then Some((r, SIG))
    else if Braced(t) then Some((kind.blank, SIG))
    else None
  }

  /** The same, blanks after the text apart. */
  ghost function Parse<R(!new)>(kind: Kind<R>, t: string): Option<(R, string)> {
    ParseExact(kind, E.TrimRight(t))
  }

  ghost function MakeWorld<R(!new)>(kind: Kind<R>, did: string, texts: set<string>): World<R> {
    World(r => Some(Text(kind, r)),
          t => Parse(kind, t),
          _ => SIG,
          x => if x == SIG then Some("s") else None,
          d => if d == did then Some("k") else None,
          (k, m, s) => k == "k" && s == "s" && m in texts,
          t => "h" + t)
  }

  function MakeSigner(did: string, texts: set<string>): Signer {
    Signer(did, "k", _ => "s", m => m in texts)
  }

  lemma SignedTextEnds(text: string)
    requires text != ""
    ensures Braced(Attach(text, SIG)) && E.TrimRight(Attach(text, SIG)) == Attach(text, SIG)
  {
    var t := Attach(text, SIG);
    assert t[|t| - 1] == Suffix(SIG)[|Suffix(SIG)| - 1] == '}';
  }

  lemma ParsesBack<R(!new)>(kind: Kind<R>, r: R)
    requires Lossless(kind)
    ensures Parse(kind, Attach(Text(kind, r), SIG)) == Some((r, SIG))
  {
    var t := Attach(Text(kind, r), SIG);
    SignedTextEnds(Text(kind, r));
    forall a: R | t == Attach(Text(kind, a), SIG) ensures a == r {
      TextsDiffer(kind, a, r);
    }
  }

  /** A text that opens with another letter reads as a record without fields. */
  lemma ParsesBlank<R(!new)>(kind: Kind<R>, text: string)
    requires |text| >= 2 && text[0] != kind.letter
    ensures Parse(kind, Attach(text, SIG)) == Some((kind.blank, SIG))
  {
    SignedTextEnds(text);
    forall a: R ensures Attach(text, SIG) != Attach(Text(kind, a), SIG) {
      assert Attach(text, SIG)[0] == text[0] && Attach(Text(kind, a), SIG)[0] == kind.letter;
    }
  }

  /** Encoding every record, and signing a few texts only, go together. */
  lemma WorldMeets<R(!new)>(kind: Kind<R>, did: string, texts: set<string>)
    requires Lossless(kind) && did != ""
    ensures var w, signer := MakeWorld(kind, did, texts), MakeSigner(did, texts);
            Faithful(w) && Honest(w, signer) && OnlySigned(w, signer)
  {
    forall r: R ensures Parse(kind, Attach(Text(kind, r), SIG)) == Some((r, SIG)) {
      ParsesBack(kind, r);
    }
  }

  // ----- the two kinds -------------------------------------------------------

  const ENTRIES: Kind<A.Entry> :=
    Kind('a', (e: A.Entry) => [e.content, e.did, e.prevHash], A.Entry("", "", ""))

  function Number(t: int): string {
    if t >= 0 then Tally(t) else "-" + Tally(-t)
  }

  lemma NumbersDiffer(a: int, b: int)
    requires Number(a) == Number(b)
    ensures a == b
  {
    if a < 0 { assert Number(a)[0] == '-'; }
    if b < 0 { assert Number(b)[0] == '-'; }
  }

  function EnvelopeFields(e: E.Envelope): seq<string> {
    [e.from, e.to, e.msgId, e.inReplyTo, Number(e.timestamp), e.body]
  }

  const ENVELOPES: Kind<E.Envelope> := Kind('e', EnvelopeFields, E.Envelope("", "", "", "", 0, ""))

  lemma KindsLossless()
    ensures Lossless(ENTRIES) && Lossless(ENVELOPES)
  {
    forall a, b | ENTRIES.fields(a) == ENTRIES.fields(b) ensures a == b {
      var p, q := ENTRIES.fields(a), ENTRIES.fields(b);
      assert p[0] == q[0] && p[1] == q[1] && p[2] == q[2];
    }
    forall a, b | EnvelopeFields(a) == EnvelopeFields(b) ensures a == b {
      var p, q := EnvelopeFields(a), EnvelopeFields(b);
      assert p[0] == q[0] && p[1] == q[1] && p[2] == q[2] && p[3] == q[3] && p[4] == q[4] && p[5] == q[5];
      NumbersDiffer(a.timestamp, b.timestamp);
    }
  }

  /** The first entry of the log of an agent that seals `e`. */
  function FirstEntry(content: string, e: E.Envelope): A.Entry {
    A.Entry(content, e.from, A.GENESIS)
  }

  /** What an agent signed that wrote that entry and sealed that envelope, with one key. */
  function Signed(content: string, e: E.Envelope): set<string> {
    {Text(ENTRIES, FirstEntry(content, e)), Text(ENVELOPES, e)}
  }

  function Agent(content: string, e: E.Envelope): Signer {
    MakeSigner(e.from, Signed(content, e))
  }

  ghost function EntryWorld(content: string, e: E.Envelope): World<A.Entry> {
    MakeWorld(ENTRIES, e.from, Signed(content, e))
  }

  ghost function EnvelopeWorld(content: string, e: E.Envelope): World<E.Envelope> {
    MakeWorld(ENVELOPES, e.from, Signed(content, e))
  }

  // ----- the audit log -------------------------------------------------------

  function FirstLog(content: string, e: E.Envelope): T.Log {
    T.Log([content], [Attach(Text(ENTRIES, FirstEntry(content, e)), SIG)])
  }

  lemma HashIsGood(content: string, e: E.Envelope)
    ensures A.GoodHash(EntryWorld(content, e))
  {
    var w := EntryWorld(content, e);
    forall a, b | w.hash(a) == w.hash(b) ensures a == b {
      assert a == w.hash(a)[1..] && b == w.hash(b)[1..];
    }
    forall a ensures w.hash(a) != A.GENESIS && w.hash(a) != "" {
      assert w.hash(a)[0] == 'h' && A.GENESIS[0] == '0';
    }
  }

  lemma LogIsWritten(content: string, e: E.Envelope)
    requires e.from != ""
    ensures T.Written(EntryWorld(content, e), Agent(content, e), FirstLog(content, e))
  {
    var w, signer, log := EntryWorld(content, e), Agent(content, e), FirstLog(content, e);
    assert A.IsNext(w, signer, content, log.lines, 0);
    assert T.EntryAt(w, signer, log, 0) == FirstEntry(content, e);
  }

  lemma EnvelopeIsForeign(content: string, e: E.Envelope)
    ensures T.Foreign(EntryWorld(content, e), Text(ENVELOPES, e))
    ensures EntryWorld(content, e).parse(Attach(Text(ENVELOPES, e), SIG)).Some?
  {
    ParsesBlank(ENTRIES, Text(ENVELOPES, e));
  }

  lemma EntryIsLogged(content: string, e: E.Envelope)
    requires e.from != ""
    ensures T.InLogs(EntryWorld(content, e), Agent(content, e), [FirstLog(content, e)],
                     Text(ENTRIES, FirstEntry(content, e)))
  {
    var w, signer, logs := EntryWorld(content, e), Agent(content, e), [FirstLog(content, e)];
    LogIsWritten(content, e);
    assert T.EntryAt(w, signer, logs[0], 0) == FirstEntry(content, e);
    assert T.SignedBytes(w, signer, logs[0], 0, Text(ENTRIES, FirstEntry(content, e)));
  }

  lemma NothingElseSigned(content: string, e: E.Envelope)
    requires e.from != "" && OnlySigned(EntryWorld(content, e), Agent(content, e))
    ensures T.Unforgeable(EntryWorld(content, e), Agent(content, e), [FirstLog(content, e)])
  {
    LogIsWritten(content, e);
    EnvelopeIsForeign(content, e);
    EntryIsLogged(content, e);
  }

  /** All that Soundness, SessionsVerify and the other theorems on the log require holds together,
      with an encoder for every entry, of a log of one line with any content, although its signer
      signed an envelope with the same key, which the decoder reads. */
  lemma AuditHypothesesMeet(content: string, e: E.Envelope)
    requires e.from != ""
    ensures var w, signer, log := EntryWorld(content, e), Agent(content, e), FirstLog(content, e);
            && (forall entry :: w.marshal(entry).Some?)
            && A.Trusted(w, signer) && T.Written(w, signer, log) && T.Unforgeable(w, signer, [log])
            && signer.signed(Text(ENVELOPES, e)) && w.parse(Attach(Text(ENVELOPES, e), SIG)).Some?
  {
    KindsLossless();
    WorldMeets(ENTRIES, e.from, Signed(content, e));
    HashIsGood(content, e);
    LogIsWritten(content, e);
    EnvelopeIsForeign(content, e);
    NothingElseSigned(content, e);
  }

  // ----- envelopes -----------------------------------------------------------

  lemma BlankTrimmed(s: string, c: char)
    requires E.Blank(c)
    ensures E.TrimRight(s + [c]) == E.TrimRight(s)
  {
    assert (s + [c])[..|s|] == s;
  }

  lemma BlanksIgnored(content: string, e: E.Envelope)
    ensures E.IgnoresBlanks(EnvelopeWorld(content, e))
  {
    forall s: string, c: char | E.Blank(c) ensures Parse(ENVELOPES, s + [c]) == Parse(ENVELOPES, s) {
      BlankTrimmed(s, c);
    }
  }

  lemma EntryIsForeign(content: string, e: E.Envelope)
    ensures E.Foreign(EnvelopeWorld(content, e), Text(ENTRIES, FirstEntry(content, e)))
    ensures EnvelopeWorld(content, e).parse(Attach(Text(ENTRIES, FirstEntry(content, e)), SIG)).Some?
  {
    ParsesBlank(ENVELOPES, Text(ENTRIES, FirstEntry(content, e)));
  }

  lemma OnlyOneSealed(content: string, e: E.Envelope)
    ensures E.OneOf(EnvelopeWorld(content, e), {e}, Text(ENVELOPES, e))
  {
    assert e in {e};
  }

  lemma OnlyOneSeals(content: string, e: E.Envelope)
    requires OnlySigned(EnvelopeWorld(content, e), Agent(content, e))
    ensures E.SealsOnly(EnvelopeWorld(content, e), Agent(content, e), {e})
    ensures Signs(EnvelopeWorld(content, e), Agent(content, e), e)
  {
    OnlyOneSealed(content, e);
    EntryIsForeign(content, e);
  }

  /** All that OpenSeal, OpenedWasSealed and the theorems on responses require holds together, with
      an encoder for every envelope, of a signer that sealed any one envelope, although it signed a
      log entry with the same key, which the decoder reads. */
  lemma EnvelopeHypothesesMeet(content: string, e: E.Envelope)
    requires e.from != ""
    ensures var w, signer, entry := EnvelopeWorld(content, e), Agent(content, e), Text(ENTRIES, FirstEntry(content, e));
            && (forall x :: w.marshal(x).Some?)
            && Faithful(w) && Honest(w, signer) && E.IgnoresBlanks(w) && E.SealsOnly(w, signer, {e})
            && Signs(w, signer, e)
            && signer.signed(entry) && w.parse(Attach(entry, SIG)).Some?
  {
    KindsLossless();
    WorldMeets(ENVELOPES, e.from, Signed(content, e));
    BlanksIgnored(content, e);
    EntryIsForeign(content, e);
    OnlyOneSeals(content, e);
  }
}
