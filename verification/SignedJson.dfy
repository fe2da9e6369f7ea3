/** The signing convention that audit entries and A2A envelopes share: the signature is the last
    member of the JSON object, and covers the object's bytes without that member. What JSON,
    base64, the hash and the signature scheme do is a parameter, with its hypotheses named here. */
module SignedJson {
  import opened Wrappers

  /** The encodings and the cryptography that signed texts of records `R` rest on. */
  datatype World<!R> = World(
    /** The encoder's text of a record without its signature; some records cannot be encoded. */
    marshal: R -> Option<string>,
    /** The decoder's reading of a text: a record, and its "sig" member ("" when absent). */
    parse: string -> Option<(R, string)>,
    encode64: string -> string,
    decode64: string -> Option<string>,
    publicKey: string -> Option<string>,
    verify: (string, string, string) -> bool,
    hash: string -> string)

  /** An identity that signs: its DID, the key that DID names, its private signing function, and
      which texts its holder ever signs. */
  datatype Signer = Signer(did: string, key: string, sign: string -> string, signed: string -> bool)

  function Suffix(sig: string): string {
    ",\"sig\":\"" + sig + "\"}"
  }

  /** The text with a signature as its last member. */
  function Attach(unsigned: string, sig: string): string
    requires unsigned != ""
  {
    unsigned[..|unsigned| - 1] + Suffix(sig)
  }

  lemma AttachIs(unsigned: string, sig: string)
    requires unsigned != ""
    ensures Attach(unsigned, sig) == unsigned[..|unsigned| - 1] + ",\"sig\":\"" + sig + "\"}"
  {
  }

  /** The bytes the signature covers, recovered from the text: the suffix goes, the brace returns. */
  function Detach(text: string, sig: string): Option<string> {
    var keep := |text| - |Suffix(sig)|;
    if keep >= 0 && text[keep..] == Suffix(sig) then Some(text[..keep] + "}") else None
  }

  predicate Braced(s: string) {
    s != "" && s[|s| - 1] == '}'
  }

  /** Recovery is exact, byte for byte. */
  lemma DetachAttach(unsigned: string, sig: string)
    requires Braced(unsigned)
    ensures Detach(Attach(unsigned, sig), sig) == Some(unsigned)
  {
    var body := unsigned[..|unsigned| - 1];
    assert Attach(unsigned, sig)[|body|..] == Suffix(sig);
    assert Attach(unsigned, sig)[..|body|] == body;
    assert body + "}" == unsigned;
  }

  lemma AttachDetach(text: string, sig: string)
    requires Detach(text, sig).Some?
    ensures Braced(Detach(text, sig).value) && Attach(Detach(text, sig).value, sig) == text
  {
    var u := Detach(text, sig).value;
    assert u[..|u| - 1] + Suffix(sig) == text;
  }

  // ----- hypotheses ----------------------------------------------------------

  /** JSON objects end with a brace; the decoder reads back what the encoder wrote, signed; and
      with another base64 text in the place of the signature it reads that, if it reads anything. */
  ghost predicate Faithful<R(!new)>(w: World<R>) {
    && (forall f :: w.marshal(f).Some? ==> Braced(w.marshal(f).value))
    && (forall f, b :: w.marshal(f).Some? ==>
          w.parse(Attach(w.marshal(f).value, w.encode64(b))) == Some((f, w.encode64(b))))
    && (forall f, s :: w.marshal(f).Some? && w.decode64(s).Some? && w.parse(Attach(w.marshal(f).value, s)).Some? ==>
          w.parse(Attach(w.marshal(f).value, s)) == Some((f, s)))
  }

  /** The DID names the key. */
  ghost predicate Identified<R>(w: World<R>, signer: Signer) {
    signer.did != "" && w.publicKey(signer.did) == Some(signer.key)
  }

  /** The signatures the signer gives verify under the key its DID names, and survive base64. */
  ghost predicate Honest<R>(w: World<R>, signer: Signer) {
    && Identified(w, signer)
    && forall m :: signer.signed(m) ==>
         && w.verify(signer.key, m, signer.sign(m))
         && w.encode64(signer.sign(m)) != ""
         && w.decode64(w.encode64(signer.sign(m))) == Some(signer.sign(m))
  }

  /** What verifies under the signer's key is what the signer signed. */
  ghost predicate OnlySigned<R>(w: World<R>, signer: Signer) {
    forall m, s :: w.verify(signer.key, m, s) ==> signer.signed(m)
  }

  /** The record can be encoded, and the signer signs its encoding. */
  predicate Signs<R>(w: World<R>, signer: Signer, record: R) {
    w.marshal(record).Some? && signer.signed(w.marshal(record).value)
  }

  /** The text of a record, signed. */
  function SignedText<R>(w: World<R>, signer: Signer, record: R): Option<string> {
    match w.marshal(record)
    case Some(u) => if u == "" then None else Some(Attach(u, w.encode64(signer.sign(u))))
    case None => None
  }

  /** What every verifier does once it has read a text and knows the key: take the signed bytes
      back out and check the signature over them. */
  datatype Check = Unreadable | Forged | Genuine(signed: string)

  function CheckSignature<R>(w: World<R>, key: string, text: string, sig: string): Check {
    match (w.decode64(sig), Detach(text, sig))
    case (Some(bytes), Some(u)) => if w.verify(key, u, bytes) then Genuine(u) else Forged
    case _ => Unreadable
  }

  /** A text the signer produced is read back exactly, and checks. */
  lemma SignedTextChecks<R(!new)>(w: World<R>, signer: Signer, record: R)
    requires Faithful(w) && Honest(w, signer) && Signs(w, signer, record)
    ensures SignedText(w, signer, record).Some?
    ensures var text := SignedText(w, signer, record).value;
            && w.parse(text).Some?
            && w.parse(text).value.0 == record
            && w.parse(text).value.1 != ""
            && CheckSignature(w, signer.key, text, w.parse(text).value.1) == Genuine(w.marshal(record).value)
  {
    var u := w.marshal(record).value;
    DetachAttach(u, w.encode64(signer.sign(u)));
  }

  /** A text that checks against bytes the signer encoded for a record is read as that record. */
  lemma CheckedTextReads<R(!new)>(w: World<R>, key: string, text: string, sig: string, record: R)
    requires Faithful(w) && w.marshal(record).Some? && w.parse(text).Some?
    requires CheckSignature(w, key, text, sig) == Genuine(w.marshal(record).value)
    ensures w.parse(text) == Some((record, sig))
  {
    AttachDetach(text, sig);
  }
}
