/** Signed A2A messages: sealing, opening, and checking a peer's response
    (internal/a2a/envelope.go, internal/a2a/gate.go). */
module Envelope {
  import opened Wrappers
  import opened SignedJson

  /** An envelope without its signature; `body` is the opaque payload, as the encoder writes it. */
  datatype Envelope = Envelope(from: string, to: string, msgId: string, inReplyTo: string, timestamp: int, body: string)

  datatype Reason = Malformed | BadSignature | UnknownPeer | WrongRecipient | Replay

  /** The encoder writes a JSON body in a spelling of its own, without blanks and with some characters
      escaped, and refuses a body that is not JSON: `spell` is that part of it. The id and the clock
      reading are inputs. */
  function Seal(w: World<Envelope>, spell: string -> Option<string>, signer: Signer, to: string, inReplyTo: string,
                body: string, msgId: string, now: int): Option<string>
  {
    match spell(body)
    case None => None
    case Some(b) => SignedText(w, signer, Envelope(signer.did, to, msgId, inReplyTo, now, b))
  }

  predicate Blank(c: char) {
    c == ' ' || c == '\t' || c == '\r' || c == '\n'
  }

  /** bytes.TrimRight over the four JSON blanks. */
  function TrimRight(s: string): string {
    if s != "" && Blank(s[|s| - 1]) then TrimRight(s[..|s| - 1]) else s
  }

  function Open(w: World<Envelope>, wire: string): Result<Envelope, Reason> {
    match w.parse(wire)
    case None => Err(Malformed)
    case Some((env, sig)) =>
      if env.from == "" || env.to == "" || env.msgId == "" || sig == "" then Err(Malformed)
      else
        match w.publicKey(env.from)
        case None => Err(Malformed)
        case Some(pub) =>
          match CheckSignature(w, pub, TrimRight(wire), sig)
          case Unreadable => Err(Malformed)
          case Forged => Err(BadSignature)
          case Genuine(_) => Ok(env)
  }

  /** What opens, exactly: an envelope whose sender, recipient and id are there, on a wire text that is,
      blanks at its end apart, some bytes with their signature attached, which verifies over them
      under the key the sender names. A wrong signature is told apart from an unreadable message. */
  lemma OpensIff(w: World<Envelope>, wire: string)
    ensures forall env :: Open(w, wire) == Ok(env) <==>
              && w.parse(wire).Some? && w.parse(wire).value.0 == env
              && var sig := w.parse(wire).value.1;
                 && env.from != "" && env.to != "" && env.msgId != "" && sig != ""
                 && w.publicKey(env.from).Some? && w.decode64(sig).Some?
                 && exists u :: Braced(u) && TrimRight(wire) == Attach(u, sig)
                                && w.verify(w.publicKey(env.from).value, u, w.decode64(sig).value)
    ensures Open(w, wire) == Err(BadSignature) <==>
              && w.parse(wire).Some?
              && var (env, sig) := w.parse(wire).value;
                 && env.from != "" && env.to != "" && env.msgId != "" && sig != ""
                 && w.publicKey(env.from).Some? && w.decode64(sig).Some?
                 && exists u :: Braced(u) && TrimRight(wire) == Attach(u, sig)
                                && !w.verify(w.publicKey(env.from).value, u, w.decode64(sig).value)
    ensures Open(w, wire).Err? ==> Open(w, wire).error in {Malformed, BadSignature}
  {
    if w.parse(wire).Some? {
      var sig := w.parse(wire).value.1;
      forall u | Braced(u) && TrimRight(wire) == Attach(u, sig) ensures Detach(TrimRight(wire), sig) == Some(u) {
        DetachAttach(u, sig);
      }
      if Detach(TrimRight(wire), sig).Some? {
        AttachDetach(TrimRight(wire), sig);
      }
    }
  }

  /** The decoder ignores blanks after the object. */
  ghost predicate IgnoresBlanks(w: World<Envelope>) {
    forall s, c {:trigger w.parse(s + [c])} :: Blank(c) ==> w.parse(s + [c]) == w.parse(s)
  }

  ghost predicate AllBlank(s: string) {
    forall c :: c in s ==> Blank(c)
  }

  lemma {:induction false} TrimBlanks(w: World<Envelope>, text: string, blanks: string)
    requires Braced(text) && AllBlank(blanks)
    ensures TrimRight(text + blanks) == text
    ensures IgnoresBlanks(w) ==> w.parse(text + blanks) == w.parse(text)
  {
    if blanks == "" {
      assert text + blanks == text;
    } else {
      var init, c := blanks[..|blanks| - 1], blanks[|blanks| - 1];
      assert c in blanks && forall d :: d in init ==> d in blanks;
      TrimBlanks(w, text, init);
      assert text + blanks == (text + init) + [c];
      assert (text + blanks)[..|text + blanks| - 1] == text + init;
    }
  }

  /** What is sealed opens to what was sealed, its body in the encoder's spelling, with blanks after
      the text or none. So the body arrives byte for byte exactly when it was in that spelling. */
  lemma OpenSeal(w: World<Envelope>, spell: string -> Option<string>, signer: Signer, to: string, inReplyTo: string,
                 body: string, msgId: string, now: int, blanks: string)
    requires Faithful(w) && Honest(w, signer) && IgnoresBlanks(w) && AllBlank(blanks)
    requires to != "" && msgId != "" && spell(body).Some?
    requires Signs(w, signer, Envelope(signer.did, to, msgId, inReplyTo, now, spell(body).value))
    ensures Seal(w, spell, signer, to, inReplyTo, body, msgId, now).Some?
    ensures var got := Open(w, Seal(w, spell, signer, to, inReplyTo, body, msgId, now).value + blanks);
            && got == Ok(Envelope(signer.did, to, msgId, inReplyTo, now, spell(body).value))
            && (got == Ok(Envelope(signer.did, to, msgId, inReplyTo, now, body)) <==> spell(body) == Some(body))
  {
    var env := Envelope(signer.did, to, msgId, inReplyTo, now, spell(body).value);
    SignedTextChecks(w, signer, env);
    var text := SignedText(w, signer, env).value;
    assert Braced(text) by {
      var u := w.marshal(env).value;
      assert text[|text| - 1] == Suffix(w.encode64(signer.sign(u)))[|Suffix(w.encode64(signer.sign(u)))| - 1];
    }
    TrimBlanks(w, text, blanks);
  }

  /** A message of another kind: no base64 text in the place of the signature makes an
      envelope of it. */
  ghost predicate Foreign(w: World<Envelope>, m: string) {
    m != "" ==> forall sig :: w.decode64(sig).Some? && w.parse(Attach(m, sig)).Some? ==>
                  w.parse(Attach(m, sig)).value.0.from == "" || w.parse(Attach(m, sig)).value.0.msgId == ""
  }

  ghost predicate OneOf(w: World<Envelope>, sealed: set<Envelope>, m: string) {
    exists e :: e in sealed && w.marshal(e) == Some(m)
  }

  /** The signer signs, besides messages of other kinds, only the envelopes it seals. */
  ghost predicate SealsOnly(w: World<Envelope>, signer: Signer, sealed: set<Envelope>) {
    OnlySigned(w, signer) && forall m :: signer.signed(m) ==> Foreign(w, m) || OneOf(w, sealed, m)
  }

  /** Opening is sound: every envelope that opens in the name of such a signer is one it sealed. */
  lemma OpenedWasSealed(w: World<Envelope>, signer: Signer, sealed: set<Envelope>, wire: string)
    requires Faithful(w) && IgnoresBlanks(w) && Identified(w, signer) && SealsOnly(w, signer, sealed)
    requires Open(w, wire).Ok? && Open(w, wire).value.from == signer.did
    ensures Open(w, wire).value in sealed
  {
    var (env, sig) := w.parse(wire).value;
    var trimmed := TrimRight(wire);
    var m := CheckSignature(w, signer.key, trimmed, sig).signed;
    TrimmedReadsAlike(w, wire);
    AttachDetach(trimmed, sig);
    assert !Foreign(w, m);
    var e :| e in sealed && w.marshal(e) == Some(m);
    CheckedTextReads(w, signer.key, trimmed, sig, e);
  }

  lemma {:induction false} TrimmedReadsAlike(w: World<Envelope>, wire: string)
    requires IgnoresBlanks(w)
    ensures w.parse(TrimRight(wire)) == w.parse(wire)
  {
    if wire != "" && Blank(wire[|wire| - 1]) {
      var init := wire[..|wire| - 1];
      assert wire == init + [wire[|wire| - 1]];
      TrimmedReadsAlike(w, init);
    }
  }

  /** A response is taken only from the declared peer, for this agent, to this very request. */
  function VerifyResponse(w: World<Envelope>, wire: string, peerDid: string, self: string,
                          requestId: string): Result<Envelope, Reason> {
    match Open(w, wire)
    case Err(reason) => Err(reason)
    case Ok(env) =>
      if env.from != peerDid then Err(UnknownPeer)
      else if env.to != self then Err(WrongRecipient)
      else if env.inReplyTo != requestId then Err(Replay)
      else Ok(env)
  }

  /** Which check refuses a response, and that all of them pass for one that is taken. */
  lemma ResponseTakenIff(w: World<Envelope>, wire: string, peerDid: string, self: string, requestId: string)
    ensures var r, got := VerifyResponse(w, wire, peerDid, self, requestId), Open(w, wire);
            && (got.Err? ==> r == got)
            && (got.Ok? ==>
                  var e := got.value;
                  && (r == Ok(e) <==> e.from == peerDid && e.to == self && e.inReplyTo == requestId)
                  && (r == Err(UnknownPeer) <==> e.from != peerDid)
                  && (r == Err(WrongRecipient) <==> e.from == peerDid && e.to != self)
                  && (r == Err(Replay) <==> e.from == peerDid && e.to == self && e.inReplyTo != requestId))
  {
  }

  /** The reply a peer seals to a request is taken by the agent that made the request. */
  lemma ReplyIsTaken(w: World<Envelope>, spell: string -> Option<string>, peer: Signer, self: string,
                     requestId: string, body: string, msgId: string, now: int)
    requires Faithful(w) && Honest(w, peer) && IgnoresBlanks(w) && self != "" && msgId != "" && spell(body).Some?
    requires Signs(w, peer, Envelope(peer.did, self, msgId, requestId, now, spell(body).value))
    ensures Seal(w, spell, peer, self, requestId, body, msgId, now).Some?
    ensures var wire := Seal(w, spell, peer, self, requestId, body, msgId, now).value;
            VerifyResponse(w, wire, peer.did, self, requestId) ==
              Ok(Envelope(peer.did, self, msgId, requestId, now, spell(body).value))
  {
    OpenSeal(w, spell, peer, self, requestId, body, msgId, now, "");
    var wire := Seal(w, spell, peer, self, requestId, body, msgId, now).value;
    assert wire + "" == wire;
  }

  /** What is taken as a response was sealed by the declared peer, for this agent, for this request. */
  lemma ResponseWasSealed(w: World<Envelope>, peer: Signer, sealed: set<Envelope>, wire: string, self: string,
                          requestId: string)
    requires Faithful(w) && IgnoresBlanks(w) && Identified(w, peer) && SealsOnly(w, peer, sealed)
    requires VerifyResponse(w, wire, peer.did, self, requestId).Ok?
    ensures var e := VerifyResponse(w, wire, peer.did, self, requestId).value;
            e in sealed && e.to == self && e.inReplyTo == requestId
  {
    OpenedWasSealed(w, peer, sealed, wire);
  }
}
