/** A signed gate decision and its record in the audit log (internal/humangate/humangate.go,
    internal/humangate/evidence.go). Strings are byte strings. */
module Decision {
  import opened Strings
  import opened Wrappers

  /** Functions of libraries: which strings are did:key Ed25519 keys; whether a signature in
      base64 verifies over a text; and the text less its broken UTF-8. */
  datatype Crypto = Crypto(isKey: string -> bool, verifies: (string, string, string) -> bool, toValid: string -> string)

  datatype DecisionResponse = DecisionResponse(requestId: string, decision: string, subjectDigest: string,
                                               signature: string, decidedAt: Option<int>)

  datatype Reason = Approved | SignatureInvalid | DigestMismatch | RequestIdMismatch | NotApproved

  const APPROVED := "approved"

  function SignedPayload(requestId: string, decision: string, subjectDigest: string): string {
    requestId + "." + decision + "." + subjectDigest
  }

  /** Verifying a decision: signature first, then request, subject and the answer itself. */
  function VerifyDecision(c: Crypto, key: string, requestId: string, subjectDigest: string,
                          resp: DecisionResponse): Reason {
    if !c.isKey(key) then SignatureInvalid
    else if !c.verifies(key, SignedPayload(resp.requestId, resp.decision, resp.subjectDigest), resp.signature)
    then SignatureInvalid
    else if resp.requestId != requestId then RequestIdMismatch
    else if resp.subjectDigest != subjectDigest then DigestMismatch
    else if resp.decision != APPROVED then NotApproved
    else Approved
  }

  // ----- what a signature is about -------------------------------------------

  function Dots(s: string): nat {
    if s == "" then 0 else Dots(s[..|s| - 1]) + if s[|s| - 1] == '.' then 1 else 0
  }

  lemma {:induction false} DotsAdd(s: string, t: string)
    ensures Dots(s + t) == Dots(s) + Dots(t)
  {
    if t == "" {
      assert s + t == s;
    } else {
      assert (s + t)[..|s + t| - 1] == s + t[..|t| - 1];
      DotsAdd(s, t[..|t| - 1]);
    }
  }

  lemma {:induction false} NoDots(s: string)
    ensures Dots(s) == 0 <==> '.' !in s
  {
    if s != "" {
      NoDots(s[..|s| - 1]);
      assert s == s[..|s| - 1] + [s[|s| - 1]];
    }
  }

  lemma PayloadDots(id: string, decision: string, digest: string)
    ensures Dots(SignedPayload(id, decision, digest)) == Dots(id) + Dots(decision) + Dots(digest) + 2
  {
    assert Dots(".") == 1;
    DotsAdd(id, ".");
    DotsAdd(id + ".", decision);
    DotsAdd(id + "." + decision, ".");
    DotsAdd(id + "." + decision + ".", digest);
  }

  lemma CutAtFirstDot(a: string, b: string, a': string, b': string)
    requires '.' !in a && '.' !in a' && a + "." + b == a' + "." + b'
    ensures a == a' && b == b'
  {
    PositionAt(a, '.', b);
    PositionAt(a', '.', b');
    assert a == (a + "." + b)[..|a|] && b == (a + "." + b)[|a| + 1..];
  }

  lemma PayloadInTwo(id: string, decision: string, digest: string)
    ensures SignedPayload(id, decision, digest) == id + "." + (decision + "." + digest)
  {
  }

  predicate DotFree(id: string, decision: string, digest: string) {
    '.' !in id && '.' !in decision && '.' !in digest
  }

  /** A statement without periods in its fields is the only one with its payload, even among
      statements that do have some. */
  lemma PayloadNamesOneStatement(id: string, decision: string, digest: string,
                                 id': string, decision': string, digest': string)
    requires DotFree(id, decision, digest)
    requires SignedPayload(id, decision, digest) == SignedPayload(id', decision', digest')
    ensures id == id' && decision == decision' && digest == digest'
  {
    PayloadDots(id, decision, digest);
    PayloadDots(id', decision', digest');
    NoDots(id); NoDots(decision); NoDots(digest);
    NoDots(id'); NoDots(decision'); NoDots(digest');
    PayloadInTwo(id, decision, digest);
    PayloadInTwo(id', decision', digest');
    CutAtFirstDot(id, decision + "." + digest, id', decision' + "." + digest');
    CutAtFirstDot(decision, digest, decision', digest');
  }

  // ----- records -------------------------------------------------------------

  const EVIDENCE_FIELD_MAX: nat := 256

  datatype RequestRecord = RequestRecord(requestId: string, agentName: string, toolName: string,
                                         subjectDigest: string, timestamp: int)

  datatype ResponseRecord = ResponseRecord(requestId: string, decision: string, subjectDigest: string,
                                           signature: string, decidedAt: Option<int>, truncated: bool)

  datatype RecordedDecision = RecordedDecision(request: RequestRecord, response: Option<ResponseRecord>,
                                               approverPubkey: string)

  function ClampEvidence(c: Crypto, s: string): (string, bool) {
    if |s| <= EVIDENCE_FIELD_MAX then (s, false) else (c.toValid(s[..EVIDENCE_FIELD_MAX]), true)
  }

  function NewResponseRecord(c: Crypto, resp: DecisionResponse): ResponseRecord {
    var id, decision := ClampEvidence(c, resp.requestId), ClampEvidence(c, resp.decision);
    var digest, sig := ClampEvidence(c, resp.subjectDigest), ClampEvidence(c, resp.signature);
    ResponseRecord(id.0, decision.0, digest.0, sig.0, resp.decidedAt, id.1 || decision.1 || digest.1 || sig.1)
  }

  function Wire(r: ResponseRecord): DecisionResponse {
    DecisionResponse(r.requestId, r.decision, r.subjectDigest, r.signature, r.decidedAt)
  }

  predicate Oversized(resp: DecisionResponse) {
    || |resp.requestId| > EVIDENCE_FIELD_MAX || |resp.decision| > EVIDENCE_FIELD_MAX
    || |resp.subjectDigest| > EVIDENCE_FIELD_MAX || |resp.signature| > EVIDENCE_FIELD_MAX
  }

  /** A record gives the response back unless it says that it cannot. */
  lemma RecordKeepsResponse(c: Crypto, resp: DecisionResponse)
    ensures NewResponseRecord(c, resp).truncated <==> Oversized(resp)
    ensures !Oversized(resp) ==> Wire(NewResponseRecord(c, resp)) == resp
    ensures var r := NewResponseRecord(c, resp);
            && r.requestId == (if |resp.requestId| <= 256 then resp.requestId else c.toValid(resp.requestId[..256]))
            && r.decision == (if |resp.decision| <= 256 then resp.decision else c.toValid(resp.decision[..256]))
            && r.subjectDigest == (if |resp.subjectDigest| <= 256 then resp.subjectDigest
                                   else c.toValid(resp.subjectDigest[..256]))
            && r.signature == (if |resp.signature| <= 256 then resp.signature else c.toValid(resp.signature[..256]))
            && (r.truncated <==> || |resp.requestId| > 256 || |resp.decision| > 256
                                 || |resp.subjectDigest| > 256 || |resp.signature| > 256)
  {
  }

  // ----- audit entries -------------------------------------------------------

  datatype Event =
    | GateTriggered | GateApproved | GateDenied | GateTimeout
    | GateSignatureInvalid | GateRequestIdMismatch | GateDigestMismatch
    | OtherEvent(name: string)

  /** A detail that holds a record: missing, of the wrong shape, or read. */
  datatype Detail<T> = Absent | Malformed | Present(value: T)

  /** An audit entry, as far as decisions go. A string detail that is missing or of another type
      is None. */
  datatype Entry = Entry(event: Event, decidedBy: Option<string>, subjectDigest: Option<string>, tool: Option<string>,
                         request: Detail<RequestRecord>, response: Detail<ResponseRecord>,
                         approverPubkey: Option<string>)

  /** The evidence details of an entry set to what the gate recorded. */
  function WithEvidence(e: Entry, evidence: Option<RecordedDecision>): Entry {
    match evidence
    case None => e.(request := Absent, response := Absent, approverPubkey := None)
    case Some(r) =>
      e.(request := Present(r.request),
         response := if r.response.Some? then Present(r.response.value) else Absent,
         approverPubkey := if r.approverPubkey != "" then Some(r.approverPubkey) else None)
  }

  function RecordedDecisionFrom(e: Entry): Result<Option<RecordedDecision>, string> {
    if e.request.Absent? then Ok(None)
    else if e.request.Malformed? then Err("decision_request is malformed")
    else if e.response.Malformed? then Err("decision_response is malformed")
    else
      Ok(Some(RecordedDecision(e.request.value,
                               if e.response.Present? then Some(e.response.value) else None,
                               if e.approverPubkey.Some? then e.approverPubkey.value else "")))
  }

  /** Evidence written to an entry is read back whole. */
  lemma EvidenceRoundTrip(e: Entry, evidence: Option<RecordedDecision>)
    ensures RecordedDecisionFrom(WithEvidence(e, evidence)) == Ok(evidence)
  {
    if evidence.Some? {
      var r := evidence.value;
      assert r == RecordedDecision(r.request, r.response, r.approverPubkey);
    }
  }
}
