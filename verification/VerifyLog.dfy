/** Re-verifying the decisions of an audit log offline (internal/humangate/verifylog.go). */
module VerifyLog {
  import opened Wrappers
  import opened Decision

  const TERMINAL := "terminal"

  datatype Problem =
    | MalformedEvidence | UnprovenApproval
    | NoOwnField | NoRecordedField | FieldsDisagree
    | NotPinnedKey | NoKey | Truncated | NotAGateEvent | Disagrees(got: Reason)

  datatype Finding = Passed | Unanswered | Verified | Failed(problem: Problem)

  predicate ClaimsUnprovenApproval(e: Entry) {
    e.event.GateApproved? && e.decidedBy != Some(TERMINAL)
  }

  function Agree(own: Option<string>, recorded: string): Option<Problem> {
    if own.None? || own.value == "" then Some(NoOwnField)
    else if recorded == "" then Some(NoRecordedField)
    else if own.value != recorded then Some(FieldsDisagree)
    else None
  }

  function TerminalReason(event: Event): Option<Reason> {
    match event
    case GateApproved => Some(Approved)
    case GateDenied => Some(NotApproved)
    case GateSignatureInvalid => Some(SignatureInvalid)
    case GateRequestIdMismatch => Some(RequestIdMismatch)
    case GateDigestMismatch => Some(DigestMismatch)
    case _ => None
  }

  /** One entry; no pinned key is the empty string. */
  function CheckEntry(c: Crypto, pinned: string, e: Entry): Finding {
    match RecordedDecisionFrom(e)
    case Err(_) => Failed(MalformedEvidence)
    case Ok(None) => if ClaimsUnprovenApproval(e) then Failed(UnprovenApproval) else Passed
    case Ok(Some(rec)) =>
      if rec.response.None? then
        if e.event.GateApproved? then Failed(UnprovenApproval)
        else if e.event.GateTimeout? then Unanswered else Passed
      else CheckRecorded(c, pinned, e, rec, rec.response.value)
  }

  function CheckRecorded(c: Crypto, pinned: string, e: Entry, rec: RecordedDecision, resp: ResponseRecord): Finding {
    var digests := Agree(e.subjectDigest, rec.request.subjectDigest);
    if digests.Some? then Failed(digests.value)
    else
      var tools := Agree(e.tool, rec.request.toolName);
      if tools.Some? then Failed(tools.value)
      else if pinned != "" && rec.approverPubkey != "" && rec.approverPubkey != pinned then Failed(NotPinnedKey)
      else
        var key := if pinned != "" then pinned else rec.approverPubkey;
        if key == "" then Failed(NoKey)
        else if resp.truncated then Failed(Truncated)
        else
          var want := TerminalReason(e.event);
          if want.None? then Failed(NotAGateEvent)
          else
            var got := VerifyDecision(c, key, rec.request.requestId, rec.request.subjectDigest, Wire(resp));
            if got != want.value then Failed(Disagrees(got)) else Verified
  }

  // ----- the report ----------------------------------------------------------

  datatype Report = Report(verified: nat, unanswered: nat, failures: seq<(nat, Problem)>)

  function Count(c: Crypto, pinned: string, entries: seq<Entry>, f: Finding): nat {
    if entries == [] then 0
    else
      var n := |entries| - 1;
      Count(c, pinned, entries[..n], f) + if CheckEntry(c, pinned, entries[n]) == f then 1 else 0
  }

  /** Every failure with its position, counted from one, in the order of the log. */
  function Failures(c: Crypto, pinned: string, entries: seq<Entry>): seq<(nat, Problem)> {
    if entries == [] then []
    else
      var n := |entries| - 1;
      var finding := CheckEntry(c, pinned, entries[n]);
      Failures(c, pinned, entries[..n]) + if finding.Failed? then [(n + 1, finding.problem)] else []
  }

  /** None when a key is pinned that is not a key. Otherwise every entry is counted or listed as
      CheckEntry finds it, the failures in the order of the log. */
  method VerifyDecisions(c: Crypto, entries: seq<Entry>, pinned: string) returns (r: Option<Report>)
    ensures r.None? <==> pinned != "" && !c.isKey(pinned)
    ensures r.Some? ==> r.value == Report(Count(c, pinned, entries, Verified), Count(c, pinned, entries, Unanswered),
                                          Failures(c, pinned, entries))
    ensures r.Some? ==>
              && r.value.verified == |Places(c, pinned, entries, Verified)|
              && r.value.unanswered == |Places(c, pinned, entries, Unanswered)|
              && (forall f :: f in r.value.failures <==>
                    0 < f.0 <= |entries| && CheckEntry(c, pinned, entries[f.0 - 1]) == Failed(f.1))
              && forall a, b :: 0 <= a < b < |r.value.failures| ==> r.value.failures[a].0 < r.value.failures[b].0
  {
    CountIs(c, pinned, entries, Verified);
    CountIs(c, pinned, entries, Unanswered);
    FailuresAre(c, pinned, entries);
    if pinned != "" && !c.isKey(pinned) {
      return None;
    }
    var rep := Report(0, 0, []);
    for i := 0 to |entries|
      invariant rep == Report(Count(c, pinned, entries[..i], Verified), Count(c, pinned, entries[..i], Unanswered),
                              Failures(c, pinned, entries[..i]))
    {
      assert entries[..i + 1][..i] == entries[..i];
      match CheckEntry(c, pinned, entries[i]) {
        case Failed(problem) => rep := rep.(failures := rep.failures + [(i + 1, problem)]);
        case Unanswered => rep := rep.(unanswered := rep.unanswered + 1);
        case Verified => rep := rep.(verified := rep.verified + 1);
        case Passed =>
      }
    }
    assert entries[..|entries|] == entries;
    r := Some(rep);
  }

  lemma {:induction false} NoFailuresMeansAllPass(c: Crypto, pinned: string, entries: seq<Entry>)
    ensures Failures(c, pinned, entries) == [] <==> forall e :: e in entries ==> !CheckEntry(c, pinned, e).Failed?
  {
    if entries != [] {
      var n := |entries| - 1;
      NoFailuresMeansAllPass(c, pinned, entries[..n]);
      assert entries == entries[..n] + [entries[n]];
    }
  }

  // ----- the findings, in the entry's own terms -------------------------------

  /** The key an entry is held to. */
  function KeyFor(pinned: string, e: Entry): string {
    if pinned != "" then pinned else if e.approverPubkey.Some? then e.approverPubkey.value else ""
  }

  /** The response is signed over its own three fields. */
  predicate SignedAnswer(c: Crypto, key: string, r: ResponseRecord) {
    c.isKey(key) && c.verifies(key, r.requestId + "." + r.decision + "." + r.subjectDigest, r.signature)
  }

  /** The entry and its record name one subject and one tool. */
  predicate SameCall(e: Entry)
    requires e.request.Present?
  {
    && e.subjectDigest == Some(e.request.value.subjectDigest) && e.request.value.subjectDigest != ""
    && e.tool == Some(e.request.value.toolName) && e.request.value.toolName != ""
  }

  predicate KeyAgrees(pinned: string, e: Entry) {
    pinned == "" || e.approverPubkey in {None, Some(""), Some(pinned)}
  }

  /** The entry has both records, whole, of one call, and a key to hold them to. */
  predicate Checkable(pinned: string, e: Entry) {
    && e.request.Present? && e.response.Present? && SameCall(e) && KeyAgrees(pinned, e)
    && KeyFor(pinned, e) != "" && !e.response.value.truncated
  }

  /** Verified, exactly: the entry can be checked, and its event is the one the response deserves. An
      approval or a denial is signed over this request and subject, a mismatch names the first field
      that differs, and an invalid signature does not verify. */
  lemma VerifiedIff(c: Crypto, pinned: string, e: Entry)
    ensures CheckEntry(c, pinned, e) == Verified <==>
              && Checkable(pinned, e)
              && var req, resp := e.request.value, e.response.value;
                 var signed := SignedAnswer(c, KeyFor(pinned, e), resp);
                 match e.event
                 case GateApproved =>
                   signed && resp.requestId == req.requestId && resp.subjectDigest == req.subjectDigest
                   && resp.decision == APPROVED
                 case GateDenied =>
                   signed && resp.requestId == req.requestId && resp.subjectDigest == req.subjectDigest
                   && resp.decision != APPROVED
                 case GateSignatureInvalid => !signed
                 case GateRequestIdMismatch => signed && resp.requestId != req.requestId
                 case GateDigestMismatch =>
                   signed && resp.requestId == req.requestId && resp.subjectDigest != req.subjectDigest
                 case _ => false
  {
  }

  /** An entry counts as unanswered exactly if a timeout records a request and no response; and it
      passes without a check exactly if it records no request and claims no approval but the
      terminal's, or a request alone on any other event than an approval. */
  lemma UncheckedIff(c: Crypto, pinned: string, e: Entry)
    ensures CheckEntry(c, pinned, e) == Unanswered <==> e.request.Present? && e.response.Absent? && e.event.GateTimeout?
    ensures CheckEntry(c, pinned, e) == Passed <==>
              || (e.request.Absent? && (e.event.GateApproved? ==> e.decidedBy == Some(TERMINAL)))
              || (e.request.Present? && e.response.Absent? && !e.event.GateApproved? && !e.event.GateTimeout?)
  {
  }

  /** Every other entry fails, for the first reason there is. */
  lemma FailedFor(c: Crypto, pinned: string, e: Entry)
    ensures CheckEntry(c, pinned, e) == Failed(MalformedEvidence) <==>
              e.request.Malformed? || (e.request.Present? && e.response.Malformed?)
    ensures CheckEntry(c, pinned, e) == Failed(UnprovenApproval) <==>
              && e.event.GateApproved?
              && (if e.request.Absent? then e.decidedBy != Some(TERMINAL)
                  else e.request.Present? && e.response.Absent?)
    ensures e.request.Present? && e.response.Present? ==>
              var finding := CheckEntry(c, pinned, e);
              && (!SameCall(e) <==>
                    finding == Failed(NoOwnField) || finding == Failed(NoRecordedField)
                    || finding == Failed(FieldsDisagree))
              && (SameCall(e) && !KeyAgrees(pinned, e) <==> finding == Failed(NotPinnedKey))
              && (SameCall(e) && KeyAgrees(pinned, e) && KeyFor(pinned, e) == "" <==> finding == Failed(NoKey))
              && (SameCall(e) && KeyAgrees(pinned, e) && KeyFor(pinned, e) != "" && e.response.value.truncated
                  <==> finding == Failed(Truncated))
              && (Checkable(pinned, e) && (e.event in {GateTriggered, GateTimeout} || e.event.OtherEvent?)
                  <==> finding == Failed(NotAGateEvent))
  {
  }

  /** The places of the entries with this finding. */
  function Places(c: Crypto, pinned: string, entries: seq<Entry>, f: Finding): set<int> {
    set i | 0 <= i < |entries| && CheckEntry(c, pinned, entries[i]) == f
  }

  lemma PlacesSnoc(c: Crypto, pinned: string, entries: seq<Entry>, n: nat, f: Finding)
    requires n + 1 == |entries|
    ensures n !in Places(c, pinned, entries[..n], f)
    ensures Places(c, pinned, entries, f)
         == Places(c, pinned, entries[..n], f) + if CheckEntry(c, pinned, entries[n]) == f then {n} else {}
  {
    forall i | 0 <= i < n ensures entries[..n][i] == entries[i] {}
  }

  lemma {:induction false} CountIs(c: Crypto, pinned: string, entries: seq<Entry>, f: Finding)
    ensures Count(c, pinned, entries, f) == |Places(c, pinned, entries, f)|
  {
    if entries == [] {
      assert Places(c, pinned, entries, f) == {};
    } else {
      CountIs(c, pinned, entries[..|entries| - 1], f);
      PlacesSnoc(c, pinned, entries, |entries| - 1, f);
    }
  }

  lemma {:induction false} FailuresAre(c: Crypto, pinned: string, entries: seq<Entry>)
    ensures var all := Failures(c, pinned, entries);
            && (forall f :: f in all <==>
                  0 < f.0 <= |entries| && CheckEntry(c, pinned, entries[f.0 - 1]) == Failed(f.1))
            && (forall a, b :: 0 <= a < b < |all| ==> all[a].0 < all[b].0)
  {
    if entries != [] {
      var n := |entries| - 1;
      FailuresAre(c, pinned, entries[..n]);
      var init := Failures(c, pinned, entries[..n]);
      assert forall a :: 0 <= a < |init| ==> init[a] in init;
    }
  }

  // ----- soundness -----------------------------------------------------------

  /** Answered at the keyboard, with no request recorded. */
  predicate Exempt(e: Entry) {
    e.decidedBy == Some(TERMINAL) && e.request.Absent?
  }

  /** The entry holds a signature of `key` over an approval of its own subject, for its own tool. */
  predicate Proven(c: Crypto, key: string, e: Entry) {
    && e.request.Present? && e.response.Present?
    && c.isKey(key)
    && e.subjectDigest.Some? && e.subjectDigest.value != "" && e.tool.Some? && e.tool.value != ""
    && e.request.value.toolName == e.tool.value && e.request.value.subjectDigest == e.subjectDigest.value
    && c.verifies(key, SignedPayload(e.request.value.requestId, APPROVED, e.subjectDigest.value),
                  e.response.value.signature)
  }

  /** What else a recorded approval must be for the check to accept it. */
  predicate Consistent(pinned: string, e: Entry) {
    && e.request.Present? && e.response.Present?
    && e.approverPubkey in {None, Some(""), Some(pinned)}
    && !e.response.value.truncated
    && e.response.value.requestId == e.request.value.requestId
    && e.response.value.decision == APPROVED
    && e.response.value.subjectDigest == e.request.value.subjectDigest
  }

  /** With a pinned key, an approval passes exactly when it is exempt or proven by that key. */
  lemma ApprovalPassesIff(c: Crypto, pinned: string, e: Entry)
    requires pinned != "" && e.event.GateApproved?
    ensures !CheckEntry(c, pinned, e).Failed? <==> Exempt(e) || (Proven(c, pinned, e) && Consistent(pinned, e))
  {
  }

  /** No failures: every call the log says was let through was let through at the terminal, or
      by the pinned approver's signature over that very call. */
  lemma {:induction false} ReportIsSound(c: Crypto, pinned: string, entries: seq<Entry>, e: Entry)
    requires pinned != "" && Failures(c, pinned, entries) == []
    requires e in entries && e.event.GateApproved?
    ensures Exempt(e) || Proven(c, pinned, e)
  {
    NoFailuresMeansAllPass(c, pinned, entries);
    ApprovalPassesIff(c, pinned, e);
  }

  datatype Statement = Statement(requestId: string, decision: string, subjectDigest: string)

  /** The approver's key signs only the approver's statements, none of whose fields holds a period. */
  ghost predicate SignsOnly(c: Crypto, key: string, statements: set<Statement>) {
    && (forall s :: s in statements ==> DotFree(s.requestId, s.decision, s.subjectDigest))
    && (forall text, sig :: c.verifies(key, text, sig) ==>
          exists s :: s in statements && text == SignedPayload(s.requestId, s.decision, s.subjectDigest))
  }

  /** If that key signs nothing but what the approver decided, then an accepted log records no
      webhook approval the approver did not give, for the request and the subject recorded. */
  lemma EveryApprovalWasGiven(c: Crypto, pinned: string, entries: seq<Entry>, e: Entry, statements: set<Statement>)
    requires pinned != "" && Failures(c, pinned, entries) == [] && SignsOnly(c, pinned, statements)
    requires e in entries && e.event.GateApproved?
    ensures Exempt(e)
         || (&& e.request.Present? && e.subjectDigest.Some?
             && Statement(e.request.value.requestId, APPROVED, e.subjectDigest.value) in statements)
  {
    ReportIsSound(c, pinned, entries, e);
    if !Exempt(e) {
      var id, digest := e.request.value.requestId, e.subjectDigest.value;
      var s :| s in statements
            && SignedPayload(id, APPROVED, digest) == SignedPayload(s.requestId, s.decision, s.subjectDigest);
      PayloadNamesOneStatement(s.requestId, s.decision, s.subjectDigest, id, APPROVED, digest);
      assert s == Statement(id, APPROVED, digest);
    }
  }
}
