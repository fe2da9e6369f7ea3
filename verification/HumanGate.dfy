/** Deciding a gate and recording it: the webhook and race approvers and `runGate`
    (internal/mcpgate/webhook_approver.go, race_approver.go, gate.go). */
module HumanGate {
  import opened Wrappers
  import opened Decision
  import opened VerifyLog

  const WEBHOOK := "webhook"

  datatype Choice = ChoseNone | ChoseApproved | ChoseDenied

  /** `event` replaces the default terminal event; an empty `decidedBy` means the terminal. */
  datatype Outcome = Outcome(choice: Choice, event: Option<Event>, decidedBy: string,
                             evidence: Option<RecordedDecision>)

  // ----- the webhook approver ------------------------------------------------

  /** One round of the polling loop: whether the post went through, if one is made, and what the
      decision endpoint answered. */
  datatype Round = Round(delivered: bool, answer: Option<DecisionResponse>)

  function FirstAnswer(rounds: seq<Round>): Option<DecisionResponse> {
    if rounds == [] then None
    else if rounds[0].answer.Some? then rounds[0].answer
    else FirstAnswer(rounds[1..])
  }

  lemma {:induction false} FirstAnswerIs(rounds: seq<Round>)
    ensures (forall r :: r in rounds ==> r.answer.None?) ==> FirstAnswer(rounds).None?
    ensures forall k :: 0 <= k < |rounds| && rounds[k].answer.Some?
                        && (forall j :: 0 <= j < k ==> rounds[j].answer.None?)
              ==> FirstAnswer(rounds) == rounds[k].answer
  {
    if rounds != [] {
      FirstAnswerIs(rounds[1..]);
      assert forall r :: r in rounds[1..] ==> r in rounds;
      assert rounds[0] in rounds;
      forall k | 0 < k < |rounds| && rounds[k].answer.Some? && (forall j :: 0 <= j < k ==> rounds[j].answer.None?)
        ensures FirstAnswer(rounds) == rounds[k].answer
      {
        assert rounds[1..][k - 1] == rounds[k];
        assert forall j :: 0 <= j < k - 1 ==> rounds[1..][j] == rounds[j + 1];
      }
    }
  }

  /** Whether a post gets through before the first answer is read. */
  predicate GetsThrough(rounds: seq<Round>) {
    rounds != [] && (rounds[0].delivered || (rounds[0].answer.None? && GetsThrough(rounds[1..])))
  }

  lemma {:induction false} GetsThroughIff(rounds: seq<Round>)
    ensures GetsThrough(rounds) <==>
              exists k :: 0 <= k < |rounds| && rounds[k].delivered && forall j :: 0 <= j < k ==> rounds[j].answer.None?
  {
    if rounds != [] {
      var rest := rounds[1..];
      GetsThroughIff(rest);
      if k :| 0 <= k < |rest| && rest[k].delivered && forall j :: 0 <= j < k ==> rest[j].answer.None? {
        if rounds[0].answer.None? {
          forall j | 0 <= j < k + 1 ensures rounds[j].answer.None? {
            assert j > 0 ==> rest[j - 1] == rounds[j];
          }
          assert rounds[k + 1].delivered;
        }
      }
      if k :| 0 < k < |rounds| && rounds[k].delivered && forall j :: 0 <= j < k ==> rounds[j].answer.None? {
        assert rest[k - 1].delivered && forall j :: 0 <= j < k - 1 ==> rest[j] == rounds[j + 1];
      }
    }
  }

  function EventFor(reason: Reason): Option<Event> {
    match reason
    case SignatureInvalid => Some(GateSignatureInvalid)
    case RequestIdMismatch => Some(GateRequestIdMismatch)
    case DigestMismatch => Some(GateDigestMismatch)
    case _ => None
  }

  /** The outcome of an answer: whatever it says is kept as evidence. */
  function Judged(c: Crypto, key: string, record: RequestRecord, resp: DecisionResponse): Outcome {
    var reason := VerifyDecision(c, key, record.requestId, record.subjectDigest, resp);
    Outcome(if reason.Approved? then ChoseApproved else ChoseDenied, EventFor(reason), WEBHOOK,
            Some(RecordedDecision(record, Some(NewResponseRecord(c, resp)), key)))
  }

  function Unjudged(key: string, record: RequestRecord): Outcome {
    Outcome(ChoseNone, None, "", Some(RecordedDecision(record, None, key)))
  }

  const REFUSED_UNASKED := Outcome(ChoseDenied, None, WEBHOOK, None)

  /** The answer is signed with the approver's key over its own fields. */
  predicate Signed(c: Crypto, key: string, resp: DecisionResponse) {
    c.isKey(key) && c.verifies(key, SignedPayload(resp.requestId, resp.decision, resp.subjectDigest), resp.signature)
  }

  /** Approval needs a signature over an approval of this very request and subject; each failed
      check has its event; and the evidence keeps the answer, whole unless it says otherwise. */
  method Verify(c: Crypto, key: string, record: RequestRecord, resp: DecisionResponse) returns (out: Outcome)
    ensures out.choice == ChoseApproved
       <==> && c.isKey(key)
            && c.verifies(key, SignedPayload(record.requestId, APPROVED, record.subjectDigest), resp.signature)
            && resp.requestId == record.requestId && resp.decision == APPROVED
            && resp.subjectDigest == record.subjectDigest
    ensures out.choice != ChoseNone && out.decidedBy == WEBHOOK
    ensures out.event == Some(GateSignatureInvalid) <==> !Signed(c, key, resp)
    ensures out.event == Some(GateRequestIdMismatch) <==> Signed(c, key, resp) && resp.requestId != record.requestId
    ensures out.event == Some(GateDigestMismatch)
       <==> Signed(c, key, resp) && resp.requestId == record.requestId && resp.subjectDigest != record.subjectDigest
    ensures out.event == None
       <==> Signed(c, key, resp) && resp.requestId == record.requestId && resp.subjectDigest == record.subjectDigest
    ensures out.evidence == Some(RecordedDecision(record, Some(NewResponseRecord(c, resp)), key))
    ensures out.evidence.value.response.value.truncated <==> Oversized(resp)
    ensures !Oversized(resp) ==> Wire(out.evidence.value.response.value) == resp
  {
    RecordKeepsResponse(c, resp);
    var reason := VerifyDecision(c, key, record.requestId, record.subjectDigest, resp);
    out := Outcome(ChoseDenied, None, WEBHOOK, Some(RecordedDecision(record, Some(NewResponseRecord(c, resp)), key)));
    if reason == Approved {
      out := out.(choice := ChoseApproved);
    } else if reason == SignatureInvalid {
      out := out.(event := Some(GateSignatureInvalid));
    } else if reason == RequestIdMismatch {
      out := out.(event := Some(GateRequestIdMismatch));
    } else if reason == DigestMismatch {
      out := out.(event := Some(GateDigestMismatch));
    }
  }

  /** Polls through `rounds`, after which the context is done. `buildable` says whether the request
      body can be encoded; an absent digest is the empty string. */
  method DecideByWebhook(c: Crypto, key: string, record: RequestRecord, buildable: bool, rounds: seq<Round>)
    returns (out: Outcome, delivered: nat)
    ensures out == if record.subjectDigest == "" || !buildable then REFUSED_UNASKED
                   else if FirstAnswer(rounds).Some? then Judged(c, key, record, FirstAnswer(rounds).value)
                   else Unjudged(key, record)
    ensures delivered == if record.subjectDigest != "" && buildable && GetsThrough(rounds) then 1 else 0
    ensures delivered <= 1 && (delivered == 1 <==>
              && record.subjectDigest != "" && buildable
              && exists k :: 0 <= k < |rounds| && rounds[k].delivered
                             && forall j :: 0 <= j < k ==> rounds[j].answer.None?)
    ensures record.subjectDigest == "" || !buildable ==> out == Outcome(ChoseDenied, None, WEBHOOK, None)
    ensures record.subjectDigest != "" && buildable && (forall r :: r in rounds ==> r.answer.None?) ==>
              out == Outcome(ChoseNone, None, "", Some(RecordedDecision(record, None, key)))
    ensures record.subjectDigest != "" && buildable ==>
              forall k :: 0 <= k < |rounds| && rounds[k].answer.Some?
                          && (forall j :: 0 <= j < k ==> rounds[j].answer.None?)
                ==> out == Judged(c, key, record, rounds[k].answer.value)
  {
    FirstAnswerIs(rounds);
    GetsThroughIff(rounds);
    delivered := 0;
    if record.subjectDigest == "" || !buildable {
      return REFUSED_UNASKED, 0;
    }
    var posted := false;
    for i := 0 to |rounds|
      invariant FirstAnswer(rounds) == FirstAnswer(rounds[i..])
      invariant delivered == if posted then 1 else 0
      invariant GetsThrough(rounds) <==> posted || GetsThrough(rounds[i..])
    {
      assert rounds[i..][0] == rounds[i] && rounds[i..][1..] == rounds[i + 1..];
      if !posted && rounds[i].delivered {
        posted, delivered := true, delivered + 1;
      }
      if rounds[i].answer.Some? {
        out := Verify(c, key, record, rounds[i].answer.value);
        return;
      }
    }
    out := Unjudged(key, record);
  }

  // ----- the race ------------------------------------------------------------

  function FirstDecided(results: seq<Outcome>): Option<Outcome> {
    if results == [] then None
    else if results[0].choice != ChoseNone then Some(results[0])
    else FirstDecided(results[1..])
  }

  function FirstEvidence(results: seq<Outcome>): Option<RecordedDecision> {
    if results == [] then None
    else if results[0].evidence.Some? then results[0].evidence
    else FirstEvidence(results[1..])
  }

  lemma {:induction false} FirstDecidedIs(results: seq<Outcome>)
    ensures (forall o :: o in results ==> o.choice == ChoseNone) ==> FirstDecided(results).None?
    ensures forall k :: 0 <= k < |results| && results[k].choice != ChoseNone
                        && (forall j :: 0 <= j < k ==> results[j].choice == ChoseNone)
              ==> FirstDecided(results) == Some(results[k])
  {
    if results != [] {
      FirstDecidedIs(results[1..]);
      assert results[0] in results && forall o :: o in results[1..] ==> o in results;
      forall k | 0 < k < |results| && results[k].choice != ChoseNone
                 && (forall j :: 0 <= j < k ==> results[j].choice == ChoseNone)
        ensures FirstDecided(results) == Some(results[k])
      {
        assert results[1..][k - 1] == results[k];
        assert forall j :: 0 <= j < k - 1 ==> results[1..][j] == results[j + 1];
      }
    }
  }

  lemma {:induction false} FirstEvidenceIs(results: seq<Outcome>)
    ensures (forall o :: o in results ==> o.evidence.None?) ==> FirstEvidence(results).None?
    ensures forall k :: 0 <= k < |results| && results[k].evidence.Some?
                        && (forall j :: 0 <= j < k ==> results[j].evidence.None?)
              ==> FirstEvidence(results) == results[k].evidence
  {
    if results != [] {
      FirstEvidenceIs(results[1..]);
      assert results[0] in results && forall o :: o in results[1..] ==> o in results;
      forall k | 0 < k < |results| && results[k].evidence.Some?
                 && (forall j :: 0 <= j < k ==> results[j].evidence.None?)
        ensures FirstEvidence(results) == results[k].evidence
      {
        assert results[1..][k - 1] == results[k];
        assert forall j :: 0 <= j < k - 1 ==> results[1..][j] == results[j + 1];
      }
    }
  }

  /** `results` are the sources' outcomes in the order they arrive: the first decision is the
      decision, and without one the first evidence is the evidence. */
  method DecideByRace(results: seq<Outcome>) returns (out: Outcome)
    ensures FirstDecided(results).Some? ==> out == FirstDecided(results).value
    ensures FirstDecided(results).None? ==> out == Outcome(ChoseNone, None, "", FirstEvidence(results))
    ensures forall k :: 0 <= k < |results| && results[k].choice != ChoseNone
                        && (forall j :: 0 <= j < k ==> results[j].choice == ChoseNone)
              ==> out == results[k]
    ensures (forall o :: o in results ==> o.choice == ChoseNone) ==>
              && out == Outcome(ChoseNone, None, "", out.evidence)
              && ((forall o :: o in results ==> o.evidence.None?) ==> out.evidence.None?)
              && forall k :: 0 <= k < |results| && results[k].evidence.Some?
                             && (forall j :: 0 <= j < k ==> results[j].evidence.None?)
                   ==> out.evidence == results[k].evidence
  {
    FirstDecidedIs(results);
    FirstEvidenceIs(results);
    var undecided := Outcome(ChoseNone, None, "", None);
    for i := 0 to |results|
      invariant FirstDecided(results) == FirstDecided(results[i..])
      invariant undecided == Outcome(ChoseNone, None, "", undecided.evidence)
      invariant FirstEvidence(results)
             == if undecided.evidence.Some? then undecided.evidence else FirstEvidence(results[i..])
    {
      assert results[i..][0] == results[i] && results[i..][1..] == results[i + 1..];
      if results[i].choice != ChoseNone {
        return results[i];
      }
      if undecided.evidence.None? {
        undecided := undecided.(evidence := results[i].evidence);
      }
    }
    out := undecided;
  }

  // ----- what an approver can answer -----------------------------------------

  /** The call a gate guards. `digest` is empty when it could not be computed. */
  datatype Call = Call(tool: string, digest: string)

  /** A request record made for this call. */
  predicate For(call: Call, record: RequestRecord) {
    record.toolName == call.tool && record.subjectDigest == call.digest && call.digest != ""
  }

  /** The outcomes of the approvers for one call: the terminal's own; a webhook's, before it has a
      request, when nobody answers, and for an answer; nobody's. */
  ghost predicate Possible(c: Crypto, key: string, call: Call, o: Outcome) {
    || (exists choice :: o == Outcome(choice, None, "", None))
    || o == REFUSED_UNASKED
    || (exists record :: For(call, record) && o == Unjudged(key, record))
    || (exists record, resp :: For(call, record) && o == Judged(c, key, record, resp))
  }

  lemma WebhookIsPossible(c: Crypto, key: string, call: Call, record: RequestRecord, buildable: bool,
                          rounds: seq<Round>, o: Outcome)
    requires record.toolName == call.tool && record.subjectDigest == call.digest
    requires o == if record.subjectDigest == "" || !buildable then REFUSED_UNASKED
                  else if FirstAnswer(rounds).Some? then Judged(c, key, record, FirstAnswer(rounds).value)
                  else Unjudged(key, record)
    ensures Possible(c, key, call, o)
  {
  }

  /** Racing possible sources gives a possible outcome, in whatever order they arrive. */
  lemma {:induction false} RaceIsPossible(c: Crypto, key: string, call: Call, results: seq<Outcome>)
    requires forall o :: o in results ==> Possible(c, key, call, o)
    ensures FirstDecided(results).Some? ==> Possible(c, key, call, FirstDecided(results).value)
    ensures FirstDecided(results).None? ==> Possible(c, key, call, Outcome(ChoseNone, None, "", FirstEvidence(results)))
  {
    if results != [] {
      assert results[0] in results;
      assert forall o :: o in results[1..] ==> o in results;
      RaceIsPossible(c, key, call, results[1..]);
    }
  }

  // ----- runGate -------------------------------------------------------------

  predicate IsTerminal(e: Event) {
    e != GateTriggered && !e.OtherEvent?
  }

  function Details(call: Call, event: Event, decidedBy: Option<string>, evidence: Option<RecordedDecision>): Entry {
    WithEvidence(Entry(event, decidedBy, if call.digest != "" then Some(call.digest) else None, Some(call.tool),
                       Absent, Absent, None), evidence)
  }

  function TerminalEvent(o: Outcome): Event {
    match o.choice
    case ChoseNone => GateTimeout
    case ChoseApproved => if o.event.Some? then o.event.value else GateApproved
    case ChoseDenied => if o.event.Some? then o.event.value else GateDenied
  }

  function TerminalEntry(call: Call, o: Outcome): Entry {
    Details(call, TerminalEvent(o),
            if o.choice == ChoseNone then None else Some(if o.decidedBy != "" then o.decidedBy else TERMINAL),
            o.evidence)
  }

  class Gate {
    const proceedOnTimeout: bool
    var log: seq<Entry>
    var forwarded: seq<Call>
    var refused: seq<Call>
    var aborts: nat

    constructor (proceedOnTimeout: bool)
      ensures this.proceedOnTimeout == proceedOnTimeout && log == [] && forwarded == refused == [] && aborts == 0
    {
      this.proceedOnTimeout := proceedOnTimeout;
      log, forwarded, refused, aborts := [], [], [], 0;
    }

    /** `answer` is what the approver returns: nothing when there is no approver. */
    method RunGate(call: Call, answer: Option<Outcome>)
      modifies this`log, this`forwarded, this`refused, this`aborts
      ensures var o := if answer.Some? then answer.value else Outcome(ChoseNone, None, "", None);
              var through := o.choice == ChoseApproved || (o.choice == ChoseNone && proceedOnTimeout);
              && log == old(log) + [Details(call, GateTriggered, None, None), TerminalEntry(call, o)]
              && forwarded == old(forwarded) + (if through then [call] else [])
              && refused == old(refused) + (if through then [] else [call])
              && aborts == old(aborts) + if o.choice == ChoseNone && !proceedOnTimeout then 1 else 0
      ensures |log| == |old(log)| + 2
      ensures var o := if answer.Some? then answer.value else Outcome(ChoseNone, None, "", None);
              var digest := if call.digest != "" then Some(call.digest) else None;
              var last := log[|log| - 1];
              && log[|log| - 2] == Entry(GateTriggered, None, digest, Some(call.tool), Absent, Absent, None)
              && last.tool == Some(call.tool) && last.subjectDigest == digest
              && last.event == (if o.choice == ChoseNone then GateTimeout
                                else if o.event.Some? then o.event.value
                                else if o.choice == ChoseApproved then GateApproved else GateDenied)
              && last.decidedBy == (if o.choice == ChoseNone then None
                                    else if o.decidedBy == "" then Some("terminal") else Some(o.decidedBy))
              && RecordedDecisionFrom(last) == Ok(o.evidence)
    {
      if answer.Some? {
        EvidenceRoundTrip(TerminalEntry(call, answer.value), answer.value.evidence);
      }
      log := log + [Details(call, GateTriggered, None, None)];
      var decision, decidedBy, override, evidence := ChoseNone, TERMINAL, None, None;
      if answer.Some? {
        decision, override, evidence := answer.value.choice, answer.value.event, answer.value.evidence;
        if answer.value.decidedBy != "" {
          decidedBy := answer.value.decidedBy;
        }
      }
      match decision {
        case ChoseApproved =>
          var event := if override.Some? then override.value else GateApproved;
          log := log + [Details(call, event, Some(decidedBy), evidence)];
          forwarded := forwarded + [call];
        case ChoseDenied =>
          var event := if override.Some? then override.value else GateDenied;
          log := log + [Details(call, event, Some(decidedBy), evidence)];
          refused := refused + [call];
        case ChoseNone =>
          log := log + [Details(call, GateTimeout, None, evidence)];
          if proceedOnTimeout {
            forwarded := forwarded + [call];
            return;
          }
          refused := refused + [call];
          aborts := aborts + 1;
      }
    }
  }

  // ----- completeness --------------------------------------------------------

  predicate Truncates(o: Outcome) {
    o.evidence.Some? && o.evidence.value.response.Some? && o.evidence.value.response.value.truncated
  }

  /** Every gate ends in exactly one terminal event: an approval only when the call goes through
      by approval, and one that names a failed check only when the call is refused. */
  lemma OneTerminalEvent(c: Crypto, key: string, call: Call, o: Outcome)
    requires Possible(c, key, call, o)
    ensures IsTerminal(TerminalEntry(call, o).event) && !IsTerminal(Details(call, GateTriggered, None, None).event)
    ensures o.choice == ChoseApproved <==> TerminalEntry(call, o).event == GateApproved
    ensures o.choice == ChoseNone <==> TerminalEntry(call, o).event == GateTimeout
  {
  }

  /** An approval is the terminal's, or a signature under the approver's key over this very call. */
  lemma ApprovalIsSigned(c: Crypto, key: string, call: Call, o: Outcome)
    requires Possible(c, key, call, o) && o.choice == ChoseApproved
    ensures o == Outcome(ChoseApproved, None, "", None)
         || (&& c.isKey(key) && o.evidence.Some?
             && exists sig :: c.verifies(
                  key, SignedPayload(o.evidence.value.request.requestId, APPROVED, call.digest), sig))
  {
    if o.evidence.Some? {
      var record, resp :| For(call, record) && o == Judged(c, key, record, resp);
      assert c.verifies(key, SignedPayload(record.requestId, APPROVED, call.digest), resp.signature);
    }
  }

  /** What a gate writes is accepted by the check under the key it used, unless the response was
      too long to keep; then it is reported, as truncated. */
  lemma GateReverifies(c: Crypto, key: string, call: Call, o: Outcome, pinned: string)
    requires key != "" && pinned in {key, ""} && call.tool != "" && Possible(c, key, call, o)
    ensures CheckEntry(c, pinned, TerminalEntry(call, o))
         == if Truncates(o) then Failed(Truncated)
            else if o.evidence.None? then Passed
            else if o.evidence.value.response.None? then Unanswered
            else Verified
    ensures CheckEntry(c, pinned, Details(call, GateTriggered, None, None)) == Passed
  {
    var e := TerminalEntry(call, o);
    EvidenceRoundTrip(Entry(e.event, e.decidedBy, e.subjectDigest, e.tool, Absent, Absent, None), o.evidence);
    if record, resp :| For(call, record) && o == Judged(c, key, record, resp) {
      RecordKeepsResponse(c, resp);
    }
  }

  /** One gate of a run: its call and what its approver answered. */
  datatype Gated = Gated(call: Call, outcome: Outcome)

  function RunLog(gates: seq<Gated>): seq<Entry> {
    if gates == [] then []
    else
      var n := |gates| - 1;
      RunLog(gates[..n])
      + [Details(gates[n].call, GateTriggered, None, None), TerminalEntry(gates[n].call, gates[n].outcome)]
  }

  /** The log of any run of gates, each decided by any approver, is free of failures exactly when
      no response of it was too long to keep. */
  lemma {:induction false} RunReverifies(c: Crypto, key: string, gates: seq<Gated>, pinned: string)
    requires key != "" && pinned in {key, ""}
    requires forall g :: g in gates ==> g.call.tool != "" && Possible(c, key, g.call, g.outcome)
    ensures Failures(c, pinned, RunLog(gates)) == [] <==> forall g :: g in gates ==> !Truncates(g.outcome)
  {
    if gates != [] {
      var n := |gates| - 1;
      var g, init := gates[n], gates[..n];
      assert gates == init + [g];
      RunReverifies(c, key, init, pinned);
      GateReverifies(c, key, g.call, g.outcome, pinned);
      var log := RunLog(init);
      var first, last := Details(g.call, GateTriggered, None, None), TerminalEntry(g.call, g.outcome);
      FailuresSnoc(c, pinned, log, first);
      FailuresSnoc(c, pinned, log + [first], last);
      assert log + [first] + [last] == RunLog(gates);
    }
  }

  lemma FailuresSnoc(c: Crypto, pinned: string, log: seq<Entry>, e: Entry)
    ensures Failures(c, pinned, log + [e]) == []
       <==> Failures(c, pinned, log) == [] && !CheckEntry(c, pinned, e).Failed?
  {
    assert (log + [e])[..|log|] == log;
  }

  // ----- from the answers that arrive to the log that is checked --------------

  /** A source of decisions for one gate. */
  datatype Source =
    | Terminal(choice: Choice)
    | Webhook(record: RequestRecord, buildable: bool, rounds: seq<Round>)

  /** A gated call, with its sources in the order their outcomes arrive. */
  datatype Task = Task(call: Call, sources: seq<Source>)

  /** The webhooks ask about this call. */
  predicate Posed(t: Task) {
    && t.call.tool != ""
    && forall s :: s in t.sources && s.Webhook? ==>
         s.record.toolName == t.call.tool && s.record.subjectDigest == t.call.digest
  }

  function OutcomeOf(c: Crypto, key: string, s: Source): Outcome {
    match s
    case Terminal(choice) => Outcome(choice, None, "", None)
    case Webhook(record, buildable, rounds) =>
      if record.subjectDigest == "" || !buildable then REFUSED_UNASKED
      else if FirstAnswer(rounds).Some? then Judged(c, key, record, FirstAnswer(rounds).value)
      else Unjudged(key, record)
  }

  function Outcomes(c: Crypto, key: string, sources: seq<Source>): (results: seq<Outcome>)
    ensures |results| == |sources|
    ensures forall i :: 0 <= i < |sources| ==> results[i] == OutcomeOf(c, key, sources[i])
  {
    seq(|sources|, i requires 0 <= i < |sources| => OutcomeOf(c, key, sources[i]))
  }

  function Raced(c: Crypto, key: string, sources: seq<Source>): Outcome {
    var results := Outcomes(c, key, sources);
    if FirstDecided(results).Some? then FirstDecided(results).value
    else Outcome(ChoseNone, None, "", FirstEvidence(results))
  }

  lemma RacedIsPossible(c: Crypto, key: string, t: Task)
    requires Posed(t)
    ensures Possible(c, key, t.call, Raced(c, key, t.sources))
  {
    var results := Outcomes(c, key, t.sources);
    forall o | o in results ensures Possible(c, key, t.call, o) {
      var i :| 0 <= i < |results| && results[i] == o;
      var s := t.sources[i];
      assert s in t.sources;
      if s.Webhook? {
        WebhookIsPossible(c, key, t.call, s.record, s.buildable, s.rounds, o);
      }
    }
    RaceIsPossible(c, key, t.call, results);
  }

  /** A terminal that decides first decides the gate, as it said and with nothing to prove it. */
  lemma FirstTerminalDecides(c: Crypto, key: string, sources: seq<Source>, k: nat)
    requires k < |sources| && sources[k].Terminal? && sources[k].choice != ChoseNone
    requires forall j :: 0 <= j < k ==> OutcomeOf(c, key, sources[j]).choice == ChoseNone
    ensures Raced(c, key, sources) == Outcome(sources[k].choice, None, "", None)
  {
    FirstDecidedIs(Outcomes(c, key, sources));
  }

  /** The sources decide, the race picks, the gate acts and records. */
  method Decide(c: Crypto, key: string, sources: seq<Source>) returns (out: Outcome)
    ensures out == Raced(c, key, sources)
  {
    var results: seq<Outcome> := [];
    for i := 0 to |sources|
      invariant results == Outcomes(c, key, sources)[..i]
    {
      var o;
      match sources[i] {
        case Terminal(choice) => o := Outcome(choice, None, "", None);
        case Webhook(record, buildable, rounds) =>
          var delivered;
          o, delivered := DecideByWebhook(c, key, record, buildable, rounds);
      }
      results := results + [o];
    }
    assert results == Outcomes(c, key, sources);
    out := DecideByRace(results);
  }

  function GatedTasks(c: Crypto, key: string, tasks: seq<Task>): (gates: seq<Gated>)
    ensures |gates| == |tasks|
    ensures forall i :: 0 <= i < |tasks| ==> gates[i] == Gated(tasks[i].call, Raced(c, key, tasks[i].sources))
  {
    seq(|tasks|, i requires 0 <= i < |tasks| => Gated(tasks[i].call, Raced(c, key, tasks[i].sources)))
  }

  /** A fresh gate that takes any calls through any terminal and webhook sources, whatever they
      answer and in whatever order, leaves a log that the check accepts under the approver's key,
      pinned or as recorded, if and only if no answer that decided was too long to keep. */
  method RunGates(gate: Gate, c: Crypto, key: string, tasks: seq<Task>)
    requires gate.log == [] && key != "" && forall t :: t in tasks ==> Posed(t)
    modifies gate
    ensures |gate.log| == 2 * |tasks|
    ensures forall pinned :: pinned in {key, ""} ==>
              (Failures(c, pinned, gate.log) == [] <==> forall t :: t in tasks ==> !Truncates(Raced(c, key, t.sources)))
  {
    ghost var gates := GatedTasks(c, key, tasks);
    for i := 0 to |tasks|
      invariant gate.log == RunLog(gates[..i]) && |gate.log| == 2 * i
    {
      var o := Decide(c, key, tasks[i].sources);
      gate.RunGate(tasks[i].call, Some(o));
      assert gates[..i + 1][..i] == gates[..i];
    }
    assert gates[..|tasks|] == gates;
    TasksReverify(c, key, tasks);
  }

  lemma TasksReverify(c: Crypto, key: string, tasks: seq<Task>)
    requires key != "" && forall t :: t in tasks ==> Posed(t)
    ensures forall pinned :: pinned in {key, ""} ==>
              (Failures(c, pinned, RunLog(GatedTasks(c, key, tasks))) == []
               <==> forall t :: t in tasks ==> !Truncates(Raced(c, key, t.sources)))
  {
    var gates := GatedTasks(c, key, tasks);
    forall g | g in gates ensures g.call.tool != "" && Possible(c, key, g.call, g.outcome) {
      var i :| 0 <= i < |gates| && gates[i] == g;
      assert tasks[i] in tasks;
      RacedIsPossible(c, key, tasks[i]);
    }
    assert (forall g :: g in gates ==> !Truncates(g.outcome))
      <==> forall t :: t in tasks ==> !Truncates(Raced(c, key, t.sources)) by {
      SameTruncations(c, key, tasks);
    }
    RunReverifies(c, key, gates, key);
    RunReverifies(c, key, gates, "");
  }

  lemma SameTruncations(c: Crypto, key: string, tasks: seq<Task>)
    ensures (forall g :: g in GatedTasks(c, key, tasks) ==> !Truncates(g.outcome))
       <==> forall t :: t in tasks ==> !Truncates(Raced(c, key, t.sources))
  {
    var gates := GatedTasks(c, key, tasks);
    if forall g :: g in gates ==> !Truncates(g.outcome) {
      forall t | t in tasks ensures !Truncates(Raced(c, key, t.sources)) {
        var i :| 0 <= i < |tasks| && tasks[i] == t;
        assert gates[i] in gates;
      }
    }
    if forall t :: t in tasks ==> !Truncates(Raced(c, key, t.sources)) {
      forall g | g in gates ensures !Truncates(g.outcome) {
        var i :| 0 <= i < |gates| && gates[i] == g;
        assert tasks[i] in tasks;
      }
    }
  }
}
