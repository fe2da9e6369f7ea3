# Constle: a verified model of its policy core

Constle runs an AI agent in a sandbox and enforces policy on it from the host: every tool call goes
through a gate, every decision goes into a signed log, every message between agents is checked, and
spending is metered and capped. This project models that logic in Dafny 4.11 and proves what the
source's comments and documentation promise of it.

The verifier checks the whole project with `dafny verify dfyconfig.toml`.

## What is modelled

| files | component |
|---|---|
| `Folding`, `JsonScan` | the walk that refuses ambiguous JSON-RPC bodies, and its name folding |
| `PathRules` | the path rules and the rewrite of the MCP gate |
| `SignedJson`, `AuditLog`, `AuditTheorems`, `LoggerRuns` | the signed, hash-chained log: writer, verifier, what a verified file proves, several loggers on one file |
| `Envelope`, `Replay`, `Inbox`, `InboxGate` | the A2A receive protocol: sealing, replay protection across processes, quotas, inbox, replies |
| `Money`, `Meter`, `MeterBody` | exact amounts, metered cost, the response tee |
| `Sse`, `SseStandard` | the event-stream reader, and the WHATWG HTML standard's reader beside it |
| `Ledger`, `Tracker`, `SpendingTheorems` | the shared daily ledger and the run trackers, over all interleavings |
| `Decision`, `VerifyLog`, `HumanGate` | gate decisions: producing evidence, recording it, re-verifying it offline |
| `Positional`, `Did` | numbers in any base, base58btc, did:key |
| `EditDistance` | the key suggestion of the manifest parser |
| `GuestEnv`, `Shell` | the guest's environment file and command line, and a shell reader for them |
| `Witness` | worlds that meet the hypotheses of the log and of the envelopes |
| `Strings`, `Wrappers` | strings in Go's order, splitting and joining, `Option` and `Result` |

Code that changes state step by step is a method or a class whose contract ties the new state to a
function of the old one; the theorems are about those functions, over every run. Code that computes
a verdict is a function. Goroutines and processes are steps of a transition system: one step is one
critical section, file-lock section or channel operation, and a run is any sequence of steps.

## What is taken as given

Each hypothesis is a named predicate that the lemmas require; none is built in.

- `AuditLog.GoodHash`: SHA-256 is injective and never yields the genesis value.
- `SignedJson.Faithful`, `SignedJson.Honest`: the JSON decoder reads back what the encoder wrote,
  base64 gives a signature back, and the signatures a signer gives, on the texts it ever signs,
  verify under the key its DID names.
- `SignedJson.OnlySigned`, within `AuditTheorems.Unforgeable` and `Envelope.SealsOnly`, and the like in
  `VerifyLog.SignsOnly`: what verifies under a key is a text its holder signed. The log and the
  envelopes share one key, so texts of the other kind are allowed for: `Foreign` is said of the texts
  that no base64 signature completes to a record of the kind at hand.
- `Witness.AuditHypothesesMeet` and `Witness.EnvelopeHypothesesMeet` exhibit worlds with an encoder for
  every record that meet all of these at once, for a signer that signed a log entry and an envelope.
- `spell` in `Envelope.Seal` is the encoder's spelling of a JSON body: `json.Marshal` drops blanks from a
  `json.RawMessage` and escapes some characters. `Faithful` is about envelopes with a body in that
  spelling, which is what the encoder is given to sign.
- `Envelope.IgnoresBlanks`: blanks after a JSON object do not change its reading.
- `Folding.SimpleFolding`: Unicode simple folding is a permutation with finite orbits, in which an
  ASCII capital is the least of its orbit. `Folding.AsciiFoldingIsOne` shows that it can be met.
- `Replay.HoursInOrder`: the UTC hours of the admissions do not go back in lock order. Checks that are
  refused, before the lock or under it, are free. The source reads the clock before it takes the file
  lock (internal/a2a/envelope.go:242, internal/a2a/replay_store.go:112), so this is a condition on the
  scheduler and on the clocks; `Replay.AdmittedIff` and `Replay.AdmittedAgainIff` say exactly what
  happens without it.
- A record is written whole or not at all.

Clock readings, random ids, results of input and output, and the decoder's tokens are parameters.

## What the proofs found

- `Replay.AdmittedAgainIff`: an envelope admitted once is admitted again if and only if the disk is
  healthy, the guard at hand does not remember it, and either it reads the clock in an earlier UTC hour
  than the first admission did, or an admission in between, more than two hours ahead of the first, has
  deleted the first one's bucket. `Replay.HourOrderIsNeeded` is a run of the one kind: two processes read
  the clock on either side of a full hour and take the lock in the other order.
  `Replay.JumpAheadIsEnough` is a run of the other: the clock jumps ahead for one message and is set back,
  and the envelope is admitted twice in one and the same hour. `Replay.StoreIsNeeded`: the in-memory set
  alone forgets an id while its envelope is still inside the window.
- `Replay.RetryOfOrphanIff`: a failed append that reached the file all the same is answered "retry later"
  (internal/a2a/listener.go:172-176), but the retry, of an envelope that was never admitted, is refused
  as a replay unless the clock reads an earlier hour or the bucket is gone. `Replay.FailedAppendSpends`
  is a run in which that happens.
- `Inbox.LateReplyIff`: `expireCall` is there so that a late reply cannot match a call whose connection is
  gone (internal/a2a/listener.go:308-309), but it looks among the delivered calls only. A call that
  expires before it is delivered is handed to the agent later, and the reply to it is signed and sent to
  nobody. A call can be answered after it expired if and only if it was not delivered yet, or a reply to
  it was under way at that moment. `Inbox.ExpiredThenAnswered` is such a run.
- `Inbox.ShedMessageIsSpent`: a call shed for a full quota is answered "retry later"
  (internal/a2a/listener.go:187-193), but its message id is already recorded, so the same envelope
  is refused as a replay from then on. Only a newly sealed envelope gets through.
  `Inbox.SeventeenthIsShed` is a run that gets there.
- `JsonScan.AcceptsExactly`: the scan's test for trailing data asks the decoder for another value, which
  a stray closing bracket is not. Such a body passes the scan; `json.Unmarshal`, which the source calls
  afterwards, refuses it.
- `Sse.ReadsBackExactly`: the event-stream reader loses a carriage return at the end of a payload line
  when the server ends its lines with a bare line feed, and takes a stream whose lines end in a bare
  carriage return, which section 9.2 of the WHATWG HTML standard also allows, for a single line.
- `SseStandard.AgreesWithStandard`: on a stream without a lone carriage return or a byte order mark the
  reader parts from sections 9.2.5 and 9.2.6 of that standard in two ways: it skips a `data` line without a colon,
  and it charges for an event that the stream leaves unterminated, which the standard drops.
- `HumanGate.GateReverifies`: evidence a gate wrote is accepted later except when a field of the
  response was longer than 256 bytes; then it is reported as truncated, whatever the signature was.
- `SpendingTheorems.LedgerBalances`: a charge whose record was written before its file operation failed
  stays in the ledger although no run counts it. That is the only way the ledger and the runs part.
- `LoggerRuns.InterleavedLoggersVerdict`: loggers that overlap on one file leave a log that is accepted if
  and only if every write happened to name the line that was last at that moment; otherwise it is
  refused at the first write that did not.

## Model

| member | source | states |
|---|---|---|
| JsonScan.ScanUnambiguous | internal/mcpgate/gate.go:1477-1577 | the explicit-stack loop returns what the token-by-token walk defines, error for error, for any token stream |
| JsonScan.ScanIsRecursive | internal/mcpgate/gate.go:1477-1577 | on the tokens of any JSON value the walk gives the same first error, or none, as a recursion on the value that keeps no stack |
| JsonScan.WalkIsBounded | internal/mcpgate/gate.go:1443-1461 | in every state the walk passes through, on any JSON value with anything after it, `tracked` is the number of names of the open objects, every object below the top waits for a name, and neither cap is exceeded |
| JsonScan.WalkMembers | internal/mcpgate/gate.go:1501-1547 | inside an object the walk gives back exactly the names the object took when it closes, so `tracked` counts the names of open objects |
| JsonScan.AcceptsExactly | internal/mcpgate/gate.go:1436-1477 | accepted if and only if it is one object, no object at any depth has two names of one folded spelling, nesting is at most 10000 and at most 131072 names are open at once, and nothing follows but perhaps a stray closing bracket |
| JsonScan.SecondValueIsRefused | internal/mcpgate/gate.go:1569-1575 | an accepted body with any second value behind it, whatever follows, is refused for trailing data |
| JsonScan.TruncatedIsRefused | internal/mcpgate/gate.go:1495-1499 | a body cut off anywhere is refused, as unparseable or with the error of the whole body |
| JsonScan.RefusalSays | internal/mcpgate/gate.go:1513-1552 | what each refusal proves: the cap it names is exceeded, or one object of the body, at the depth told, has the two names told, one twice or two spellings of one fold |
| JsonScan.OneReading | internal/mcpgate/gate.go:1470-1476 | among names of distinct folds, first-wins, last-wins and case-blind lookups find the member an exact lookup finds |
| JsonScan.ReadersAgree | internal/mcpgate/gate.go:1463-1476 | in every object of an accepted body, however deep, all these readers resolve a present name to the same member |
| JsonScan.CaseBlindReadersAgree | internal/mcpgate/gate.go:1470-1476 | the same for a reader that compares names rune by rune up to Unicode simple folding, with names folded as the gate folds them |
| Folding.FoldOneRune | internal/mcpgate/gate.go:1613-1630 | the loop round the folding orbit ends and returns the least rune of the orbit, lower-cased if it is an ASCII capital |
| Folding.FoldRuneIs | internal/mcpgate/gate.go:1609-1630 | the representative is in the orbit of the rune and no rune of the orbit is smaller, an ASCII capital shifted to lower case |
| Folding.LeastNamesOrbit | internal/mcpgate/gate.go:1613-1630 | two runes have the same least rune if and only if they share an orbit |
| Folding.SameFoldIffSameOrbit | internal/mcpgate/gate.go:1613-1630 | two runes have the same representative if and only if they share an orbit; the lower-casing merges no two orbits |
| Folding.AsciiFold | internal/mcpgate/gate.go:1613-1620 | on ASCII the shortcut gives the representative of the orbit |
| Folding.FoldKeyOf | internal/mcpgate/gate.go:1590-1607 | the folded name is the rune-by-rune representative, whether or not the ASCII shortcut applies |
| Folding.SameFoldedKey | internal/mcpgate/gate.go:1579-1607 | names fold alike if and only if they agree rune by rune up to simple-folding orbits |
| PathRules.PathReason | internal/mcpgate/gate.go:652-671 | no reason if and only if the segments are clean; otherwise the reason of the first offending segment |
| PathRules.CleanSays | internal/mcpgate/gate.go:652-700 | clean means no dot segment, none empty but the last, and only letters, digits and `-._~`, in an endpoint `@` and `:` too |
| PathRules.ReasonSays | internal/mcpgate/gate.go:652-671 | which reason a segment gets, by the bytes in it |
| PathRules.CheckEndpoint | internal/mcpgate/gate.go:253-267 | an endpoint path is accepted if and only if it is clean over the wider set of bytes |
| PathRules.Forward | internal/mcpgate/gate.go:506-558 | a request is forwarded if and only if its sub-path is clean and it asks for no upgrade; on the endpoint itself, or on the endpoint with a slash between and the sub-path behind it; an unclean sub-path is refused first; the test after the rewrite never fails |
| PathRules.ForwardedSegments | internal/mcpgate/gate.go:534-544 | the segments of the forwarded path are those of the endpoint, less an empty last one, and then exactly those of the sub-path |
| PathRules.RewriteStaysWithin | internal/mcpgate/gate.go:540-550 | the joined path is the endpoint or beneath it, on whole segments |
| PathRules.RewriteIsSettled | internal/mcpgate/gate.go:540-544 | the joined path of any accepted endpoint and sub-path has no interior empty segment, no dot segment and only listed bytes |
| PathRules.AbsoluteUnchangedIff | internal/mcpgate/gate.go:577-589 | removing dot segments (RFC 3986, section 5.2.4) leaves an absolute path alone if and only if it has no dot segment |
| PathRules.OneReading | internal/mcpgate/gate.go:577-616 | for every accepted endpoint and sub-path the forwarded path is unchanged by removing dot segments, by any number of percent-decodings, and by both in either order |
| SignedJson.DetachAttach | internal/audit/verify.go:177-188 | cutting the signature suffix off a signed text and restoring the brace gives the signed bytes back, byte for byte |
| SignedJson.AttachDetach | internal/audit/verify.go:177-188 | and conversely the recovered bytes, signed again, are the text |
| SignedJson.SignedTextChecks | internal/audit/logger.go:262-293 | a text its signer produced is read back as the record and passes the signature check over exactly the encoded record |
| SignedJson.CheckedTextReads | internal/audit/verify.go:169-192 | a text whose recovered bytes are the encoding of a record is read as that record, so no edit hides in the text |
| AuditLog.LastLineHash | internal/audit/logger.go:316-336 | the scan of the whole file returns the hash of its last line, or the genesis value |
| AuditLog.Logger.NewSigned | internal/audit/logger.go:216-237 | a logger resumes from the hash its next entry must name |
| AuditLog.Logger.WriteLocked | internal/audit/logger.go:262-303 | if the entry can be encoded and the file takes it, the file gains exactly its encoding with the signature as last member, naming the last hash, and the hash moves to that line; otherwise neither moves, and the error says which failed |
| AuditLog.Logger.Write | internal/audit/logger.go:250-260 | as above, and the first error stays the logger's error for good |
| AuditLog.WriteExtendsChain | internal/audit/logger.go:262-303 | a written line extends a chain to a chain |
| AuditLog.SessionExtendsChain | internal/audit/logger.go:262-303 | a session with any failures extends a chain by exactly the entries that were written |
| AuditLog.AllAttemptsLand | internal/audit/logger.go:262-303 | when nothing fails every attempt lands, in order |
| AuditLog.RefusedAttemptVanishes | internal/audit/logger.go:262-293 | an attempt that the file refuses leaves no trace in what the others write |
| AuditLog.SessionsExtendChain | internal/audit/logger.go:216-237 | so do any number of sessions one after the other, each resuming from the file, by exactly the contents of the attempts that landed in them, in order |
| AuditLog.RunSession | internal/audit/logger.go:216-303 | the logger object, driven through any writes, leaves the file the session function says, and reports no error if and only if every entry reached it |
| AuditLog.IndexLines | internal/audit/verify.go:128-137 | every line hash is in the index, at a line that has it |
| AuditLog.CheckLink | internal/audit/verify.go:194-202 | a line's link is right, or reordered when the named hash is anywhere in the file, or missing |
| AuditLog.CheckLine | internal/audit/verify.go:143-205 | one turn of the loop finds the line's fault, or none, and fixes the identity of the log |
| AuditLog.VerifyFile | internal/audit/verify.go:112-207 | the verdict is the first faulty line with its kind of fault, or a report of all entries |
| AuditLog.AcceptedIff | internal/audit/verify.go:102-207 | pinned or not, a file is accepted if and only if one identity, the pinned one if there is one, is named by every line, signed every line and every line names the one before; the report then names it and holds every entry in order |
| AuditLog.FaultSays | internal/audit/verify.go:143-204 | which fault a line has, in terms of its members, its signature, the identity it is held to and the line above |
| AuditLog.MismatchIsReported | internal/audit/verify.go:161-170 | after lines of one identity the first line that names another is reported as a mismatch at its position, without a pin too |
| AuditLog.VerdictIsUnique | internal/audit/verify.go:112-207 | a file has one verdict only |
| AuditTheorems.GenuineChainVerifies | internal/audit/verify.go:112-207 | a chain its signer wrote is accepted, pinned or not, with exactly the entries written |
| AuditTheorems.SessionsVerify | internal/audit/logger.go:206-237 | whatever sessions ran one after the other on a fresh file, with whatever failures, the file verifies and its report holds exactly the entries of the attempts that landed, in order |
| LoggerRuns.InterleavedLoggersVerdict | internal/audit/logger.go:206-303 | for any interleaving of any loggers' opens and writes the file verifies, with exactly the entries written, if and only if every line names the line that was last when it was written; otherwise it is refused at the first that does not, as a missing entry if that line names the genesis value and as reordered otherwise |
| LoggerRuns.OneLoggerWritesAll | internal/audit/logger.go:206-303 | one logger alone, with nothing failing, writes everything, in order, each line naming the one before |
| Witness.AuditHypothesesMeet | internal/audit/verify.go:139-207 | the hypotheses of the theorems on the log hold together, with an encoder for every entry and a log that is not empty, for a signer that signed an envelope with the same key, which the decoder of entries reads |
| AuditTheorems.LastLineDetermines | internal/audit/verify.go:139-204 | two linked files with the same last line are the same file |
| AuditTheorems.LinesDistinct | internal/audit/verify.go:139-204 | the lines of a linked file are pairwise distinct |
| AuditTheorems.Soundness | internal/audit/verify.go:139-207 | a file accepted under a pinned DID is a prefix of one log that DID wrote: equal lines up to the last, equal signed bytes for the last, and every entry what the log says there |
| AuditTheorems.GenuineLinesVerdict | internal/audit/verify.go:194-202 | any rearrangement, repetition or cut of a genuine chain's lines is reported at the first line out of place, as reordered exactly when that line's predecessor is still in the file |
| AuditTheorems.PermutationIsReordered | internal/audit/verify.go:128-202 | a permutation that moves anything is reported as reordered at the first displaced line |
| AuditTheorems.CutIsMissing | internal/audit/verify.go:128-202 | removing a block that is not a suffix is reported as a missing entry at the line after the cut |
| AuditTheorems.PrefixIsAccepted | internal/audit/verify.go:112-207 | removing a suffix is not detected: every non-empty prefix is accepted |
| Envelope.OpenSeal | internal/a2a/envelope.go:90-211 | what was sealed opens to exactly what was sealed, its body in the encoder's spelling, with blanks after it or none; the body arrives unchanged if and only if it was in that spelling |
| Envelope.OpensIff | internal/a2a/envelope.go:173-211 | a message opens if and only if its members are there and it is, blanks at the end apart, some bytes with their signature as last member that verifies over them under the key the sender names; and a bad signature is told apart from a malformed message |
| Envelope.OpenedWasSealed | internal/a2a/envelope.go:173-211 | every envelope that opens in a sender's name is one that sender sealed |
| Witness.EnvelopeHypothesesMeet | internal/a2a/envelope.go:173-211 | the hypotheses of the theorems on envelopes hold together, with an encoder for every envelope, for a signer that signed a log entry with the same key, which the decoder of envelopes reads |
| Envelope.ReplyIsTaken | internal/a2a/gate.go:301-319 | the reply a declared peer seals to a request, whatever its body, passes the requester's check, with the body in the encoder's spelling |
| Envelope.ResponseTakenIff | internal/a2a/gate.go:301-319 | which of the four checks refuses a response, and that a response that passes all is taken |
| Envelope.ResponseWasSealed | internal/a2a/gate.go:301-319 | a response that passes was sealed by the declared peer, for this agent, in answer to this request |
| Replay.ReplayStore.BucketContains | internal/a2a/replay_store.go:140-166 | the scan finds an id if and only if the hour's bucket holds it |
| Replay.ReplayStore.PruneExpired | internal/a2a/replay_store.go:201-223 | exactly the buckets more than two hours old that the disk lets go are removed |
| Replay.ReplayStore.CheckAndRecord | internal/a2a/replay_store.go:101-132 | the answer and the new buckets for every outcome of lock, reads and append; an error leaves the answer open and never admits |
| Replay.ReplayGuard.Check | internal/a2a/envelope.go:241-284 | the verdict, the pruned set and the store after one check, in the source's order |
| Replay.CloseInstants | internal/a2a/replay_store.go:33-38 | instants at most two windows apart lie in the same hour or in adjacent ones |
| Replay.RunIsGood | internal/a2a/replay_store.go:101-132 | over every run of any guards, processes and restarts on one store, with any clocks and disk failures, a bucket holds an id if and only if the id was admitted in that hour, or left there by a failed append, and no admission since deleted the bucket; and unless a record was deleted in between, its id is not admitted again in that hour or the next |
| Replay.SameIdTwoHoursApart | internal/a2a/replay_store.go:33-38 | with admissions in hour order, two admissions of one id are at least two hour buckets apart |
| Replay.AtMostOnce | internal/a2a/envelope.go:240-284 | so no message id is admitted twice with the same envelope timestamp |
| Replay.SentAgainIsRefused | internal/a2a/envelope.go:240-284 | an envelope admitted before is refused on every later check that keeps the hours in order |
| Replay.FreshIdIsAdmitted | internal/a2a/envelope.go:240-284 | in every reachable state a message inside the window is refused on a healthy disk only if its id was admitted before or left behind by a failed append |
| Replay.StoreFindsExactly | internal/a2a/replay_store.go:101-132 | in every reachable state, for every id, clock and disk, a healthy store finds an id if and only if a record of it stands in the hour of the clock or the one before; an unhealthy one never says that it is new |
| Replay.AdmittedIff | internal/a2a/envelope.go:240-284 | in every reachable state the exact condition of every admission: the timestamp at most five minutes off either way, no memory of the id younger than that, a healthy disk, and no record standing in the hour of the clock or the one before |
| Replay.RefusedFor | internal/a2a/envelope.go:240-284 | in every reachable state the exact condition of each refusal: stale, duplicate, or guard unavailable |
| Replay.MemoryRefuses | internal/a2a/envelope.go:254-270 | whatever the disk does, a guard that is not started over refuses an id it admitted for five minutes of its clock |
| Replay.AdmittedAgainIff | internal/a2a/envelope.go:240-284 | in every reachable state an envelope admitted once is admitted again, inside the window, if and only if the disk is healthy, the guard does not remember it, and its clock reads an earlier hour than the first admission's or a later admission deleted that hour's bucket |
| Replay.RetryOfOrphanIff | internal/a2a/listener.go:166-180 | in every reachable state an envelope that was refused because its append failed, although the record was written, is admitted on a retry inside the window if and only if the disk is healthy and the clock reads an earlier hour than at first or the bucket has been deleted since |
| Replay.HourOrderIsNeeded | internal/a2a/replay_store.go:101-132 | a run with the hours out of lock order that admits one envelope twice |
| Replay.JumpAheadIsEnough | internal/a2a/replay_store.go:194-223 | a run that admits one envelope twice within one hour, because a clock that jumped ahead deleted the record |
| Replay.FailedAppendSpends | internal/a2a/replay_store.go:168-192 | a run in which a retry is refused as a replay although nothing was admitted |
| Replay.StoreIsNeeded | internal/a2a/envelope.go:258-262 | without the store a message inside the window is admitted twice |
| Inbox.StepKeepsInv | internal/a2a/listener.go:121-314 | every step of every handler keeps quotas, queue, pending map, replies and the checks each call has passed |
| Inbox.RunKeepsInv | internal/a2a/listener.go:121-314 | so every reachable state has them |
| Inbox.AuthorizedIff | internal/a2a/listener.go:135-162 | the checks before the replay guard pass if and only if the message opens, its sender is a declared peer and it is addressed to this agent; and which check refuses it |
| Inbox.ReachableStates | internal/a2a/listener.go:147-197 | each peer's counter equals its admitted and undelivered calls and is at most 16; every call opened, came from a declared peer and is addressed to this agent; all in inbox or pending passed the replay check too; no call object was answered twice |
| Inbox.EnqueueNeverBlocks | internal/a2a/listener.go:194-197 | an admitted call always finds room in the inbox channel |
| Inbox.ReplyNeverBlocks | internal/a2a/listener.go:270-294 | the send of a signed reply always finds its one-slot channel empty |
| Inbox.DeliverNeverUnderflows | internal/a2a/listener.go:245-249 | the quota slot given back on delivery was held |
| Inbox.LateReplyIff | internal/a2a/listener.go:206-314 | of every call whose connection is given up in any reachable state: some later run signs and sends a reply to it if and only if it has not been delivered yet or a reply to it is under way |
| Inbox.ExpiredThenAnswered | internal/a2a/listener.go:206-314 | such a call is reached |
| Inbox.RunIsTrace | internal/a2a/listener.go:166-180 | what a gate's run asks of the replay store is a run of the replay protocol, so its theorems apply |
| Inbox.NoEnvelopeTwice | internal/a2a/listener.go:117-197 | no two calls ever made for the sandbox carry the same envelope |
| Inbox.ShedMessageIsSpent | internal/a2a/listener.go:182-193 | a message shed for a full quota makes no call when it is sent again within the window |
| Inbox.SeventeenthIsShed | internal/a2a/listener.go:182-193 | seventeen fresh messages in a row from one peer reach a shed call |
| InboxGate.Gate.ServePublic | internal/a2a/listener.go:121-197 | the call is parked with one more slot taken, shed exactly when its peer's quota is full, or refused with nothing changed but the replay guard; it never waits for the channel |
| InboxGate.Gate.ServeInbox | internal/a2a/listener.go:238-265 | the oldest call becomes pending, with every check passed and its peer's slot free again; an empty inbox changes nothing |
| InboxGate.Gate.ServeReply | internal/a2a/listener.go:270-306 | the first reply to a pending call is sent, once, if it can be sealed, and the call is settled; any other id changes nothing |
| InboxGate.Gate.Check | internal/a2a/listener.go:135-185 | the checks in order, and a call object only when all pass |
| InboxGate.Gate.Admit | internal/a2a/listener.go:186-195 | the quota check and count as one step of the protocol |
| InboxGate.Gate.Enqueue | internal/a2a/listener.go:196-197 | the send on the inbox channel, for which there is room whenever it is reached |
| InboxGate.Gate.Take | internal/a2a/listener.go:244-246 | the oldest queued call leaves the channel |
| InboxGate.Gate.Deliver | internal/a2a/listener.go:246-249 | the call becomes pending and its quota slot is free |
| InboxGate.Gate.TakeReply | internal/a2a/listener.go:277-284 | a pending call is consumed by the first reply to it, and an unknown id changes nothing |
| InboxGate.Gate.SendReply | internal/a2a/listener.go:286-294 | one signed reply, or none when sealing fails; either way the call is settled |
| InboxGate.Gate.ExpireCall | internal/a2a/listener.go:310-314 | a call whose connection is gone is no longer pending |
| Money.ParseUSD | internal/spending/money.go:25-75 | for every trimmed string and every amount: the result is that amount if and only if the string is a plain decimal with at most 8 fraction digits and exactly that value; a decimal past int64 is called too large, a signed string signed, an empty one empty; no operation overflows on the way |
| Money.AmountIsDecimal | internal/spending/money.go:34-75 | an amount is the digits of its decimal as one number over the power of ten the point stands for |
| Money.OneMeaning | internal/spending/money.go:34-43 | a string denotes one amount at most |
| Money.USD | internal/spending/money.go:79-96 | the printed text denotes the amount exactly, MinInt64 included, with two decimals at least and no spare zero |
| Money.PrintThenParse | internal/spending/money.go:25-96 | printing and parsing gives every non-negative amount back, MaxInt64 included |
| Money.Cost | internal/spending/money.go:102-126 | the ceiling of usage times price as exact rationals, or the error of the first condition that fails; overflow if and only if the exact cost is past int64 |
| Money.Add | internal/spending/money.go:129-137 | the sum if int64 holds it, else an error that names the side |
| Meter.ExtractUsage | internal/spending/meter.go:33-70 | the number at the end of the path, or an error |
| Meter.NumberAtIff | internal/spending/meter.go:33-70 | the number found is the one at the end of the only trail of members and elements that the path names |
| Meter.ChargeableIff | internal/spending/meter.go:79-99 | what a meter charges for, and its exact cost, in terms of that trail |
| Meter.MeterResponse | internal/spending/meter.go:82-99 | the total is at least the exact cost and less than it plus one micro-cent a meter; it fails only when a meter has nothing to charge for or int64 cannot hold the total |
| Meter.MeterBill | internal/spending/meter.go:79-99 | the same as a bill, which names what was metered |
| SpendingTheorems.RunTotalNeverUndercounts | internal/spending/meter.go:79-99 | over every interleaving a run's total is at least what its metered charges cost exactly, and exceeds that by at most one micro-cent for each reading of a meter |
| MeterBody.Tee.ReadSome | internal/mcpgate/metering.go:129-138 | a read keeps its bytes or notes the overflow, and the end of the stream triggers metering |
| MeterBody.Tee.CloseBody | internal/mcpgate/metering.go:142-161 | an early close drains what is left, at most the cap and a byte, and meters or records a truncation; a second close changes nothing |
| MeterBody.MeteredExactlyOnce | internal/mcpgate/metering.go:118-192 | for any body, reads of any sizes and a close at any time there is exactly one metering call, on exactly the body when it is at most 10 MB and a failure otherwise, and later calls add none |
| MeterBody.ReadingStyleIsIrrelevant | internal/mcpgate/metering.go:140-161 | two agents that read one body in different ways are charged alike |
| Sse.SseDataPayloads | internal/mcpgate/metering.go:344-367 | the loop returns the payloads of the stream's events |
| Sse.PrintedStream | internal/mcpgate/metering.go:341-367 | reading a stream whose lines end in a line feed gives each payload with at most one carriage return lost per line, and none lost where lines end in both characters |
| Sse.PrintedWithReturns | internal/mcpgate/metering.go:341-367 | a stream whose lines end in a bare carriage return is read as one payload, longer than the first printed |
| Sse.ReadsBackExactly | internal/mcpgate/metering.go:341-367 | reading inverts printing always if lines end in both characters, if and only if no payload line ends in a carriage return where they end in a line feed, and only for the empty stream where they end in a carriage return |
| SseStandard.AgreesWithStandard | internal/mcpgate/metering.go:341-367 | on any stream whose carriage returns all stand before line feeds: if nothing after the last empty line is data, the payloads are the standard's if and only if no dispatched event has a `data` line without a colon, and the other way round |
| SseStandard.AgreesOnAnyStream | internal/mcpgate/metering.go:355-356 | with both faults excluded, on any stream whatever the payloads are the standard's if and only if they stay the same when every line end is made a line feed |
| SseStandard.ReturnKeptDisagrees | internal/mcpgate/metering.go:355-356 | whenever a payload keeps a carriage return the payloads are not the standard's |
| SseStandard.FaultsMayCancel | internal/mcpgate/metering.go:344-367 | a stream with both faults on which the two agree by accident |
| Sse.PickResponse | internal/mcpgate/metering.go:306-338 | the verdict on the payloads is the one that the next two members state by place |
| Sse.FirstWantedIsPicked | internal/mcpgate/metering.go:306-326 | the first response with the request's id is picked, whatever else the stream carries |
| Sse.OtherwisePicked | internal/mcpgate/metering.go:326-338 | without one the only response is picked; it is an error if and only if there is none, or more than one |
| Sse.ResponseMessage | internal/mcpgate/metering.go:293-339 | the same from the body when the media type, parsed or as sent, is an event stream in any case; any other body is taken whole unless blank |
| Ledger.SumLedger | internal/spending/store.go:179-211 | the exact sum, or an error if and only if a line is corrupt or negative or int64 cannot hold the sum |
| Ledger.DailyStore.Append | internal/spending/store.go:126-174 | the day's file and the answer for every place where input or output fails |
| Ledger.AnswersIff | internal/spending/store.go:126-174 | there is an answer if and only if the charge is not negative, nothing fails, no line is damaged or negative and int64 holds the sum |
| Ledger.DailyStore.TodayTotal | internal/spending/store.go:101-121 | zero without a file, else the exact sum or an error |
| Ledger.AnswerIsSum | internal/spending/store.go:123-174 | an answer counts every earlier line and this charge |
| Tracker.NewTracker | internal/spending/tracker.go:63-95 | a tracker is built if and only if no cap is negative, the warning percentage is 0 to 100 and needs a daily cap, and a daily cap has a store |
| Tracker.RunTracker.Charge | internal/spending/tracker.go:102-158 | the new tracker, the new ledger and the receipt; a charge gets a violation if and only if the run was tripped before, or its total is past the run cap, or the day total past the daily cap, in that order; a failed charge leaves the tracker as it was |
| Tracker.ReceiptSays | internal/spending/tracker.go:130-157 | the receipt and the new state in plain comparisons, the warning compared cross-multiplied |
| Tracker.GoesThroughIff | internal/spending/tracker.go:102-128 | a charge goes through if and only if it is not negative, int64 holds the run total and an attached ledger answers |
| Tracker.RunTracker.Trip | internal/spending/tracker.go:162-168 | the first violation stays |
| SpendingTheorems.FailedChargeChangesNoTracker | internal/spending/tracker.go:97-130 | an error changes no tracker, whatever it did to the file |
| SpendingTheorems.AnswerIsExact | internal/spending/tracker.go:121-157 | the day total told is the ledger's sum at that locked step, and the answer is a violation if and only if the run was tripped before or either cap is passed |
| SpendingTheorems.ChargedIff | internal/spending/tracker.go:102-128 | in any state a charge of any run goes through if and only if amounts and ledger allow it |
| SpendingTheorems.RunTotalIsSumOfCharges | internal/spending/tracker.go:102-133 | over every interleaving a run's total is the sum of its successful charges |
| SpendingTheorems.TripIsForGood | internal/spending/tracker.go:146-168 | a trip never clears or changes, and a warning given stays given |
| SpendingTheorems.WarnsOnFirst | internal/spending/tracker.go:135-144 | the warning fires on a charge if and only if it is the run's first to meet the exact threshold |
| SpendingTheorems.TripsOnFirst | internal/spending/tracker.go:146-157 | a cap trips a run on its first charge over a cap, if and only if nothing tripped it before |
| SpendingTheorems.OvershootIsOneCharge | internal/spending/tracker.go:146-150 | at a per-run trip the total is over the cap by at most the last charge |
| SpendingTheorems.LedgerNeverShrinks | internal/spending/store.go:123-174 | a day's file only grows, and its sum never decreases |
| SpendingTheorems.TotalsToldNeverDecrease | internal/spending/store.go:123-174 | a later charge of any run on the same day is told at least the earlier total plus its own amount |
| SpendingTheorems.LedgerBalances | internal/spending/store.go:126-174 | a day's sum is what it was plus every acknowledged charge plus every charge written before an error |
| SpendingTheorems.LedgerCoversAllRuns | internal/spending/tracker.go:121-133 | over any number of days and any runs, at every step the totals of the runs that share the ledger together equal what its files gained less the charges written before an error |
| SpendingTheorems.CapBindsEveryRun | internal/spending/tracker.go:146-157 | once the ledger is over a run's daily cap, whoever spent it, every later charge of that run on that day is answered with a violation |
| Decision.PayloadNamesOneStatement | internal/humangate/humangate.go:165-176 | a statement whose fields hold no period is the only one with its signed payload |
| Decision.RecordKeepsResponse | internal/humangate/evidence.go:118-161 | each field of a record is the response's, or its first 256 bytes less broken UTF-8 if it is longer; the record is marked truncated if and only if a field is, and otherwise gives the response back |
| Decision.EvidenceRoundTrip | internal/humangate/evidence.go:171-212 | evidence written to an entry is read back whole |
| VerifyLog.VerifyDecisions | internal/humangate/verifylog.go:141-263 | the counts are the numbers of verified and of unanswered entries, and the failures are exactly the failed entries with their positions, in order |
| VerifyLog.VerifiedIff | internal/humangate/verifylog.go:193-262 | an entry counts as verified if and only if it is checkable and its event is the one its response deserves: approved, denied, bad signature, another request, another subject |
| VerifyLog.UncheckedIff | internal/humangate/verifylog.go:155-191 | which entries pass or count as unanswered without a check |
| VerifyLog.FailedFor | internal/humangate/verifylog.go:141-252 | for what reason each other entry fails |
| VerifyLog.NoFailuresMeansAllPass | internal/humangate/verifylog.go:112-148 | a report is clean if and only if every entry passes |
| VerifyLog.ApprovalPassesIff | internal/humangate/verifylog.go:141-359 | with a pinned key an approval passes if and only if it says terminal and has no request, or holds that key's signature over an approval of its own subject for its own tool |
| VerifyLog.ReportIsSound | internal/humangate/verifylog.go:114-263 | in a log without failures every approval is of one of those two kinds |
| VerifyLog.EveryApprovalWasGiven | internal/humangate/verifylog.go:114-140 | if the approver's key signs only the approver's statements, every webhook approval of such a log is one of them |
| HumanGate.Verify | internal/mcpgate/webhook_approver.go:205-234 | approval if and only if the key signed an approval of this very request and subject; each failed check has its own event, and no other case has one; the evidence gives the answer back unless a field was too long |
| HumanGate.DecideByWebhook | internal/mcpgate/webhook_approver.go:101-187 | the first answer of the polling rounds is judged; the request is delivered once at most, and is if and only if a post got through before an answer; without an answer the request is kept as evidence |
| HumanGate.DecideByRace | internal/mcpgate/race_approver.go:27-59 | the first decision to arrive is the decision; if there is none, the first evidence is kept |
| HumanGate.RaceIsPossible | internal/mcpgate/race_approver.go:27-59 | racing any sources in any arrival order gives an outcome a single source could give |
| HumanGate.FirstTerminalDecides | internal/mcpgate/race_approver.go:27-59 | a terminal whose decision arrives first decides the gate, whatever comes later |
| HumanGate.Gate.RunGate | internal/mcpgate/gate.go:1041-1138 | one triggered and one terminal entry, with the event, the source, the subject and the evidence of the decision; forwarded exactly on approval or on a timeout under proceed, refused otherwise, aborted on any other timeout |
| HumanGate.OneTerminalEvent | internal/mcpgate/gate.go:1094-1137 | the terminal event says approved if and only if the decision was, and timeout if and only if there was none |
| HumanGate.ApprovalIsSigned | internal/mcpgate/webhook_approver.go:189-234 | an approval is the terminal's or rests on a valid signature over this very call |
| HumanGate.GateReverifies | internal/mcpgate/gate.go:1041-1138 | what a gate writes, for every possible outcome, passes the offline check under its key, unless a response field was too long, and then is reported as truncated |
| HumanGate.RunGates | internal/mcpgate/gate.go:1041-1138 | a gate that takes any calls through any terminal and webhook sources, in any arrival order, leaves a log that passes the offline check if and only if no deciding answer was too long to keep |
| HumanGate.RunReverifies | internal/mcpgate/gate.go:1041-1138 | the log of any run of gates is free of failures if and only if no response of it was too long |
| Did.Base58Encode | pkg/did/did.go:110-143 | the division loop writes the base-58 digits of the bytes, with a '1' for each leading zero |
| Did.Base58Decode | pkg/did/did.go:147-172 | the multiplication loop gives the bytes of the digits, or the first bad character, or refuses more than 47 |
| Did.DecodeEncode | pkg/did/did.go:110-172 | decoding undoes encoding for all bytes of at most 47 digits, leading zeros included |
| Did.EncodeDecode | pkg/did/did.go:110-172 | encoding undoes decoding, and exactly the texts over the alphabet of at most 47 characters are accepted |
| Did.DecodeRefusesIff | pkg/did/did.go:147-172 | a text is refused if and only if it is too long, or else for its first character outside the alphabet |
| Did.PayloadLength | pkg/did/did.go:29-43 | the payload of every 32-byte key encodes to exactly 47 digits without a leading '1' |
| Did.StartsWithZ6Mk | pkg/did/did.go:18-52 | the identifier of every key starts with did:key:z6Mk |
| Did.KeyRoundTrip | pkg/did/did.go:50-96 | every key is recovered from its identifier, which is 56 bytes long |
| Did.DidRoundTrip | pkg/did/did.go:50-96 | every accepted identifier is the one made of its key |
| Did.DidEqualityIsKeyEquality | pkg/did/did.go:29-96 | comparing identifiers is comparing keys |
| EditDistance.EditDistance | pkg/manifest/strict.go:244-263 | the two-row loop computes the Levenshtein recurrence |
| EditDistance.ScriptOfLength | pkg/manifest/strict.go:244-263 | some script of that many insertions, deletions and substitutions turns one string into the other |
| EditDistance.NoShorterScript | pkg/manifest/strict.go:244-263 | and no script is shorter |
| EditDistance.Triangle | pkg/manifest/strict.go:244-263 | the distance satisfies the triangle inequality |
| EditDistance.Symmetric | pkg/manifest/strict.go:244-263 | and is symmetric |
| EditDistance.ZeroIffEqual | pkg/manifest/strict.go:244-263 | and is zero for equal strings only |
| EditDistance.NearestKey | pkg/manifest/strict.go:229-241 | the suggestion is nearest, least in string order among the nearest, and close enough; there is none only if no key is close enough |
| Strings.LessIff | pkg/manifest/strict.go:229-241 | the string order the ties are broken in, by the first place where two strings differ |
| EditDistance.BestIsUnique | pkg/manifest/strict.go:229-241 | it does not depend on the order of the keys |
| GuestEnv.ValidateCredentialName | pkg/manifest/credentials.go:74-90 | a name passes if and only if it is a portable variable name, else the first reason |
| GuestEnv.BuildGuestEnv | internal/sandbox/firecracker.go:507-543 | whatever the order of map iteration, gate variables win over infrastructure and both over credentials |
| GuestEnv.ComposedSays | internal/sandbox/firecracker.go:507-543 | name by name: gate variables as given, every proxy name with the address of the proxy on the gateway, the exemption empty, the network names with the guest and the gateway, and credentials under every other name |
| GuestEnv.WrittenIsReserved | pkg/manifest/credentials.go:92-124 | every name the runtime writes of its own is one that no credential may claim |
| GuestEnv.ReservedIff | pkg/manifest/credentials.go:112-124 | a name is reserved if and only if it is a proxy name, or starts with the prefix, letter case apart |
| GuestEnv.ReservedIsWritten | pkg/manifest/credentials.go:22-25 | of every reserved proxy name the runtime writes the capital and the small spelling |
| GuestEnv.CredentialsSurvive | internal/sandbox/firecracker.go:507-543 | a credential with an unreserved name reaches the guest with its own value, and none changes what the run builds |
| GuestEnv.OneOrder | internal/sandbox/firecracker.go:557-560 | sorted keys have one order, so an environment renders to the same bytes every time |
| GuestEnv.RenderGuestEnvFile | internal/sandbox/firecracker.go:558-567 | refused if and only if a name is not valid, else one export line a variable in sorted order |
| GuestEnv.RenderCommand | internal/sandbox/firecracker.go:433-440 | the command script with every argument quoted, or the image's own command |
| Shell.FeedQuoted | internal/sandbox/firecracker.go:564 | inside single quotes a quoted value is read as the value, whatever its characters |
| Shell.EnvironmentRoundTrip | internal/sandbox/firecracker.go:545-567 | sourcing the rendered file under POSIX quoting gives exactly the environment |
| Shell.CommandRoundTrip | internal/sandbox/firecracker.go:433-440 | reading the command script gives one command, `exec` with exactly the declared arguments |

## Left out

- Ed25519, SHA-256, base64, `encoding/json`, `math/big` reading of numerals and `strconv.Atoi` are
  parameters with the hypotheses above; nothing is claimed about the text of the last line's signature.
- HTTP servers and headers, method and upgrade checks, TLS, the reverse proxy, and durations: only the
  order of the checks and the arrival of events are modelled. Body caps are modelled for metering only.
- Torn writes, and the file locks themselves: a locked section is one step on a sequence of records.
- Blank lines in an audit file, which the verifier skips, and logs written without an identity.
- Times a JSON encoder refuses, and the spelling of timestamps; a bucket file is named by its hour number.
- Strings are sequences of characters. Byte lengths and runes are told apart only where the source's
  result depends on it; `ParseUSD` and `nearestKey` take the trimmed and the lower-cased text as given.
- `checkUnambiguousNames`, `checkRoutingName`: straight-line verdicts on two strings. Their one
  consequence used here is that a gated tool name is not empty.
- A body the decoder cannot split into tokens: the walk sees it as tokens that run out.
- A second reader or closer that runs at the same time as another on one metered body.
- `meterCompleted`'s look for a result member, and the audit events of spending.
- The terminal approver's input timing: it is an approver that approves, denies or does neither.
- `subject_digest` is a given string; its canonical JSON encoding is not modelled.
- The shell reader gives up on syntax the two files never use. A NUL character, which no environment
  holds, is treated as any other.
- Unicode tables: the folding orbits are a parameter, restricted only on ASCII.
- `mime.ParseMediaType`, `strings.EqualFold` and the header scan of the upgrade test are parameters.
- `strings.ToUpper` in the reserved-name test is modelled on ASCII; credential names are ASCII.
- Home-directory handling, network rules, isolation ranking, YAML decoding, process control and all
  display code.
