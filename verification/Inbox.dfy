/** The inbound half of the A2A gate as a protocol of many goroutines: the public listener that
    checks, admits and parks calls, the inbox the agent drains, and the replies
    (internal/a2a/listener.go, internal/a2a/gate.go). Every event is one atomic section. */
module Inbox {
  import opened Wrappers
  import opened SignedJson
  import E = Envelope
  import R = Replay

  const QUOTA: nat := 16

  datatype Peer = Peer(name: string, did: string)

  /** One gate: what it verifies with, whom it is, its declared peers, and its replay guard. */
  datatype Config = Config(w: World<E.Envelope>, self: string, peers: seq<Peer>, guard: nat)

  /** The map by DID that the gate fills from the list: a later peer replaces an earlier one. */
  function PeerByDid(peers: seq<Peer>, did: string): Option<string> {
    if peers == [] then None
    else if peers[|peers| - 1].did == did then Some(peers[|peers| - 1].name)
    else PeerByDid(peers[..|peers| - 1], did)
  }

  function Capacity(cfg: Config): nat {
    QUOTA * (if |cfg.peers| > 1 then |cfg.peers| else 1)
  }

  /** Where a call stands. It is held against its peer's quota from admission to delivery. */
  datatype Stage = Checked | Shed | Admitted | Queued | InHand | Delivered | Replying | Settled

  /** One call object. `admission` is the place of its envelope in the replay log; `waiting` says
      the listener still holds the peer's connection for it; `slot` counts what its one-slot
      response channel holds, `replies` what was ever sent there. */
  datatype Call = Call(wire: string, env: E.Envelope, peer: string, admission: nat,
                       stage: Stage, waiting: bool, slot: nat, replies: nat)

  predicate Holding(stage: Stage) {
    stage == Admitted || stage == Queued || stage == InHand
  }

  datatype State = State(replay: R.State, calls: seq<Call>, used: map<string, nat>, inbox: seq<nat>,
                         pending: map<string, nat>)

  const INITIAL := State(R.INITIAL, [], map[], [], map[])

  datatype Refusal = BadEnvelope(reason: E.Reason) | UnknownPeer | WrongRecipient | ReplayRefused(why: R.Reason)

  datatype Event =
    | Elsewhere(e: R.Event)                        // another process of this identity
    | Receive(wire: string, now: int, disk: R.Disk) // the listener checks one message
    | Admit(c: nat)                                // quota check, under the mutex
    | Enqueue(c: nat)                              // send on the inbox channel
    | Take                                         // receive from the inbox channel
    | Deliver(c: nat)                              // into pending, under the mutex
    | TakeReply(msgId: string)                     // out of pending, under the mutex
    | SendReply(c: nat, sealed: bool)              // send on the response channel, if sealing worked
    | Collect(c: nat)                              // the listener forwards the reply
    | Expire(c: nat)                               // timeout, or the peer hung up

  function Used(s: State, peer: string): nat {
    if peer in s.used then s.used[peer] else 0
  }

  /** The checks before the replay guard, in order. */
  function Authorize(cfg: Config, wire: string): Result<(E.Envelope, string), Refusal> {
    match E.Open(cfg.w, wire)
    case Err(reason) => Err(BadEnvelope(reason))
    case Ok(env) =>
      match PeerByDid(cfg.peers, env.from)
      case None => Err(UnknownPeer)
      case Some(peer) => if env.to != cfg.self then Err(WrongRecipient) else Ok((env, peer))
  }

  /** The last peer declared with this DID. */
  predicate NamedLast(peers: seq<Peer>, i: nat, did: string)
    requires i < |peers|
  {
    peers[i].did == did && forall j :: i < j < |peers| ==> peers[j].did != did
  }

  lemma {:induction false} PeerByDidIs(peers: seq<Peer>, did: string)
    ensures PeerByDid(peers, did).None? <==> forall i :: 0 <= i < |peers| ==> peers[i].did != did
    ensures forall name :: PeerByDid(peers, did) == Some(name) <==>
              exists i :: 0 <= i < |peers| && NamedLast(peers, i, did) && peers[i].name == name
  {
    if peers != [] {
      var n := |peers| - 1;
      PeerByDidIs(peers[..n], did);
      if peers[n].did == did {
        assert NamedLast(peers, n, did);
      } else {
        forall i | 0 <= i < n ensures NamedLast(peers[..n], i, did) <==> NamedLast(peers, i, did) {}
      }
    }
  }

  /** A message passes these checks exactly if it opens, its sender is a declared peer, under the name
      declared last for that DID, and it is addressed to this agent; and which check refuses it. */
  lemma AuthorizedIff(cfg: Config, wire: string)
    ensures forall env, peer :: Authorize(cfg, wire) == Ok((env, peer)) <==>
              && E.Open(cfg.w, wire) == Ok(env) && env.to == cfg.self
              && exists i :: 0 <= i < |cfg.peers| && NamedLast(cfg.peers, i, env.from) && cfg.peers[i].name == peer
    ensures forall reason :: Authorize(cfg, wire) == Err(BadEnvelope(reason)) <==> E.Open(cfg.w, wire) == Err(reason)
    ensures Authorize(cfg, wire) == Err(UnknownPeer) <==>
              && E.Open(cfg.w, wire).Ok?
              && forall i :: 0 <= i < |cfg.peers| ==> cfg.peers[i].did != E.Open(cfg.w, wire).value.from
    ensures Authorize(cfg, wire) == Err(WrongRecipient) <==>
              && E.Open(cfg.w, wire).Ok? && E.Open(cfg.w, wire).value.to != cfg.self
              && exists i :: 0 <= i < |cfg.peers| && cfg.peers[i].did == E.Open(cfg.w, wire).value.from
  {
    if E.Open(cfg.w, wire).Ok? {
      PeerByDidIs(cfg.peers, E.Open(cfg.w, wire).value.from);
    }
  }

  function ReplayEvent(cfg: Config, e: Event): Option<R.Event> {
    match e
    case Elsewhere(r) => if r.guard != cfg.guard then Some(r) else None
    case Receive(wire, now, disk) =>
      (match Authorize(cfg, wire)
       case Ok((env, _)) => Some(R.Check(cfg.guard, env.msgId, env.timestamp, now, disk))
       case Err(_) => None)
    case _ => None
  }

  function At(s: State, c: nat, stage: Stage): State
    requires c < |s.calls|
  {
    s.(calls := s.calls[c := s.calls[c].(stage := stage)])
  }

  /** Channel sends wait for room, receives for a message; everything else needs only its turn. */
  predicate Enabled(cfg: Config, s: State, e: Event) {
    match e
    case Elsewhere(r) => r.guard != cfg.guard
    case Receive(_, _, _) => true
    case Admit(c) => c < |s.calls| && s.calls[c].stage == Checked
    case Enqueue(c) => c < |s.calls| && s.calls[c].stage == Admitted && |s.inbox| < Capacity(cfg)
    case Take => s.inbox != [] && s.inbox[0] < |s.calls|
    case Deliver(c) => c < |s.calls| && s.calls[c].stage == InHand && Used(s, s.calls[c].peer) > 0
    case TakeReply(msgId) => msgId in s.pending ==> s.pending[msgId] < |s.calls|
    case SendReply(c, sealed) => c < |s.calls| && s.calls[c].stage == Replying && (sealed ==> s.calls[c].slot < 1)
    case Collect(c) => c < |s.calls| && s.calls[c].waiting && s.calls[c].slot > 0
    case Expire(c) => c < |s.calls| && s.calls[c].waiting
  }

  /** The replay guard has answered: on admission a call object is made. */
  function AfterGuard(s: State, replay: R.State, ok: bool, call: Call): State {
    s.(replay := replay, calls := if ok then s.calls + [call] else s.calls)
  }

  function Next(cfg: Config, s: State, e: Event): State
    requires Enabled(cfg, s, e)
  {
    match e
    case Elsewhere(r) => s.(replay := R.Step(s.replay, r))
    case Receive(wire, _, _) =>
      (match Authorize(cfg, wire)
       case Err(_) => s
       case Ok((env, peer)) =>
         var check := ReplayEvent(cfg, e).value;
         AfterGuard(s, R.Step(s.replay, check), R.Verdict(s.replay, check).Ok?,
                    Call(wire, env, peer, |s.replay.log|, Checked, false, 0, 0)))
    case Admit(c) =>
      var peer := s.calls[c].peer;
      if Used(s, peer) >= QUOTA then At(s, c, Shed)
      else At(s, c, Admitted).(used := s.used[peer := Used(s, peer) + 1])
    case Enqueue(c) =>
      s.(calls := s.calls[c := s.calls[c].(stage := Queued, waiting := true)], inbox := s.inbox + [c])
    case Take => At(s, s.inbox[0], InHand).(inbox := s.inbox[1..])
    case Deliver(c) =>
      var call := s.calls[c];
      At(s, c, Delivered).(used := s.used[call.peer := Used(s, call.peer) - 1],
                           pending := s.pending[call.env.msgId := c])
    case TakeReply(msgId) =>
      if msgId !in s.pending then s else At(s, s.pending[msgId], Replying).(pending := s.pending - {msgId})
    case SendReply(c, sealed) =>
      var call := s.calls[c];
      s.(calls := s.calls[c :=
           if sealed then call.(stage := Settled, slot := call.slot + 1, replies := call.replies + 1)
                               else call.(stage := Settled)])
    case Collect(c) => s.(calls := s.calls[c := s.calls[c].(waiting := false, slot := s.calls[c].slot - 1)])
    case Expire(c) =>
      s.(calls := s.calls[c := s.calls[c].(waiting := false)], pending := s.pending - {s.calls[c].env.msgId})
  }

  // ----- runs ----------------------------------------------------------------

  /** The state after a run from the gate's start. An event whose turn cannot come does not happen. */
  function Run(cfg: Config, events: seq<Event>): State {
    if events == [] then INITIAL
    else
      var before, e := Run(cfg, events[..|events| - 1]), events[|events| - 1];
      if Enabled(cfg, before, e) then Next(cfg, before, e) else before
  }

  /** What a run asks of the shared replay store. */
  function Trace(cfg: Config, events: seq<Event>): seq<R.Event> {
    if events == [] then []
    else
      var init := Trace(cfg, events[..|events| - 1]);
      match ReplayEvent(cfg, events[|events| - 1])
      case Some(r) => init + [r]
      case None => init
  }

  lemma RunSnoc(cfg: Config, events: seq<Event>, e: Event)
    ensures var s := Run(cfg, events);
            Run(cfg, events + [e]) == if Enabled(cfg, s, e) then Next(cfg, s, e) else s
  {
    assert (events + [e])[..|events|] == events;
  }

  // ----- the invariant -------------------------------------------------------

  /** The admitted but undelivered calls of some peers. */
  ghost function Held(s: State, peers: set<string>): set<nat> {
    set c: nat | c < |s.calls| && Holding(s.calls[c].stage) && s.calls[c].peer in peers
  }

  ghost predicate QuotasKept(s: State) {
    forall p :: Used(s, p) == |Held(s, {p})| <= QUOTA
  }

  ghost predicate Distinct(ids: seq<nat>) {
    forall i, j :: 0 <= i < j < |ids| ==> ids[i] != ids[j]
  }

  ghost predicate InboxIsQueue(s: State) {
    && Distinct(s.inbox)
    && (forall c :: c in s.inbox ==> c < |s.calls| && s.calls[c].stage == Queued)
    && (forall c :: 0 <= c < |s.calls| && s.calls[c].stage == Queued ==> c in s.inbox)
  }

  ghost predicate PendingIsDelivered(s: State) {
    forall m :: m in s.pending ==>
      s.pending[m] < |s.calls| && s.calls[s.pending[m]].stage == Delivered && s.calls[s.pending[m]].env.msgId == m
  }

  /** One reply at most, and none before the call is settled; the peer's connection is held for a
      call that reached the inbox only. */
  predicate Orderly(call: Call) {
    && call.slot <= call.replies <= 1 && (call.stage != Settled ==> call.replies == 0)
    && (call.waiting ==> call.stage != Checked && call.stage != Shed && call.stage != Admitted)
  }

  /** The call passed every check: signature, declared peer, recipient, replay. */
  predicate Passed(cfg: Config, s: State, call: Call) {
    && Authorize(cfg, call.wire) == Ok((call.env, call.peer))
    && call.admission < |s.replay.log|
    && s.replay.log[call.admission].id == call.env.msgId
    && s.replay.log[call.admission].timestamp == call.env.timestamp
  }

  ghost predicate CallsPassed(cfg: Config, s: State) {
    && (forall c :: 0 <= c < |s.calls| ==> Passed(cfg, s, s.calls[c]) && Orderly(s.calls[c]))
    && (forall c, d :: 0 <= c < d < |s.calls| ==> s.calls[c].admission < s.calls[d].admission)
  }

  ghost predicate Inv(cfg: Config, s: State) {
    QuotasKept(s) && InboxIsQueue(s) && PendingIsDelivered(s) && CallsPassed(cfg, s)
  }

  lemma GuardKeepsCalls(cfg: Config, s: State, replay: R.State, ok: bool, call: Call)
    requires CallsPassed(cfg, s) && s.replay.log <= replay.log
    requires ok ==> Passed(cfg, s.(replay := replay), call) && call.admission == |s.replay.log|
    requires Orderly(call)
    ensures CallsPassed(cfg, AfterGuard(s, replay, ok, call))
  {
    var s' := AfterGuard(s, replay, ok, call);
    forall c | 0 <= c < |s'.calls| ensures Passed(cfg, s', s'.calls[c]) && Orderly(s'.calls[c]) {
      if c < |s.calls| {
        assert Passed(cfg, s, s.calls[c]) && Orderly(s.calls[c]);
      }
    }
    forall c, d | 0 <= c < d < |s'.calls| ensures s'.calls[c].admission < s'.calls[d].admission {
      assert Passed(cfg, s, s.calls[c]);
    }
  }

  /** What only grows the replay log keeps the calls' claims on it. */
  lemma GuardKeeps(cfg: Config, s: State, replay: R.State, ok: bool, call: Call)
    requires Inv(cfg, s) && s.replay.log <= replay.log
    requires ok ==> Passed(cfg, s.(replay := replay), call) && call.admission == |s.replay.log|
    requires call.stage == Checked && call.replies == call.slot == 0 && !call.waiting
    ensures Inv(cfg, AfterGuard(s, replay, ok, call))
  {
    GuardKeepsCalls(cfg, s, replay, ok, call);
    SameHoldings(s, AfterGuard(s, replay, ok, call));
  }

  lemma SameHoldings(s: State, s': State)
    requires QuotasKept(s) && |s.calls| <= |s'.calls| && s'.used == s.used
    requires forall c :: 0 <= c < |s.calls| ==>
               s'.calls[c].peer == s.calls[c].peer && Holding(s'.calls[c].stage) == Holding(s.calls[c].stage)
    requires forall c :: |s.calls| <= c < |s'.calls| ==> !Holding(s'.calls[c].stage)
    ensures QuotasKept(s')
  {
    forall p ensures Used(s', p) == |Held(s', {p})| <= QUOTA {
      assert Used(s, p) == |Held(s, {p})| <= QUOTA;
      assert Held(s', {p}) == Held(s, {p});
    }
  }

  /** The call at `c` changes in stage and bookkeeping only, and keeps to one reply. */
  predicate Moves(s: State, s': State, c: nat) {
    && c < |s.calls| && s'.replay == s.replay && |s'.calls| == |s.calls|
    && s'.calls == s.calls[c := s'.calls[c]]
    && s'.calls[c] == s.calls[c].(stage := s'.calls[c].stage, waiting := s'.calls[c].waiting,
                                  slot := s'.calls[c].slot, replies := s'.calls[c].replies)
    && Orderly(s'.calls[c])
  }

  lemma MovesKeepCalls(cfg: Config, s: State, s': State, c: nat)
    requires CallsPassed(cfg, s) && Moves(s, s', c)
    ensures CallsPassed(cfg, s')
  {
    forall d | 0 <= d < |s'.calls| ensures Passed(cfg, s', s'.calls[d]) && Orderly(s'.calls[d]) {
      assert Passed(cfg, s, s.calls[d]) && Orderly(s.calls[d]);
    }
  }

  function Weight(stage: Stage): int { if Holding(stage) then 1 else 0 }

  lemma HeldElsewhere(s: State, s': State, c: nat, p: string)
    requires Moves(s, s', c)
    ensures Held(s', {p}) - {c} == Held(s, {p}) - {c}
  {
    assert forall d | 0 <= d < |s.calls| && d != c :: s'.calls[d] == s.calls[d];
  }

  lemma HeldAt(s: State, c: nat, p: string)
    requires c < |s.calls|
    ensures |Held(s, {p})| == |Held(s, {p}) - {c}| + (if p == s.calls[c].peer then Weight(s.calls[c].stage) else 0)
  {
    var rest := Held(s, {p}) - {c};
    if c in Held(s, {p}) {
      assert Held(s, {p}) == rest + {c};
    } else {
      assert Held(s, {p}) == rest;
    }
  }

  lemma HeldMoves(s: State, s': State, c: nat, p: string)
    requires Moves(s, s', c)
    ensures |Held(s', {p})| ==
            |Held(s, {p})| + (if p == s.calls[c].peer then Weight(s'.calls[c].stage) - Weight(s.calls[c].stage) else 0)
  {
    HeldElsewhere(s, s', c, p);
    HeldAt(s, c, p);
    HeldAt(s', c, p);
  }

  /** The counters follow the call that moved. */
  lemma MovesKeepQuotas(s: State, s': State, c: nat)
    requires QuotasKept(s) && Moves(s, s', c)
    requires forall p {:trigger Used(s', p)} :: Used(s', p) ==
               Used(s, p) + (if p == s.calls[c].peer then Weight(s'.calls[c].stage) - Weight(s.calls[c].stage) else 0)
    requires forall p {:trigger Used(s', p)} :: Used(s', p) <= QUOTA
    ensures QuotasKept(s')
  {
    forall p ensures Used(s', p) == |Held(s', {p})| <= QUOTA {
      assert Used(s, p) == |Held(s, {p})| <= QUOTA;
      HeldMoves(s, s', c, p);
    }
  }

  lemma UsedBound(s: State, p: string)
    requires QuotasKept(s)
    ensures Used(s, p) <= QUOTA
  {
    assert Used(s, p) == |Held(s, {p})| <= QUOTA;
  }

  /** A move that leaves the quota alone keeps the counters and the calls. */
  lemma QuietMove(cfg: Config, s: State, s': State, c: nat)
    requires QuotasKept(s) && CallsPassed(cfg, s) && Moves(s, s', c)
    requires s'.used == s.used && Holding(s'.calls[c].stage) == Holding(s.calls[c].stage)
    ensures QuotasKept(s') && CallsPassed(cfg, s')
  {
    MovesKeepCalls(cfg, s, s', c);
    forall p ensures Used(s', p) == Used(s, p) <= QUOTA { UsedBound(s, p); }
    MovesKeepQuotas(s, s', c);
  }

  /** A move by a call that is on no queue, or that stays at its stage, keeps the queues. */
  lemma QueuesKeep(s: State, s': State, c: nat)
    requires InboxIsQueue(s) && PendingIsDelivered(s) && Moves(s, s', c)
    requires s'.inbox == s.inbox
    requires forall m :: m in s'.pending ==> m in s.pending && s'.pending[m] == s.pending[m]
    requires s'.calls[c].stage == s.calls[c].stage
          || (s.calls[c].stage != Queued && s'.calls[c].stage != Queued
              && forall m :: m in s'.pending ==> s'.pending[m] != c)
    ensures InboxIsQueue(s') && PendingIsDelivered(s')
  {
  }

  lemma AdmitKeeps(cfg: Config, s: State, c: nat)
    requires Inv(cfg, s) && Enabled(cfg, s, Admit(c))
    ensures Inv(cfg, Next(cfg, s, Admit(c)))
  {
    var s' := Next(cfg, s, Admit(c));
    assert Orderly(s.calls[c]);
    if Used(s, s.calls[c].peer) >= QUOTA {
      QuietMove(cfg, s, s', c);
    } else {
      MovesKeepCalls(cfg, s, s', c);
      forall p ensures Used(s', p) <= QUOTA { UsedBound(s, p); }
      MovesKeepQuotas(s, s', c);
    }
    QueuesKeep(s, s', c);
  }

  lemma EnqueueKeeps(cfg: Config, s: State, c: nat)
    requires Inv(cfg, s) && Enabled(cfg, s, Enqueue(c))
    ensures Inv(cfg, Next(cfg, s, Enqueue(c)))
  {
    var s' := Next(cfg, s, Enqueue(c));
    assert Orderly(s.calls[c]);
    QuietMove(cfg, s, s', c);
    PutInQueue(s, s', c);
  }

  lemma PutInQueue(s: State, s': State, c: nat)
    requires InboxIsQueue(s) && PendingIsDelivered(s) && Moves(s, s', c)
    requires s.calls[c].stage == Admitted && s'.calls[c].stage == Queued
    requires s'.inbox == s.inbox + [c] && s'.pending == s.pending
    ensures InboxIsQueue(s') && PendingIsDelivered(s')
  {
    assert c !in s.inbox;
    forall d | 0 <= d < |s'.calls| && s'.calls[d].stage == Queued ensures d in s'.inbox {
      assert d != c ==> s'.calls[d] == s.calls[d];
    }
  }

  lemma TakeFromQueue(s: State, s': State, c: nat)
    requires InboxIsQueue(s) && s.inbox != [] && c == s.inbox[0] && Moves(s, s', c) && s'.inbox == s.inbox[1..]
    requires PendingIsDelivered(s) && s.calls[c].stage == Queued && s'.calls[c].stage == InHand
    requires s'.pending == s.pending
    ensures InboxIsQueue(s') && PendingIsDelivered(s')
  {
    forall d | d in s'.inbox ensures d < |s'.calls| && s'.calls[d].stage == Queued {
      var i :| 0 <= i < |s'.inbox| && s'.inbox[i] == d;
      assert s.inbox[i + 1] == d && d in s.inbox;
    }
    forall d | 0 <= d < |s'.calls| && s'.calls[d].stage == Queued ensures d in s'.inbox {
      assert d in s.inbox;
      var i :| 0 <= i < |s.inbox| && s.inbox[i] == d;
      assert i > 0 && s'.inbox[i - 1] == d;
    }
  }

  lemma TakeMoves(cfg: Config, s: State, c: nat)
    requires InboxIsQueue(s) && CallsPassed(cfg, s) && s.inbox != [] && c == s.inbox[0]
    ensures Enabled(cfg, s, Take) && s.calls[c].stage == Queued && Moves(s, Next(cfg, s, Take), c)
    ensures Next(cfg, s, Take).calls[c].stage == InHand && Next(cfg, s, Take).used == s.used
  {
    assert c in s.inbox;
    assert Orderly(s.calls[c]);
  }

  lemma TakeKeeps(cfg: Config, s: State)
    requires Inv(cfg, s) && Enabled(cfg, s, Take)
    ensures Inv(cfg, Next(cfg, s, Take))
  {
    var s', c := Next(cfg, s, Take), s.inbox[0];
    TakeMoves(cfg, s, c);
    QuietMove(cfg, s, s', c);
    TakeFromQueue(s, s', c);
  }

  lemma DeliverKeeps(cfg: Config, s: State, c: nat)
    requires Inv(cfg, s) && Enabled(cfg, s, Deliver(c))
    ensures Inv(cfg, Next(cfg, s, Deliver(c)))
  {
    var s' := Next(cfg, s, Deliver(c));
    assert Orderly(s.calls[c]);
    MovesKeepCalls(cfg, s, s', c);
    forall p ensures Used(s', p) <= QUOTA { UsedBound(s, p); }
    MovesKeepQuotas(s, s', c);
    DeliverQueues(s, s', c);
  }

  lemma DeliverQueues(s: State, s': State, c: nat)
    requires InboxIsQueue(s) && PendingIsDelivered(s) && Moves(s, s', c)
    requires s.calls[c].stage == InHand && s'.calls[c].stage == Delivered
    requires s'.inbox == s.inbox && s'.pending == s.pending[s.calls[c].env.msgId := c]
    ensures InboxIsQueue(s') && PendingIsDelivered(s')
  {
  }

  lemma TakeReplyMoves(cfg: Config, s: State, msgId: string)
    requires PendingIsDelivered(s) && CallsPassed(cfg, s) && msgId in s.pending
    ensures Enabled(cfg, s, TakeReply(msgId)) && s.calls[s.pending[msgId]].stage == Delivered
    ensures var s', c := Next(cfg, s, TakeReply(msgId)), s.pending[msgId];
            && Moves(s, s', c) && s'.calls[c].stage == Replying && s'.used == s.used && s'.inbox == s.inbox
            && forall m :: m in s'.pending ==> m in s.pending && s'.pending[m] == s.pending[m] != c
  {
    assert Orderly(s.calls[s.pending[msgId]]);
  }

  lemma TakeReplyKeeps(cfg: Config, s: State, msgId: string)
    requires Inv(cfg, s) && Enabled(cfg, s, TakeReply(msgId))
    ensures Inv(cfg, Next(cfg, s, TakeReply(msgId)))
  {
    if msgId in s.pending {
      var s', c := Next(cfg, s, TakeReply(msgId)), s.pending[msgId];
      TakeReplyMoves(cfg, s, msgId);
      QueuesKeep(s, s', c);
      QuietMove(cfg, s, s', c);
    }
  }

  lemma SendReplyKeeps(cfg: Config, s: State, c: nat, sealed: bool)
    requires Inv(cfg, s) && Enabled(cfg, s, SendReply(c, sealed))
    ensures Inv(cfg, Next(cfg, s, SendReply(c, sealed)))
  {
    var s' := Next(cfg, s, SendReply(c, sealed));
    assert Orderly(s.calls[c]);
    QuietMove(cfg, s, s', c);
    QueuesKeep(s, s', c);
  }

  lemma CollectKeeps(cfg: Config, s: State, c: nat)
    requires Inv(cfg, s) && Enabled(cfg, s, Collect(c))
    ensures Inv(cfg, Next(cfg, s, Collect(c)))
  {
    var s' := Next(cfg, s, Collect(c));
    assert Orderly(s.calls[c]);
    QuietMove(cfg, s, s', c);
    QueuesKeep(s, s', c);
  }

  lemma ExpireKeeps(cfg: Config, s: State, c: nat)
    requires Inv(cfg, s) && Enabled(cfg, s, Expire(c))
    ensures Inv(cfg, Next(cfg, s, Expire(c)))
  {
    var s' := Next(cfg, s, Expire(c));
    assert Orderly(s.calls[c]);
    QuietMove(cfg, s, s', c);
    QueuesKeep(s, s', c);
  }

  lemma GuardStepGrowsLog(cfg: Config, s: State, e: R.Event)
    ensures s.replay.log <= R.Step(s.replay, e).log
    ensures e.Check? && R.Verdict(s.replay, e).Ok? ==>
              R.Step(s.replay, e).log == s.replay.log + [R.Admission(e.id, e.timestamp, e.now, e.disk.removable)]
  {
  }

  lemma StepKeepsInv(cfg: Config, s: State, e: Event)
    requires Inv(cfg, s) && Enabled(cfg, s, e)
    ensures Inv(cfg, Next(cfg, s, e))
  {
    match e
    case Elsewhere(r) =>
      GuardStepGrowsLog(cfg, s, r);
      var nobody := E.Envelope("", "", "", "", 0, "");
      GuardKeeps(cfg, s, R.Step(s.replay, r), false, Call("", nobody, "", 0, Checked, false, 0, 0));
    case Receive(wire, now, disk) =>
      if Authorize(cfg, wire).Ok? {
        var (env, peer) := Authorize(cfg, wire).value;
        var check := R.Check(cfg.guard, env.msgId, env.timestamp, now, disk);
        GuardStepGrowsLog(cfg, s, check);
        GuardKeeps(cfg, s, R.Step(s.replay, check), R.Verdict(s.replay, check).Ok?,
                   Call(wire, env, peer, |s.replay.log|, Checked, false, 0, 0));
      }
    case Admit(c) => AdmitKeeps(cfg, s, c);
    case Enqueue(c) => EnqueueKeeps(cfg, s, c);
    case Take => TakeKeeps(cfg, s);
    case Deliver(c) => DeliverKeeps(cfg, s, c);
    case TakeReply(msgId) => TakeReplyKeeps(cfg, s, msgId);
    case SendReply(c, sealed) => SendReplyKeeps(cfg, s, c, sealed);
    case Collect(c) => CollectKeeps(cfg, s, c);
    case Expire(c) => ExpireKeeps(cfg, s, c);
  }

  lemma {:induction false} RunKeepsInv(cfg: Config, events: seq<Event>)
    ensures Inv(cfg, Run(cfg, events))
  {
    if events == [] {
      assert forall p :: Held(INITIAL, {p}) == {};
    } else {
      var before, e := Run(cfg, events[..|events| - 1]), events[|events| - 1];
      RunKeepsInv(cfg, events[..|events| - 1]);
      if Enabled(cfg, before, e) {
        StepKeepsInv(cfg, before, e);
      }
    }
  }

  // ----- no send ever blocks -------------------------------------------------

  lemma HeldByOne(s: State, p: string)
    requires QuotasKept(s)
    ensures |Held(s, {p})| <= QUOTA
  {
    assert Used(s, p) == |Held(s, {p})|;
  }

  lemma HeldSplit(s: State, peers: set<string>, p: string)
    requires p in peers
    ensures |Held(s, peers)| <= |Held(s, peers - {p})| + |Held(s, {p})|
  {
    var rest, one := Held(s, peers - {p}), Held(s, {p});
    assert Held(s, peers) == rest + one;
  }

  lemma {:induction false} HeldBound(s: State, peers: set<string>)
    requires QuotasKept(s)
    ensures |Held(s, peers)| <= QUOTA * |peers|
    decreases |peers|
  {
    if peers == {} {
      assert Held(s, peers) == {};
    } else {
      var p :| p in peers;
      HeldBound(s, peers - {p});
      HeldSplit(s, peers, p);
      HeldByOne(s, p);
    }
  }

  function Names(peers: seq<Peer>): set<string> {
    if peers == [] then {} else Names(peers[..|peers| - 1]) + {peers[|peers| - 1].name}
  }

  lemma {:induction false} NamesBound(peers: seq<Peer>, did: string)
    ensures |Names(peers)| <= |peers|
    ensures PeerByDid(peers, did).Some? ==> PeerByDid(peers, did).value in Names(peers)
  {
    if peers != [] {
      NamesBound(peers[..|peers| - 1], did);
    }
  }

  lemma {:induction false} DistinctCount(ids: seq<nat>, all: set<nat>)
    requires Distinct(ids) && forall c :: c in ids ==> c in all
    ensures |ids| <= |all|
    decreases |ids|
  {
    if ids != [] {
      var rest, last := ids[..|ids| - 1], ids[|ids| - 1];
      DistinctCount(rest, all - {last});
    }
  }

  /** In every reachable state, a call that was admitted finds room in the inbox channel. */
  lemma EnqueueNeverBlocks(cfg: Config, events: seq<Event>, c: nat)
    requires c < |Run(cfg, events).calls| && Run(cfg, events).calls[c].stage == Admitted
    ensures Enabled(cfg, Run(cfg, events), Enqueue(c))
  {
    RunKeepsInv(cfg, events);
    RoomForAdmitted(cfg, Run(cfg, events), c);
  }

  lemma PeersAreDeclared(cfg: Config, s: State)
    requires CallsPassed(cfg, s)
    ensures forall d :: 0 <= d < |s.calls| ==> s.calls[d].peer in Names(cfg.peers)
  {
    forall d | 0 <= d < |s.calls| ensures s.calls[d].peer in Names(cfg.peers) {
      assert Passed(cfg, s, s.calls[d]);
      NamesBound(cfg.peers, s.calls[d].env.from);
    }
  }

  lemma RoomForAdmitted(cfg: Config, s: State, c: nat)
    requires Inv(cfg, s) && c < |s.calls| && s.calls[c].stage == Admitted
    ensures |s.inbox| < Capacity(cfg)
  {
    var names := Names(cfg.peers);
    PeersAreDeclared(cfg, s);
    HeldBound(s, names);
    NamesBound(cfg.peers, "");
    assert c in Held(s, names) && c !in s.inbox;
    DistinctCount(s.inbox + [c], Held(s, names));
  }

  /** A signed reply finds its channel empty: each call gets one reply at most. */
  lemma ReplyNeverBlocks(cfg: Config, events: seq<Event>, c: nat)
    requires c < |Run(cfg, events).calls| && Run(cfg, events).calls[c].stage == Replying
    ensures Enabled(cfg, Run(cfg, events), SendReply(c, true))
    ensures Run(cfg, events).calls[c].replies == 0
  {
    RunKeepsInv(cfg, events);
    ChannelIsEmpty(cfg, Run(cfg, events), c);
  }

  lemma ChannelIsEmpty(cfg: Config, s: State, c: nat)
    requires CallsPassed(cfg, s) && c < |s.calls| && s.calls[c].stage == Replying
    ensures s.calls[c].slot == s.calls[c].replies == 0
  {
    assert Orderly(s.calls[c]);
  }

  lemma CallPassed(cfg: Config, s: State, c: nat)
    requires CallsPassed(cfg, s) && c < |s.calls|
    ensures Passed(cfg, s, s.calls[c])
  {
  }

  /** Delivery never underflows the quota it gives back. */
  lemma DeliverNeverUnderflows(cfg: Config, events: seq<Event>, c: nat)
    requires c < |Run(cfg, events).calls| && Run(cfg, events).calls[c].stage == InHand
    ensures Enabled(cfg, Run(cfg, events), Deliver(c))
  {
    RunKeepsInv(cfg, events);
    SlotIsHeld(Run(cfg, events), c);
  }

  lemma SlotIsHeld(s: State, c: nat)
    requires QuotasKept(s) && c < |s.calls| && Holding(s.calls[c].stage)
    ensures Used(s, s.calls[c].peer) > 0
  {
    var p := s.calls[c].peer;
    assert c in Held(s, {p});
    assert Used(s, p) == |Held(s, {p})|;
  }

  /** The quota counter of each peer counts its undelivered calls, sixteen at most; whatever is in
      the inbox or pending passed every check; no call object was answered twice. */
  lemma ReachableStates(cfg: Config, events: seq<Event>)
    ensures forall p :: Used(Run(cfg, events), p) == |Held(Run(cfg, events), {p})| <= QUOTA
    ensures forall c :: c in Run(cfg, events).inbox || c in Run(cfg, events).pending.Values ==>
            c < |Run(cfg, events).calls| && Passed(cfg, Run(cfg, events), Run(cfg, events).calls[c])
    ensures forall c :: 0 <= c < |Run(cfg, events).calls| ==> Run(cfg, events).calls[c].replies <= 1
    ensures forall c :: 0 <= c < |Run(cfg, events).calls| ==>
              var call := Run(cfg, events).calls[c];
              && E.Open(cfg.w, call.wire) == Ok(call.env) && call.env.to == cfg.self
              && exists i :: 0 <= i < |cfg.peers| && cfg.peers[i].did == call.env.from && cfg.peers[i].name == call.peer
  {
    RunKeepsInv(cfg, events);
    var s := Run(cfg, events);
    forall c | 0 <= c < |s.calls| ensures s.calls[c].replies <= 1 {
      assert Orderly(s.calls[c]);
    }
    forall c | 0 <= c < |s.calls|
      ensures && E.Open(cfg.w, s.calls[c].wire) == Ok(s.calls[c].env) && s.calls[c].env.to == cfg.self
              && exists i :: 0 <= i < |cfg.peers| && cfg.peers[i].did == s.calls[c].env.from
                             && cfg.peers[i].name == s.calls[c].peer
    {
      assert Passed(cfg, s, s.calls[c]);
      AuthorizedIff(cfg, s.calls[c].wire);
    }
    forall c | c in s.pending.Values ensures c < |s.calls| {
      var m :| m in s.pending && s.pending[m] == c;
    }
  }

  // ----- replies nobody waits for --------------------------------------------

  /** No reply to the call is under way, and none can come: it is settled, or delivered and no longer
      pending. */
  ghost predicate Closed(s: State, c: nat) {
    && c < |s.calls|
    && (s.calls[c].stage == Settled
        || (s.calls[c].stage == Delivered && forall m :: m in s.pending ==> s.pending[m] != c))
  }

  lemma ClosedStays(cfg: Config, s: State, e: Event, c: nat)
    requires InboxIsQueue(s) && PendingIsDelivered(s) && Closed(s, c) && Enabled(cfg, s, e)
    ensures Closed(Next(cfg, s, e), c) && Next(cfg, s, e).calls[c].replies == s.calls[c].replies
  {
    if e == Take {
      assert s.inbox[0] in s.inbox;
    } else if e.TakeReply? && e.msgId in s.pending {
      TakeLeavesClosed(s, e.msgId, c);
    }
  }

  lemma TakeLeavesClosed(s: State, msgId: string, c: nat)
    requires PendingIsDelivered(s) && Closed(s, c) && msgId in s.pending
    ensures s.pending[msgId] != c
  {
  }

  lemma {:induction false} ClosedForGood(cfg: Config, events: seq<Event>, more: seq<Event>, c: nat)
    requires Closed(Run(cfg, events), c)
    ensures Closed(Run(cfg, events + more), c)
    ensures Run(cfg, events + more).calls[c].replies == Run(cfg, events).calls[c].replies
    decreases |more|
  {
    if more == [] {
      assert events + more == events;
    } else {
      var init, e := more[..|more| - 1], more[|more| - 1];
      ClosedForGood(cfg, events, init, c);
      assert events + more == events + init + [e];
      RunSnoc(cfg, events + init, e);
      RunKeepsInv(cfg, events + init);
      if Enabled(cfg, Run(cfg, events + init), e) {
        ClosedStays(cfg, Run(cfg, events + init), e, c);
      }
    }
  }

  /** After a call's connection is gone, a reply to it is signed and sent all the same. */
  ghost predicate LateReply(cfg: Config, events: seq<Event>, c: nat, more: seq<Event>)
    requires c < |Run(cfg, events).calls|
  {
    var s := Run(cfg, events + [Expire(c)] + more);
    c < |s.calls| && !s.calls[c].waiting && s.calls[c].replies > Run(cfg, events).calls[c].replies
  }

  lemma OneEvent(cfg: Config, events: seq<Event>, more: seq<Event>, e: Event)
    ensures var s := Run(cfg, events + more);
            Run(cfg, events + (more + [e])) == if Enabled(cfg, s, e) then Next(cfg, s, e) else s
  {
    assert events + (more + [e]) == events + more + [e];
    RunSnoc(cfg, events + more, e);
  }

  /** The agent takes calls from the inbox until it has this one. */
  lemma {:induction false} TakeUntil(cfg: Config, events: seq<Event>, more: seq<Event>, c: nat)
      returns (all: seq<Event>)
    requires c < |Run(cfg, events + more).calls| && Run(cfg, events + more).calls[c].stage == Queued
    ensures c < |Run(cfg, events + all).calls|
    ensures Run(cfg, events + all).calls[c] == Run(cfg, events + more).calls[c].(stage := InHand)
    decreases |Run(cfg, events + more).inbox|
  {
    var s := Run(cfg, events + more);
    RunKeepsInv(cfg, events + more);
    assert c in s.inbox && s.inbox[0] in s.inbox;
    OneEvent(cfg, events, more, Take);
    if s.inbox[0] == c {
      all := more + [Take];
    } else {
      all := TakeUntil(cfg, events, more + [Take], c);
    }
  }

  predicate StillPending(s: State, c: nat)
    requires c < |s.calls|
  {
    s.calls[c].env.msgId in s.pending && s.pending[s.calls[c].env.msgId] == c
  }

  /** What is left of a call once it is answered. */
  ghost predicate AnsweredLike(s: State, c: nat, call: Call) {
    c < |s.calls| && s.calls[c].waiting == call.waiting && s.calls[c].replies == 1
  }

  lemma SendFrom(cfg: Config, events: seq<Event>, more: seq<Event>, c: nat) returns (all: seq<Event>)
    requires c < |Run(cfg, events + more).calls| && Run(cfg, events + more).calls[c].stage == Replying
    ensures AnsweredLike(Run(cfg, events + all), c, Run(cfg, events + more).calls[c])
  {
    all := more + [SendReply(c, true)];
    OneEvent(cfg, events, more, SendReply(c, true));
    ReplyNeverBlocks(cfg, events + more, c);
  }

  lemma TakeReplyFrom(cfg: Config, events: seq<Event>, more: seq<Event>, c: nat) returns (all: seq<Event>)
    requires c < |Run(cfg, events + more).calls| && Run(cfg, events + more).calls[c].stage == Delivered
    requires StillPending(Run(cfg, events + more), c)
    ensures AnsweredLike(Run(cfg, events + all), c, Run(cfg, events + more).calls[c])
  {
    var e := TakeReply(Run(cfg, events + more).calls[c].env.msgId);
    OneEvent(cfg, events, more, e);
    all := SendFrom(cfg, events, more + [e], c);
  }

  /** A call in hand is delivered, and the agent replies to it. */
  lemma ReplyFrom(cfg: Config, events: seq<Event>, more: seq<Event>, c: nat) returns (all: seq<Event>)
    requires c < |Run(cfg, events + more).calls| && Run(cfg, events + more).calls[c].stage == InHand
    ensures AnsweredLike(Run(cfg, events + all), c, Run(cfg, events + more).calls[c])
  {
    OneEvent(cfg, events, more, Deliver(c));
    DeliverNeverUnderflows(cfg, events + more, c);
    all := TakeReplyFrom(cfg, events, more + [Deliver(c)], c);
  }

  lemma LateReplyTo(cfg: Config, events: seq<Event>, c: nat) returns (more: seq<Event>)
    requires c < |Run(cfg, events).calls| && Run(cfg, events).calls[c].waiting
    requires Orderly(Run(cfg, events).calls[c]) && Run(cfg, events).calls[c].stage in {Queued, InHand, Replying}
    ensures LateReply(cfg, events, c, more)
  {
    var s, gone := Run(cfg, events), events + [Expire(c)];
    RunSnoc(cfg, events, Expire(c));
    more := [];
    assert gone + more == gone;
    if s.calls[c].stage == Replying {
      more := SendFrom(cfg, gone, more, c);
    } else {
      if s.calls[c].stage == Queued {
        more := TakeUntil(cfg, gone, more, c);
      }
      more := ReplyFrom(cfg, gone, more, c);
    }
  }

  lemma ExpireCloses(cfg: Config, s: State, c: nat)
    requires PendingIsDelivered(s) && Enabled(cfg, s, Expire(c)) && s.calls[c].stage in {Delivered, Settled}
    ensures Closed(Next(cfg, s, Expire(c)), c)
    ensures Next(cfg, s, Expire(c)).calls[c].replies == s.calls[c].replies
  {
  }

  lemma NoLateReply(cfg: Config, events: seq<Event>, c: nat, more: seq<Event>)
    requires c < |Run(cfg, events).calls| && Run(cfg, events).calls[c].waiting
    requires PendingIsDelivered(Run(cfg, events)) && Run(cfg, events).calls[c].stage in {Delivered, Settled}
    ensures !LateReply(cfg, events, c, more)
  {
    RunSnoc(cfg, events, Expire(c));
    ExpireCloses(cfg, Run(cfg, events), c);
    ClosedForGood(cfg, events + [Expire(c)], more, c);
  }

  /** When a call that expires can still be answered, exactly: if and only if it has not been
      delivered yet, or a reply to it is under way at that moment. In the first case the agent is
      still handed the call, and its reply still matches it. */
  lemma LateReplyIff(cfg: Config, events: seq<Event>, c: nat)
    requires c < |Run(cfg, events).calls| && Run(cfg, events).calls[c].waiting
    ensures (exists more :: LateReply(cfg, events, c, more)) <==>
              Run(cfg, events).calls[c].stage in {Queued, InHand, Replying}
  {
    RunKeepsInv(cfg, events);
    assert Orderly(Run(cfg, events).calls[c]);
    if Run(cfg, events).calls[c].stage in {Queued, InHand, Replying} {
      var more := LateReplyTo(cfg, events, c);
    } else {
      forall more ensures !LateReply(cfg, events, c, more) {
        NoLateReply(cfg, events, c, more);
      }
    }
  }

  // ----- with the replay guarantee -------------------------------------------

  lemma {:induction false} RunIsTrace(cfg: Config, events: seq<Event>)
    ensures Run(cfg, events).replay == R.Run(Trace(cfg, events))
  {
    if events != [] {
      var init, e := events[..|events| - 1], events[|events| - 1];
      RunIsTrace(cfg, init);
      var t := Trace(cfg, events);
      if ReplayEvent(cfg, e).Some? {
        assert t[..|t| - 1] == Trace(cfg, init);
      }
    }
  }

  /** No two calls ever made for the sandbox carry the same envelope. */
  lemma NoEnvelopeTwice(cfg: Config, events: seq<Event>, c: nat, d: nat)
    requires R.HoursInOrder(R.Run(Trace(cfg, events)).log)
    requires c < d < |Run(cfg, events).calls|
    ensures Run(cfg, events).calls[c].env != Run(cfg, events).calls[d].env
  {
    RunKeepsInv(cfg, events);
    var s := Run(cfg, events);
    RunIsTrace(cfg, events);
    assert Passed(cfg, s, s.calls[c]) && Passed(cfg, s, s.calls[d]);
    if s.calls[c].env == s.calls[d].env {
      R.AtMostOnce(Trace(cfg, events), s.calls[c].admission, s.calls[d].admission);
    }
  }

  /** A call shed for its peer's full quota has used its message up: although the peer is told to
      retry, the same message sent again within the window makes no call. */
  lemma ShedMessageIsSpent(cfg: Config, events: seq<Event>, c: nat, now: int, disk: R.Disk)
    requires R.HoursInOrder(R.Run(Trace(cfg, events)).log)
    requires forall a :: a in R.Run(Trace(cfg, events)).log ==> R.Hour(a.now) <= R.Hour(now)
    requires c < |Run(cfg, events).calls| && Run(cfg, events).calls[c].stage == Shed
    ensures var s := Run(cfg, events);
            Next(cfg, s, Receive(s.calls[c].wire, now, disk)).calls == s.calls
  {
    RunKeepsInv(cfg, events);
    var s := Run(cfg, events);
    RunIsTrace(cfg, events);
    var call, trace := s.calls[c], Trace(cfg, events);
    assert Passed(cfg, s, call);
    R.SentAgainIsRefused(trace, call.admission, R.Check(cfg.guard, call.env.msgId, call.env.timestamp, now, disk));
  }

  // ----- a full quota is reached ---------------------------------------------

  /** Messages of one declared peer that pass the checks before the replay guard, with ids of their
      own, inside the window. */
  ghost predicate Burst(cfg: Config, wires: seq<string>, envs: seq<E.Envelope>, peer: string, now: int) {
    && |wires| == |envs|
    && (forall i :: 0 <= i < |wires| ==>
         Authorize(cfg, wires[i]) == Ok((envs[i], peer)) && R.InWindow(envs[i].timestamp, now))
    && (forall i, j :: 0 <= i < j < |envs| ==> envs[i].msgId != envs[j].msgId)
  }

  /** Each message is checked and then asks for its place. */
  function Burstly(wires: seq<string>, now: int): seq<Event> {
    if wires == [] then []
    else
      var n := |wires| - 1;
      Burstly(wires[..n], now) + [Receive(wires[n], now, R.HEALTHY), Admit(n)]
  }

  /** The first `n` messages have all been admitted, and nothing else has happened. */
  ghost predicate AllHeld(s: State, envs: seq<E.Envelope>, peer: string, n: nat)
    requires n <= |envs|
  {
    && |s.calls| == |s.replay.log| == Used(s, peer) == n && s.replay.orphans == []
    && forall i :: 0 <= i < n ==> s.replay.log[i].id == envs[i].msgId
  }

  lemma OneMore(cfg: Config, events: seq<Event>, wire: string, env: E.Envelope, peer: string, envs: seq<E.Envelope>,
                now: int)
    requires AllHeld(Run(cfg, events), envs, peer, |envs|)
    requires Authorize(cfg, wire) == Ok((env, peer)) && R.InWindow(env.timestamp, now)
    requires forall e :: e in envs ==> e.msgId != env.msgId
    ensures var s, s' := Run(cfg, events), Run(cfg, events + [Receive(wire, now, R.HEALTHY), Admit(|envs|)]);
            && |s'.calls| == |envs| + 1 && s'.replay.orphans == []
            && s'.replay.log == s.replay.log + [R.Admission(env.msgId, env.timestamp, now, {})]
            && s'.calls[|envs|].wire == wire
            && s'.calls[|envs|].stage == (if |envs| >= QUOTA then Shed else Admitted)
            && Used(s', peer) == if |envs| >= QUOTA then Used(s, peer) else Used(s, peer) + 1
  {
    var n, first, second := |envs|, Receive(wire, now, R.HEALTHY), Admit(|envs|);
    RunSnoc(cfg, events, first);
    RunSnoc(cfg, events + [first], second);
    assert events + [first] + [second] == events + [first, second];
    FreshEnvelope(cfg, events, env, envs, now);
    MakesCall(cfg, Run(cfg, events), wire, env, peer, now);
    AdmitsOrSheds(cfg, Run(cfg, events + [first]), n);
  }

  lemma AdmitsOrSheds(cfg: Config, s: State, c: nat)
    requires c < |s.calls| && s.calls[c].stage == Checked
    ensures Enabled(cfg, s, Admit(c))
    ensures var s', full, peer := Next(cfg, s, Admit(c)), Used(s, s.calls[c].peer) >= QUOTA, s.calls[c].peer;
            && |s'.calls| == |s.calls| && s'.replay == s.replay && s'.calls[c].wire == s.calls[c].wire
            && s'.calls[c].stage == (if full then Shed else Admitted)
            && Used(s', peer) == Used(s, peer) + if full then 0 else 1
  {
  }

  lemma FreshEnvelope(cfg: Config, events: seq<Event>, env: E.Envelope, envs: seq<E.Envelope>, now: int)
    requires Run(cfg, events).replay.orphans == [] && |Run(cfg, events).replay.log| == |envs|
    requires forall i :: 0 <= i < |envs| ==> Run(cfg, events).replay.log[i].id == envs[i].msgId
    requires R.InWindow(env.timestamp, now) && forall e :: e in envs ==> e.msgId != env.msgId
    ensures R.Verdict(Run(cfg, events).replay, R.Check(cfg.guard, env.msgId, env.timestamp, now, R.HEALTHY)) == Ok(())
  {
    RunIsTrace(cfg, events);
    var log := Run(cfg, events).replay.log;
    forall k | 0 <= k < |log| ensures log[k].id != env.msgId {
      assert envs[k] in envs;
    }
    R.FreshIdIsAdmitted(Trace(cfg, events), R.Check(cfg.guard, env.msgId, env.timestamp, now, R.HEALTHY));
  }

  lemma MakesCall(cfg: Config, s: State, wire: string, env: E.Envelope, peer: string, now: int)
    requires Authorize(cfg, wire) == Ok((env, peer))
    requires R.Verdict(s.replay, R.Check(cfg.guard, env.msgId, env.timestamp, now, R.HEALTHY)) == Ok(())
    ensures var s' := Next(cfg, s, Receive(wire, now, R.HEALTHY));
            && s'.calls == s.calls + [Call(wire, env, peer, |s.replay.log|, Checked, false, 0, 0)]
            && s'.used == s.used && s'.replay.orphans == s.replay.orphans
            && s'.replay.log == s.replay.log + [R.Admission(env.msgId, env.timestamp, now, {})]
  {
  }

  lemma BurstPrefix(cfg: Config, wires: seq<string>, envs: seq<E.Envelope>, peer: string, now: int, n: nat)
    requires Burst(cfg, wires, envs, peer, now) && n + 1 == |wires|
    ensures Burst(cfg, wires[..n], envs[..n], peer, now)
    ensures forall e :: e in envs[..n] ==> e.msgId != envs[n].msgId
    ensures Authorize(cfg, wires[n]) == Ok((envs[n], peer)) && R.InWindow(envs[n].timestamp, now)
    ensures Burstly(wires, now) == Burstly(wires[..n], now) + [Receive(wires[n], now, R.HEALTHY), Admit(n)]
  {
  }

  lemma {:induction false} BurstIsHeld(cfg: Config, wires: seq<string>, envs: seq<E.Envelope>, peer: string, now: int)
    requires Burst(cfg, wires, envs, peer, now) && |wires| <= QUOTA
    ensures AllHeld(Run(cfg, Burstly(wires, now)), envs, peer, |envs|)
    decreases |wires|
  {
    if wires != [] {
      var n := |wires| - 1;
      BurstPrefix(cfg, wires, envs, peer, now, n);
      BurstIsHeld(cfg, wires[..n], envs[..n], peer, now);
      OneMore(cfg, Burstly(wires[..n], now), wires[n], envs[n], peer, envs[..n], now);
    }
  }

  lemma BurstThenOne(cfg: Config, wires: seq<string>, envs: seq<E.Envelope>, peer: string, now: int, n: nat)
    requires Burst(cfg, wires, envs, peer, now) && |wires| == n + 1 && n <= QUOTA
    ensures var s := Run(cfg, Burstly(wires, now));
            |s.calls| == n + 1 && s.calls[n].wire == wires[n]
            && s.calls[n].stage == if n >= QUOTA then Shed else Admitted
  {
    BurstPrefix(cfg, wires, envs, peer, now, n);
    BurstIsHeld(cfg, wires[..n], envs[..n], peer, now);
    OneMore(cfg, Burstly(wires[..n], now), wires[n], envs[n], peer, envs[..n], now);
  }

  /** Seventeen messages in a row from one peer, with its quota of sixteen: the last is shed. */
  lemma SeventeenthIsShed(cfg: Config, wires: seq<string>, envs: seq<E.Envelope>, peer: string, now: int)
    requires Burst(cfg, wires, envs, peer, now) && |wires| == 17
    ensures var s := Run(cfg, Burstly(wires, now));
            |s.calls| == 17 && s.calls[16].stage == Shed && s.calls[16].wire == wires[16]
  {
    BurstThenOne(cfg, wires, envs, peer, now, QUOTA);
  }

  /** One message that waits in the inbox until its connection is gone, and is answered after that. */
  lemma ExpiredThenAnswered(cfg: Config, wire: string, env: E.Envelope, peer: string, now: int)
    requires Burst(cfg, [wire], [env], peer, now)
    ensures var events := Burstly([wire], now) + [Enqueue(0)];
            && |Run(cfg, events).calls| == 1 && Run(cfg, events).calls[0].stage == Queued
            && Run(cfg, events).calls[0].waiting
            && exists more :: LateReply(cfg, events, 0, more)
  {
    var admitted := Burstly([wire], now);
    BurstThenOne(cfg, [wire], [env], peer, now, 0);
    EnqueueNeverBlocks(cfg, admitted, 0);
    RunSnoc(cfg, admitted, Enqueue(0));
    LateReplyIff(cfg, admitted + [Enqueue(0)], 0);
  }
}
