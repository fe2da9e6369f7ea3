/** The gate object behind the protocol: each method is one critical section or channel operation
    of the handlers, and moves the object exactly as the protocol's event does. */
module InboxGate {
  import opened Wrappers
  import opened Inbox
  import R = Replay

  class Gate {
    const cfg: Config
    var replay: R.State
    var calls: seq<Call>
    var inboxUsed: map<string, nat>
    var inbox: seq<nat>
    var pending: map<string, nat>

    constructor (cfg: Config)
      ensures this.cfg == cfg && Snapshot() == INITIAL && Valid()
    {
      this.cfg := cfg;
      replay, calls, inboxUsed, inbox, pending := R.INITIAL, [], map[], [], map[];
      new;
      RunKeepsInv(cfg, []);
    }

    function Snapshot(): State
      reads this
    {
      State(replay, calls, inboxUsed, inbox, pending)
    }

    ghost predicate Valid()
      reads this
    {
      Inv(cfg, Snapshot())
    }

    /** servePublic up to the making of the call object. */
    method Check(wire: string, now: int, disk: R.Disk) returns (r: Result<nat, Refusal>)
      requires Valid()
      modifies this
      ensures Valid() && Snapshot() == Next(cfg, old(Snapshot()), Receive(wire, now, disk))
      ensures r.Ok? ==> r.value == |old(calls)| && |calls| == r.value + 1 && calls[r.value].stage == Checked
      ensures r.Err? ==> calls == old(calls)
    {
      StepKeepsInv(cfg, Snapshot(), Receive(wire, now, disk));
      var checked := Authorize(cfg, wire);
      if checked.Err? {
        return Err(checked.error);
      }
      var (env, peer) := checked.value;
      var check := R.Check(cfg.guard, env.msgId, env.timestamp, now, disk);
      var verdict := R.Verdict(replay, check);
      var admission := |replay.log|;
      replay := R.Step(replay, check);
      if verdict.Err? {
        return Err(ReplayRefused(verdict.error));
      }
      r := Ok(|calls|);
      calls := calls + [Call(wire, env, peer, admission, Checked, false, 0, 0)];
    }

    method SetStage(c: nat, stage: Stage)
      requires c < |calls|
      modifies this`calls
      ensures calls == old(calls)[c := old(calls)[c].(stage := stage)]
    {
      calls := calls[c := calls[c].(stage := stage)];
    }

    method CountAgainstQuota(c: nat) returns (ok: bool)
      requires Enabled(cfg, Snapshot(), Event.Admit(c))
      modifies this
      ensures Snapshot() == Next(cfg, old(Snapshot()), Event.Admit(c))
      ensures ok <==> calls[c].stage == Admitted
    {
      var peer := calls[c].peer;
      var used := if peer in inboxUsed then inboxUsed[peer] else 0;
      if used >= QUOTA {
        SetStage(c, Shed);
        return false;
      }
      inboxUsed := inboxUsed[peer := used + 1];
      SetStage(c, Admitted);
      ok := true;
    }

    /** The quota check and count, under the mutex. */
    method Admit(c: nat) returns (ok: bool)
      requires Valid() && c < |calls| && calls[c].stage == Checked
      modifies this
      ensures Valid() && Snapshot() == Next(cfg, old(Snapshot()), Event.Admit(c))
      ensures ok <==> calls[c].stage == Admitted
    {
      StepKeepsInv(cfg, Snapshot(), Event.Admit(c));
      ok := CountAgainstQuota(c);
    }

    /** The send on the inbox channel, which has room whenever it is reached. */
    method Enqueue(c: nat)
      requires Valid() && c < |calls| && calls[c].stage == Admitted
      modifies this
      ensures Enabled(cfg, old(Snapshot()), Event.Enqueue(c))
      ensures Valid() && Snapshot() == Next(cfg, old(Snapshot()), Event.Enqueue(c))
    {
      RoomForAdmitted(cfg, Snapshot(), c);
      StepKeepsInv(cfg, Snapshot(), Event.Enqueue(c));
      inbox := inbox + [c];
      calls := calls[c := calls[c].(stage := Queued, waiting := true)];
    }

    /** serveInbox: the receive from the channel, then the delivery under the mutex. */
    method Take() returns (c: nat)
      requires Valid() && inbox != []
      modifies this
      ensures Enabled(cfg, old(Snapshot()), Event.Take)
      ensures Valid() && Snapshot() == Next(cfg, old(Snapshot()), Event.Take)
      ensures c == old(inbox)[0] && c < |calls| && calls[c].stage == InHand
    {
      assert inbox[0] in inbox;
      StepKeepsInv(cfg, Snapshot(), Event.Take);
      c := inbox[0];
      inbox := inbox[1..];
      SetStage(c, InHand);
    }

    method HandOver(c: nat)
      requires Enabled(cfg, Snapshot(), Event.Deliver(c))
      modifies this
      ensures Snapshot() == Next(cfg, old(Snapshot()), Event.Deliver(c))
    {
      var call := calls[c];
      pending := pending[call.env.msgId := c];
      inboxUsed := inboxUsed[call.peer := inboxUsed[call.peer] - 1];
      SetStage(c, Delivered);
    }

    method Deliver(c: nat)
      requires Valid() && c < |calls| && calls[c].stage == InHand
      modifies this
      ensures Enabled(cfg, old(Snapshot()), Event.Deliver(c))
      ensures Valid() && Snapshot() == Next(cfg, old(Snapshot()), Event.Deliver(c))
    {
      SlotIsHeld(Snapshot(), c);
      StepKeepsInv(cfg, Snapshot(), Event.Deliver(c));
      HandOver(c);
    }

    method Withdraw(msgId: string) returns (c: Option<nat>)
      requires Enabled(cfg, Snapshot(), Event.TakeReply(msgId))
      modifies this
      ensures Snapshot() == Next(cfg, old(Snapshot()), Event.TakeReply(msgId))
      ensures c == if msgId in old(pending) then Some(old(pending)[msgId]) else None
    {
      if msgId !in pending {
        return None;
      }
      c := Some(pending[msgId]);
      pending := pending - {msgId};
      SetStage(c.value, Replying);
    }

    /** serveReply: the call leaves pending, whatever becomes of the reply. */
    method TakeReply(msgId: string) returns (c: Option<nat>)
      requires Valid()
      modifies this
      ensures Enabled(cfg, old(Snapshot()), Event.TakeReply(msgId))
      ensures Valid() && Snapshot() == Next(cfg, old(Snapshot()), Event.TakeReply(msgId))
      ensures c.Some? <==> msgId in old(pending)
      ensures c.Some? ==> c.value == old(pending)[msgId] && c.value < |calls| && calls[c.value].stage == Replying
    {
      StepKeepsInv(cfg, Snapshot(), Event.TakeReply(msgId));
      c := Withdraw(msgId);
    }

    method Reply(c: nat, sealed: bool)
      requires Enabled(cfg, Snapshot(), Event.SendReply(c, sealed))
      modifies this
      ensures Snapshot() == Next(cfg, old(Snapshot()), Event.SendReply(c, sealed))
    {
      var call := calls[c].(stage := Settled);
      calls := calls[c := if sealed then call.(slot := call.slot + 1, replies := call.replies + 1) else call];
    }

    /** The sealed reply goes to the call's channel, which Valid() shows to be empty. */
    method SendReply(c: nat, sealed: bool)
      requires Valid() && c < |calls| && calls[c].stage == Replying
      modifies this
      ensures Enabled(cfg, old(Snapshot()), Event.SendReply(c, sealed))
      ensures Valid() && Snapshot() == Next(cfg, old(Snapshot()), Event.SendReply(c, sealed))
    {
      ChannelIsEmpty(cfg, Snapshot(), c);
      StepKeepsInv(cfg, Snapshot(), Event.SendReply(c, sealed));
      Reply(c, sealed);
    }

    method ExpireCall(c: nat)
      requires Valid() && c < |calls| && calls[c].waiting
      modifies this
      ensures Valid() && Snapshot() == Next(cfg, old(Snapshot()), Expire(c))
    {
      StepKeepsInv(cfg, Snapshot(), Expire(c));
      pending := pending - {calls[c].env.msgId};
      calls := calls[c := calls[c].(waiting := false)];
    }

    // ----- the handlers, run without interruption ------------------------------

    /** servePublic. */
    method ServePublic(wire: string, now: int, disk: R.Disk) returns (r: Served)
      requires Valid()
      modifies this
      ensures Valid() && IsServed(cfg, old(Snapshot()), Snapshot(), wire, r)
    {
      ghost var before := Snapshot();
      var checked := Check(wire, now, disk);
      ghost var made := Snapshot();
      if checked.Err? {
        return Refused(checked.error);
      }
      var ok := Park(checked.value);
      r := if ok then Parked else ShedHere;
      MadeServed(cfg, before, made, Snapshot(), wire, now, disk, r);
    }

    /** Its second half: the call takes its place in the inbox, or is shed. */
    method Park(c: nat) returns (ok: bool)
      requires Valid() && c < |calls| && calls[c].stage == Checked
      modifies this
      ensures Valid() && c < |calls| && Passed(cfg, Snapshot(), calls[c])
      ensures Snapshot() == AfterPark(cfg, old(Snapshot()), c)
      ensures ok <==> calls[c].stage == Queued
      ensures !ok ==> calls[c].stage == Stage.Shed
    {
      ok := Admit(c);
      if ok {
        Enqueue(c);
      }
      CallPassed(cfg, Snapshot(), c);
    }

    /** serveInbox: nothing when the inbox is empty. */
    method ServeInbox() returns (c: Option<nat>)
      requires Valid()
      modifies this
      ensures Valid()
      ensures c.None? <==> old(inbox) == []
      ensures c.None? ==> Snapshot() == old(Snapshot())
      ensures c.Some? ==> IsHandedOver(cfg, old(Snapshot()), Snapshot(), c.value)
    {
      if |inbox| == 0 {
        return None;
      }
      ghost var before := Snapshot();
      var taken := Take();
      ghost var held := Snapshot();
      Deliver(taken);
      CallPassed(cfg, Snapshot(), taken);
      TakenHandedOver(cfg, before, held, Snapshot(), taken);
      c := Some(taken);
    }

    /** serveReply: an id that is not pending changes nothing. */
    method ServeReply(msgId: string, sealed: bool) returns (found: bool)
      requires Valid()
      modifies this
      ensures Valid()
      ensures found <==> msgId in old(pending)
      ensures !found ==> Snapshot() == old(Snapshot())
      ensures found ==> IsAnswered(old(Snapshot()), Snapshot(), msgId, sealed)
    {
      ghost var before := Snapshot();
      if msgId in pending {
        PendingIsUnanswered(cfg, before, msgId);
      }
      var c := TakeReply(msgId);
      if c.None? {
        return false;
      }
      ghost var taken := Snapshot();
      SendReply(c.value, sealed);
      TakenAnswered(cfg, before, taken, Snapshot(), msgId, sealed);
      found := true;
    }
  }

  datatype Served = Refused(why: Refusal) | ShedHere | Parked

  /** The call is parked in the inbox with one more slot of its peer's quota taken, shed with the
      quota full and untouched, or refused with nothing changed but the replay guard. */
  ghost predicate IsServed(cfg: Config, s: State, s': State, wire: string, r: Served) {
    && s'.pending == s.pending
    && (r.Refused? ==> s'.calls == s.calls && s'.inbox == s.inbox && s'.used == s.used)
    && (!r.Refused? ==>
          && |s'.calls| == |s.calls| + 1 && s'.calls[..|s.calls|] == s.calls
          && var call := s'.calls[|s.calls|];
             && Passed(cfg, s', call) && call.wire == wire
             && call.stage == (if r.ShedHere? then Stage.Shed else Queued)
             && (r.ShedHere? <==> Used(s, call.peer) >= QUOTA)
             && s'.inbox == s.inbox + (if r.ShedHere? then [] else [|s.calls|])
             && Used(s', call.peer) == Used(s, call.peer) + if r.ShedHere? then 0 else 1)
  }

  /** The quota check, and the send when it passes. */
  function AfterPark(cfg: Config, s: State, c: nat): State
    requires Enabled(cfg, s, Event.Admit(c))
  {
    var counted := Next(cfg, s, Event.Admit(c));
    if Enabled(cfg, counted, Event.Enqueue(c)) then Next(cfg, counted, Event.Enqueue(c)) else counted
  }

  lemma MadeServed(cfg: Config, s: State, made: State, s': State, wire: string, now: int, disk: R.Disk, r: Served)
    requires !r.Refused? && made == Next(cfg, s, Receive(wire, now, disk)) && |made.calls| == |s.calls| + 1
    requires Enabled(cfg, made, Event.Admit(|s.calls|)) && s' == AfterPark(cfg, made, |s.calls|)
    requires r.Parked? <==> s'.calls[|s.calls|].stage == Queued
    requires r.ShedHere? ==> s'.calls[|s.calls|].stage == Stage.Shed
    requires Passed(cfg, s', s'.calls[|s.calls|])
    ensures IsServed(cfg, s, s', wire, r)
  {
    ReceiveMakes(cfg, s, made, wire, now, disk);
    ParkMoves(cfg, made, |s.calls|);
  }

  lemma ReceiveMakes(cfg: Config, s: State, made: State, wire: string, now: int, disk: R.Disk)
    requires made == Next(cfg, s, Receive(wire, now, disk)) && |made.calls| == |s.calls| + 1
    ensures made.calls[..|s.calls|] == s.calls && made.calls[|s.calls|].wire == wire
    ensures made.used == s.used && made.inbox == s.inbox && made.pending == s.pending
  {
  }

  lemma ParkMoves(cfg: Config, s: State, c: nat)
    requires Enabled(cfg, s, Event.Admit(c))
    ensures var s', peer := AfterPark(cfg, s, c), s.calls[c].peer;
            && |s'.calls| == |s.calls| && s'.pending == s.pending
            && s'.calls[..c] == s.calls[..c] && s'.calls[c].wire == s.calls[c].wire && s'.calls[c].peer == peer
            && (s'.calls[c].stage == Queued ==>
                  Used(s, peer) < QUOTA && s'.inbox == s.inbox + [c] && Used(s', peer) == Used(s, peer) + 1)
            && (s'.calls[c].stage == Stage.Shed ==>
                  Used(s, peer) >= QUOTA && s'.inbox == s.inbox && Used(s', peer) == Used(s, peer))
  {
  }

  /** The oldest call is pending, it passed every check, and its peer has a slot back. */
  ghost predicate IsHandedOver(cfg: Config, s: State, s': State, c: nat) {
    && s.inbox != [] && c == s.inbox[0] && s'.inbox == s.inbox[1..] && c < |s.calls|
    && s'.calls == s.calls[c := s.calls[c].(stage := Delivered)]
    && s'.pending == s.pending[s.calls[c].env.msgId := c]
    && Passed(cfg, s', s'.calls[c])
    && Used(s', s.calls[c].peer) == Used(s, s.calls[c].peer) - 1
  }

  lemma TakenHandedOver(cfg: Config, s: State, held: State, s': State, c: nat)
    requires s.inbox != [] && c == s.inbox[0] && Enabled(cfg, s, Event.Take) && held == Next(cfg, s, Event.Take)
    requires Enabled(cfg, held, Event.Deliver(c)) && s' == Next(cfg, held, Event.Deliver(c))
    requires Passed(cfg, s', s'.calls[c])
    ensures IsHandedOver(cfg, s, s', c)
  {
  }

  /** The call is settled and no longer pending; one reply was sent if it could be sealed, the first
      for this call. */
  ghost predicate IsAnswered(s: State, s': State, msgId: string, sealed: bool) {
    && msgId in s.pending && s.pending[msgId] < |s.calls|
    && s'.pending == s.pending - {msgId} && s'.inbox == s.inbox && s'.used == s.used
    && var c := s.pending[msgId];
       && s.calls[c].replies == 0
       && s'.calls == s.calls[c := s.calls[c].(stage := Settled, replies := if sealed then 1 else 0,
                                               slot := s.calls[c].slot + if sealed then 1 else 0)]
  }

  lemma PendingIsUnanswered(cfg: Config, s: State, msgId: string)
    requires Inv(cfg, s) && msgId in s.pending
    ensures s.pending[msgId] < |s.calls| && s.calls[s.pending[msgId]].stage == Delivered
    ensures s.calls[s.pending[msgId]].replies == 0
  {
    assert Orderly(s.calls[s.pending[msgId]]);
  }

  lemma TakenAnswered(cfg: Config, s: State, taken: State, s': State, msgId: string, sealed: bool)
    requires msgId in s.pending && s.pending[msgId] < |s.calls| && s.calls[s.pending[msgId]].replies == 0
    requires Enabled(cfg, s, Event.TakeReply(msgId))
    requires taken == Next(cfg, s, Event.TakeReply(msgId))
    requires Enabled(cfg, taken, Event.SendReply(s.pending[msgId], sealed))
    requires s' == Next(cfg, taken, Event.SendReply(s.pending[msgId], sealed))
    ensures IsAnswered(s, s', msgId, sealed)
  {
  }
}
