/** The tee that meters a priced response (internal/mcpgate/metering.go): whatever the agent reads,
    the response is metered once, on all of it or as a failure. */
module MeterBody {
  import opened Wrappers

  type Byte = char

  const MAX_METER_BYTES: nat := 10 * 1024 * 1024

  datatype Metering = Completed(body: seq<Byte>) | TooLarge | Truncated

  /** `pos` bytes of the upstream's body have been read off the wire. */
  datatype State = State(pos: nat, buf: seq<Byte>, overflow: bool, metered: bool, calls: seq<Metering>)

  /** What the agent and the upstream do. A read delivers `n` bytes and possibly the end of the
      stream, or fails; the drain of a close runs to its end, or fails after `n` bytes. */
  datatype Event =
    | Read(n: nat, eof: bool)
    | ReadFails(n: nat)
    | Close
    | CloseFails(n: nat)

  /** The upstream keeps to io.Reader: bytes come in order and the end only after the last. */
  predicate Possible(body: seq<Byte>, st: State, e: Event) {
    match e
    case Read(n, eof) => st.pos + n <= |body| && (eof ==> st.pos + n == |body|)
    case ReadFails(n) => st.pos + n <= |body|
    case Close => true
    case CloseFails(n) => st.pos + n <= |body| && n <= MAX_METER_BYTES + 1
  }

  function Keep(st: State, p: seq<Byte>): State {
    if st.overflow then st
    else if |st.buf| + |p| > MAX_METER_BYTES then st.(overflow := true)
    else st.(buf := st.buf + p)
  }

  function Finish(st: State): State {
    if st.metered then st
    else st.(metered := true, calls := st.calls + [if st.overflow then TooLarge else Completed(st.buf)])
  }

  function Took(body: seq<Byte>, st: State, n: nat): State
    requires st.pos + n <= |body|
  {
    Keep(st, body[st.pos..st.pos + n]).(pos := st.pos + n)
  }

  /** What the drain of a close can take: the rest, or one byte more than can be metered. */
  function Drained(body: seq<Byte>, st: State): (n: nat)
    requires st.pos <= |body|
    ensures st.pos + n <= |body|
  {
    if |body| - st.pos <= MAX_METER_BYTES + 1 then |body| - st.pos else MAX_METER_BYTES + 1
  }

  function Step(body: seq<Byte>, st: State, e: Event): State
    requires Possible(body, st, e) && st.pos <= |body|
  {
    match e
    case Read(n, eof) => if eof then Finish(Took(body, st, n)) else Took(body, st, n)
    case ReadFails(n) => Took(body, st, n)
    case Close => if st.metered then st else Finish(Took(body, st, Drained(body, st)))
    case CloseFails(n) =>
      if st.metered then st
      else
        var taken := Took(body, st, n);
        taken.(metered := true, calls := taken.calls + [Truncated])
  }

  class Tee {
    const body: seq<Byte>
    var pos: nat
    var buf: seq<Byte>
    var overflow: bool
    var metered: bool
    var calls: seq<Metering>

    constructor (body: seq<Byte>)
      ensures this.body == body && Valid() && Abstract() == START
    {
      this.body := body;
      pos, buf, overflow, metered, calls := 0, [], false, false, [];
    }

    function Abstract(): State
      reads this
    {
      State(pos, buf, overflow, metered, calls)
    }

    predicate Valid()
      reads this
    {
      pos <= |body| && |buf| <= MAX_METER_BYTES
    }

    /** The upstream hands over its next `n` bytes. */
    method Receive(n: nat) returns (p: seq<Byte>)
      requires pos + n <= |body|
      modifies this`pos
      ensures p == body[old(pos)..old(pos) + n] && pos == old(pos) + n
    {
      p := body[pos..pos + n];
      pos := pos + n;
    }

    method KeepBytes(p: seq<Byte>)
      modifies this`buf, this`overflow
      ensures Abstract() == Keep(old(Abstract()), p)
    {
      if overflow {
        return;
      }
      if |buf| + |p| > MAX_METER_BYTES {
        overflow := true;
        return;
      }
      buf := buf + p;
    }

    method FinishOnce()
      modifies this`metered, this`calls
      ensures Abstract() == Finish(old(Abstract()))
    {
      if metered {
        return;
      }
      metered := true;
      if overflow {
        calls := calls + [TooLarge];
        return;
      }
      calls := calls + [Completed(buf)];
    }

    method ReadSome(n: nat, err: Option<bool>)
      requires Valid() && Possible(body, Abstract(), ReadEvent(n, err))
      modifies this
      ensures Valid()
      ensures Abstract() == Step(body, old(Abstract()), ReadEvent(n, err))
    {
      var p := Receive(n);
      if n > 0 {
        KeepBytes(p);
      }
      assert n == 0 ==> old(buf) + p == old(buf);
      if err == Some(true) {
        FinishOnce();
      }
    }

    method CloseBody(failsAfter: Option<nat>)
      requires Valid() && Possible(body, Abstract(), CloseEvent(failsAfter))
      modifies this
      ensures Valid()
      ensures Abstract() == Step(body, old(Abstract()), CloseEvent(failsAfter))
      ensures metered && pos - old(pos) <= 10 * 1024 * 1024 + 1
      ensures old(metered) ==> Abstract() == old(Abstract())
      ensures !old(metered) && failsAfter.None? ==> pos == |body| || pos == old(pos) + 10 * 1024 * 1024 + 1
    {
      if metered {
        return;
      }
      var n := if failsAfter.Some? then failsAfter.value
               else if |body| - pos <= MAX_METER_BYTES + 1 then |body| - pos else MAX_METER_BYTES + 1;
      var rest := Receive(n);
      if |rest| > 0 {
        KeepBytes(rest);
      }
      assert n == 0 ==> old(buf) + rest == old(buf);
      if failsAfter.Some? {
        calls := calls + [Truncated];
        metered := true;
      } else {
        FinishOnce();
      }
    }
  }

  /** `err` is absent, the end of the stream, or some other error. */
  function ReadEvent(n: nat, err: Option<bool>): Event {
    if err == Some(false) then ReadFails(n) else Read(n, err == Some(true))
  }

  function CloseEvent(failsAfter: Option<nat>): Event {
    if failsAfter.Some? then CloseFails(failsAfter.value) else Close
  }

  // ----- every run -----------------------------------------------------------

  const START := State(0, [], false, false, [])

  ghost predicate Runs(body: seq<Byte>, events: seq<Event>, states: seq<State>) {
    && |states| == |events| + 1 && states[0] == START
    && forall k {:trigger Advances(body, events, states, k)} :: 0 <= k < |events| ==> Advances(body, events, states, k)
  }

  ghost predicate Advances(body: seq<Byte>, events: seq<Event>, states: seq<State>, k: nat)
    requires |states| == |events| + 1 && k < |events|
  {
    && states[k].pos <= |body| && Possible(body, states[k], events[k])
    && states[k + 1] == Step(body, states[k], events[k])
  }

  /** What one response must come to. */
  function Verdict(body: seq<Byte>): Metering {
    if |body| <= MAX_METER_BYTES then Completed(body) else TooLarge
  }

  /** The buffer is what was read while that can be metered, and there has been one metering call
      at most: on the whole body, or a failure. */
  predicate Invariant(body: seq<Byte>, st: State) {
    && st.pos <= |body|
    && st.overflow == (st.pos > MAX_METER_BYTES)
    && (!st.overflow ==> st.buf == body[..st.pos])
    && (st.overflow ==> |st.buf| <= MAX_METER_BYTES)
    && (if st.metered then st.calls == [Verdict(body)] || st.calls == [Truncated] else st.calls == [])
  }

  lemma TookKeeps(body: seq<Byte>, st: State, n: nat)
    requires Invariant(body, st) && st.pos + n <= |body|
    ensures Invariant(body, Took(body, st, n))
  {
    assert body[..st.pos] + body[st.pos..st.pos + n] == body[..st.pos + n];
  }

  lemma StepKeeps(body: seq<Byte>, st: State, e: Event)
    requires Invariant(body, st) && Possible(body, st, e)
    ensures Invariant(body, Step(body, st, e))
    ensures st.metered ==> Step(body, st, e).metered && Step(body, st, e).calls == st.calls
    ensures e.Close? || e.CloseFails? ==> Step(body, st, e).metered
    ensures !e.CloseFails? ==> (Truncated in Step(body, st, e).calls ==> Truncated in st.calls)
  {
    match e
    case Read(n, eof) =>
      TookKeeps(body, st, n);
      assert eof ==> body[..st.pos + n] == body;
    case ReadFails(n) =>
      TookKeeps(body, st, n);
    case Close =>
      TookKeeps(body, st, Drained(body, st));
      assert body[..|body|] == body;
    case CloseFails(n) =>
      TookKeeps(body, st, n);
  }

  lemma {:induction false} InvariantThroughout(body: seq<Byte>, events: seq<Event>, states: seq<State>, k: nat)
    requires Runs(body, events, states) && k <= |events|
    ensures Invariant(body, states[k])
    ensures (exists j: nat :: j < k && (events[j].Close? || events[j].CloseFails?)) ==> states[k].metered
    ensures (forall j: nat :: j < k ==> !events[j].CloseFails?) ==> Truncated !in states[k].calls
    decreases k
  {
    if k > 0 {
      InvariantThroughout(body, events, states, k - 1);
      assert Advances(body, events, states, k - 1);
      StepKeeps(body, states[k - 1], events[k - 1]);
    }
  }

  /** However the agent reads, early or late close, once it has closed the body there has been
      exactly one metering call, on exactly the body when that can be metered, and nothing that
      follows makes another. Only a close whose drain failed records a truncation instead. */
  lemma MeteredExactlyOnce(body: seq<Byte>, events: seq<Event>, states: seq<State>, c: nat, k: nat)
    requires Runs(body, events, states) && c < k <= |events| && (events[c].Close? || events[c].CloseFails?)
    ensures |states[k].calls| == 1
    ensures (forall j: nat :: j < k ==> !events[j].CloseFails?) ==>
              states[k].calls == [if |body| <= 10 * 1024 * 1024 then Completed(body) else TooLarge]
    ensures forall b :: Completed(b) in states[k].calls ==> b == body && |body| <= MAX_METER_BYTES
  {
    InvariantThroughout(body, events, states, k);
  }

  /** Two agents that read one body in different ways are charged alike. */
  lemma ReadingStyleIsIrrelevant(body: seq<Byte>, events: seq<Event>, states: seq<State>, c: nat,
                                 events': seq<Event>, states': seq<State>, c': nat)
    requires Runs(body, events, states) && c < |events| && events[c].Close?
    requires Runs(body, events', states') && c' < |events'| && events'[c'].Close?
    requires forall e :: e in events + events' ==> !e.CloseFails?
    ensures states[|events|].calls == states'[|events'|].calls
  {
    assert forall j: nat :: j < |events| ==> events[j] in events + events';
    assert forall j: nat :: j < |events'| ==> events'[j] in events + events';
    MeteredExactlyOnce(body, events, states, c, |events|);
    MeteredExactlyOnce(body, events', states', c', |events'|);
  }
}
