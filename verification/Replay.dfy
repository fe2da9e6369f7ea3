/** Replay protection of inbound A2A messages: the in-memory guard (internal/a2a/envelope.go) over
    the durable store of hour buckets (internal/a2a/replay_store.go). Times are nanoseconds. */
module Replay {
  import opened Wrappers

  const SECOND := 1_000_000_000
  const WINDOW := 300 * SECOND
  const HOUR := 3600 * SECOND

  /** The UTC hour that names a bucket file. */
  function Hour(t: int): int {
    t / HOUR
  }

  datatype Reason = StaleTimestamp | Duplicate | GuardUnavailable

  /** Bucket files by hour: the message ids recorded in each, oldest first. */
  type Buckets = map<int, seq<string>>

  type Seen = map<string, int>

  function Ids(b: Buckets, hour: int): seq<string> {
    if hour in b then b[hour] else []
  }

  /** What the disk does to one call: taking the lock, reading the two buckets, and appending can
      fail; a failed append leaves the record whole or absent; some deletions fail. */
  datatype Disk = Disk(lockOk: bool, readCurrentOk: bool, readPreviousOk: bool, appendOk: bool, written: bool,
                       removable: set<int>)

  const HEALTHY := Disk(true, true, true, true, true, {})

  // ----- the specification ---------------------------------------------------

  function Record(b: Buckets, id: string, now: int): Buckets {
    b[Hour(now) := Ids(b, Hour(now)) + [id]]
  }

  /** Buckets more than two hours old go, where the disk lets them. */
  function Pruned(b: Buckets, now: int, removable: set<int>): Buckets {
    map h | h in b && !(h < Hour(now) - 2 && h in removable) :: b[h]
  }

  /** Whether the id was recorded before, or no answer; and the store after the call. */
  function StoreStep(b: Buckets, id: string, now: int, disk: Disk): (Option<bool>, Buckets) {
    if !disk.lockOk || !disk.readCurrentOk then (None, b)
    else if id in Ids(b, Hour(now)) then (Some(true), b)
    else if !disk.readPreviousOk then (None, b)
    else if id in Ids(b, Hour(now) - 1) then (Some(true), b)
    else if !disk.appendOk then (None, if disk.written then Record(b, id, now) else b)
    else (Some(false), Pruned(Record(b, id, now), now, disk.removable))
  }

  function Unexpired(seen: Seen, now: int): Seen {
    map id | id in seen && now - seen[id] <= WINDOW :: seen[id]
  }

  predicate InWindow(timestamp: int, now: int) {
    now - WINDOW <= timestamp <= now + WINDOW
  }

  /** The verdict of the guard, and what it leaves in memory and in the store it is attached to. */
  function GuardStep(seen: Seen, store: Option<Buckets>, id: string, timestamp: int, now: int, disk: Disk)
    : (Result<(), Reason>, Seen, Option<Buckets>)
  {
    if !InWindow(timestamp, now) then (Err(StaleTimestamp), seen, store)
    else
      var live := Unexpired(seen, now);
      if id in live then (Err(Duplicate), live, store)
      else if store.None? then (Ok(()), live[id := now], store)
      else
        var (dup, b) := StoreStep(store.value, id, now, disk);
        match dup
        case None => (Err(GuardUnavailable), live, Some(b))
        case Some(true) => (Err(Duplicate), live, Some(b))
        case Some(false) => (Ok(()), live[id := now], Some(b))
  }

  // ----- the objects ---------------------------------------------------------

  /** The bucket files of the directory, in some order. */
  method ListDir(b: Buckets) returns (hours: seq<int>)
    ensures forall h :: h in hours <==> h in b
  {
    hours := [];
    var files := b.Items;
    while files != {}
      invariant files <= b.Items
      invariant forall h :: h in b ==> (h, b[h]) in files || h in hours
      invariant forall h :: h in hours ==> h in b
      decreases |files|
    {
      var file :| file in files;
      files, hours := files - {file}, hours + [file.0];
    }
  }

  class ReplayStore {
    var buckets: Buckets

    constructor ()
      ensures buckets == map[]
    {
      buckets := map[];
    }

    /** Scans one bucket file; a missing file holds nothing. */
    method BucketContains(hour: int, id: string) returns (found: bool)
      ensures found == (id in Ids(buckets, hour))
    {
      if hour !in buckets {
        return false;
      }
      for i := 0 to |buckets[hour]|
        invariant id !in buckets[hour][..i]
      {
        if buckets[hour][i] == id {
          return true;
        }
      }
      assert buckets[hour][..|buckets[hour]|] == buckets[hour];
      found := false;
    }

    method PruneExpired(now: int, removable: set<int>)
      modifies this
      ensures buckets == Pruned(old(buckets), now, removable)
    {
      var cutoff, was := Hour(now) - 2, buckets;
      var entries := ListDir(buckets);
      for i := 0 to |entries|
        invariant buckets == map h | h in was && !(h in entries[..i] && h < cutoff && h in removable) :: was[h]
      {
        var h := entries[i];
        if h < cutoff && h in removable {
          buckets := buckets - {h};
        }
      }
    }

    method CheckAndRecord(id: string, now: int, disk: Disk) returns (dup: Option<bool>)
      modifies this
      ensures (dup, buckets) == StoreStep(old(buckets), id, now, disk)
    {
      if !disk.lockOk || !disk.readCurrentOk {
        return None;
      }
      var found := BucketContains(Hour(now), id);
      if found {
        return Some(true);
      }
      if !disk.readPreviousOk {
        return None;
      }
      Neighbours(now);
      found := BucketContains(Hour(now - HOUR), id);
      if found {
        return Some(true);
      }
      if disk.appendOk || disk.written {
        buckets := Record(buckets, id, now);
      }
      if !disk.appendOk {
        return None;
      }
      PruneExpired(now, disk.removable);
      dup := Some(false);
    }
  }

  class ReplayGuard {
    var seen: Seen
    const store: ReplayStore?

    constructor (store: ReplayStore?)
      ensures seen == map[] && this.store == store
    {
      seen := map[];
      this.store := store;
    }

    function Stored(): Option<Buckets>
      reads this, store
    {
      if store == null then None else Some(store.buckets)
    }

    method Check(id: string, timestamp: int, now: int, disk: Disk) returns (r: Result<(), Reason>)
      modifies this, store
      ensures (r, seen, Stored()) == GuardStep(old(seen), old(Stored()), id, timestamp, now, disk)
    {
      if timestamp < now - WINDOW || timestamp > now + WINDOW {
        return Err(StaleTimestamp);
      }
      var ids := seen.Keys;
      while ids != {}
        invariant ids <= old(seen).Keys
        invariant seen == map k | k in old(seen) && (k in ids || now - old(seen)[k] <= WINDOW) :: old(seen)[k]
        invariant Stored() == old(Stored())
        decreases |ids|
      {
        var k :| k in ids;
        ids := ids - {k};
        if now - seen[k] > WINDOW {
          seen := seen - {k};
        }
      }
      assert seen == Unexpired(old(seen), now);
      if id in seen {
        return Err(Duplicate);
      }
      if store != null {
        var dup := store.CheckAndRecord(id, now, disk);
        if dup.None? {
          return Err(GuardUnavailable);
        }
        if dup.value {
          return Err(Duplicate);
        }
      }
      seen := seen[id := now];
      r := Ok(());
    }
  }

  lemma Neighbours(now: int)
    ensures Hour(now - HOUR) == Hour(now) - 1
  {
  }

  /** Instants at most two windows apart lie in the same hour or in adjacent ones. */
  lemma CloseInstants(a: int, b: int)
    requires b <= a + 2 * WINDOW
    ensures Hour(b) <= Hour(a) + 1
  {
  }

  // ----- every run of every process ------------------------------------------

  /** `removable` says which bucket files the disk lets the pruning after this admission delete. */
  datatype Admission = Admission(id: string, timestamp: int, now: int, removable: set<int>)

  /** A record that a failed append left in its bucket, when `since` admissions had been made. */
  datatype Orphan = Orphan(id: string, timestamp: int, now: int, since: nat)

  /** Any number of guards share one store. `log` lists the admissions in lock order; `orphans` the
      records that admitted nothing. */
  datatype State = State(guards: map<nat, Seen>, buckets: Buckets, log: seq<Admission>, orphans: seq<Orphan>)

  /** A process starts (or starts over) with an empty guard, or a guard checks an envelope. The
      clock was read before the lock was taken; events come in lock order. */
  datatype Event =
    | Start(guard: nat)
    | Check(guard: nat, id: string, timestamp: int, now: int, disk: Disk)

  const INITIAL := State(map[], map[], [], [])

  function SeenBy(s: State, guard: nat): Seen {
    if guard in s.guards then s.guards[guard] else map[]
  }

  function Verdict(s: State, e: Event): Result<(), Reason>
    requires e.Check?
  {
    GuardStep(SeenBy(s, e.guard), Some(s.buckets), e.id, e.timestamp, e.now, e.disk).0
  }

  /** The check is refused although its record was written. */
  predicate Orphans(s: State, e: Event)
    requires e.Check?
  {
    && Verdict(s, e) == Err(GuardUnavailable)
    && GuardStep(SeenBy(s, e.guard), Some(s.buckets), e.id, e.timestamp, e.now, e.disk).2 != Some(s.buckets)
  }

  function Step(s: State, e: Event): State {
    match e
    case Start(guard) => s.(guards := s.guards[guard := map[]])
    case Check(guard, id, timestamp, now, disk) =>
      var (r, seen, store) := GuardStep(SeenBy(s, guard), Some(s.buckets), id, timestamp, now, disk);
      State(s.guards[guard := seen],
            store.value,
            if r.Ok? then s.log + [Admission(id, timestamp, now, disk.removable)] else s.log,
            if Orphans(s, e) then s.orphans + [Orphan(id, timestamp, now, |s.log|)] else s.orphans)
  }

  function Run(events: seq<Event>): State {
    if events == [] then INITIAL else Step(Run(events[..|events| - 1]), events[|events| - 1])
  }

  lemma RunSnoc(events: seq<Event>, e: Event)
    ensures Run(events + [e]) == Step(Run(events), e)
  {
    assert (events + [e])[..|events|] == events;
  }

  // ----- what the store holds ------------------------------------------------

  /** The pruning after this admission deletes that hour's bucket. */
  predicate Removes(a: Admission, hour: int) {
    hour < Hour(a.now) - 2 && hour in a.removable
  }

  /** Some admission from the `start`-th to before the `end`-th deleted that hour's bucket. */
  predicate Removed(log: seq<Admission>, hour: int, start: nat, end: nat)
    requires end <= |log|
  {
    exists j :: start <= j < end && Removes(log[j], hour)
  }

  /** The k-th admission was recorded under that hour, and the record is still there. */
  predicate Stands(s: State, k: nat, id: string, hour: int)
    requires k < |s.log|
  {
    s.log[k].id == id && Hour(s.log[k].now) == hour && !Removed(s.log, hour, k + 1, |s.log|)
  }

  predicate OrphanStands(s: State, i: nat, id: string, hour: int)
    requires i < |s.orphans|
  {
    s.orphans[i].id == id && Hour(s.orphans[i].now) == hour && !Removed(s.log, hour, s.orphans[i].since, |s.log|)
  }

  predicate Recorded(s: State, id: string, hour: int) {
    || (exists k :: 0 <= k < |s.log| && Stands(s, k, id, hour))
    || (exists i :: 0 <= i < |s.orphans| && OrphanStands(s, i, id, hour))
  }

  /** A bucket holds an id exactly if the id was admitted in that hour, or left there by a failed
      append, and no admission since has deleted the bucket. */
  ghost predicate HoldsExactly(s: State) {
    && (forall hour, id :: id in Ids(s.buckets, hour) <==> Recorded(s, id, hour))
    && (forall i :: 0 <= i < |s.orphans| ==> s.orphans[i].since <= |s.log|)
  }

  predicate Admitted(s: State, id: string) {
    exists k :: 0 <= k < |s.log| && s.log[k].id == id
  }

  /** What a guard remembers was admitted. */
  ghost predicate RemembersAdmitted(s: State) {
    forall guard, id :: id in SeenBy(s, guard) ==> Admitted(s, id)
  }

  /** Two admissions of one id: unless the earlier record was deleted in between, the later clock
      read neither the earlier one's hour nor the next. */
  predicate Apart(log: seq<Admission>, i: nat, j: nat)
    requires i < j < |log|
  {
    log[i].id == log[j].id && !Removed(log, Hour(log[i].now), i + 1, j) ==>
      Hour(log[j].now) != Hour(log[i].now) && Hour(log[j].now) != Hour(log[i].now) + 1
  }

  ghost predicate Good(s: State) {
    && HoldsExactly(s) && RemembersAdmitted(s)
    && (forall k :: 0 <= k < |s.log| ==> InWindow(s.log[k].timestamp, s.log[k].now))
    && (forall i :: 0 <= i < |s.orphans| ==> InWindow(s.orphans[i].timestamp, s.orphans[i].now))
    && (forall i, j :: 0 <= i < j < |s.log| ==> Apart(s.log, i, j))
  }

  lemma RemovedSnoc(log: seq<Admission>, a: Admission, hour: int, start: nat)
    requires start <= |log|
    ensures Removed(log + [a], hour, start, |log| + 1) <==> Removed(log, hour, start, |log|) || Removes(a, hour)
  {
    var longer := log + [a];
    assert longer[|log|] == a && forall j :: 0 <= j < |log| ==> longer[j] == log[j];
    if Removed(log, hour, start, |log|) {
      var j :| start <= j < |log| && Removes(log[j], hour);
      assert Removes(longer[j], hour);
    }
    if Removes(a, hour) {
      assert Removes(longer[|log|], hour);
    }
  }

  /** An admission leaves, of what was recorded, what its pruning spares, and adds its own record. */
  lemma AdmissionRecords(s: State, s': State, a: Admission, id: string, hour: int)
    requires HoldsExactly(s) && s'.log == s.log + [a] && s'.orphans == s.orphans
    ensures Recorded(s', id, hour) <==>
              (Recorded(s, id, hour) && !Removes(a, hour)) || (id == a.id && hour == Hour(a.now))
  {
    forall k | 0 <= k < |s.log| ensures Stands(s', k, id, hour) <==> Stands(s, k, id, hour) && !Removes(a, hour) {
      RemovedSnoc(s.log, a, hour, k + 1);
    }
    forall i | 0 <= i < |s.orphans|
      ensures OrphanStands(s', i, id, hour) <==> OrphanStands(s, i, id, hour) && !Removes(a, hour)
    {
      RemovedSnoc(s.log, a, hour, s.orphans[i].since);
    }
    assert Stands(s', |s.log|, id, hour) <==> id == a.id && hour == Hour(a.now);
  }

  lemma OrphanRecords(s: State, s': State, o: Orphan, id: string, hour: int)
    requires s'.log == s.log && s'.orphans == s.orphans + [o] && o.since == |s.log|
    ensures Recorded(s', id, hour) <==> Recorded(s, id, hour) || (id == o.id && hour == Hour(o.now))
  {
    forall k | 0 <= k < |s.log| ensures Stands(s', k, id, hour) <==> Stands(s, k, id, hour) {}
    forall i | 0 <= i < |s.orphans| ensures OrphanStands(s', i, id, hour) <==> OrphanStands(s, i, id, hour) {}
    assert OrphanStands(s', |s.orphans|, id, hour) <==> id == o.id && hour == Hour(o.now);
  }

  lemma GuardMoves(s: State, e: Event)
    requires e.Check?
    ensures var s', ok := Step(s, e), Verdict(s, e).Ok?;
            && (ok || Orphans(s, e) ==> InWindow(e.timestamp, e.now))
            && (forall id :: id in SeenBy(s', e.guard) ==> id in SeenBy(s, e.guard) || (ok && id == e.id))
            && (!ok && !Orphans(s, e) ==> s'.buckets == s.buckets)
            && (Orphans(s, e) ==> s'.buckets == Record(s.buckets, e.id, e.now))
            && (ok ==> s'.buckets == Pruned(Record(s.buckets, e.id, e.now), e.now, e.disk.removable))
            && (ok ==> e.id !in Ids(s.buckets, Hour(e.now)) && e.id !in Ids(s.buckets, Hour(e.now) - 1))
  {
  }

  lemma StepHoldsExactly(s: State, e: Event)
    requires HoldsExactly(s)
    ensures HoldsExactly(Step(s, e))
  {
    var s' := Step(s, e);
    if e.Check? {
      GuardMoves(s, e);
      if Verdict(s, e).Ok? {
        var a := Admission(e.id, e.timestamp, e.now, e.disk.removable);
        forall hour, id ensures id in Ids(s'.buckets, hour) <==> Recorded(s', id, hour) {
          AdmissionRecords(s, s', a, id, hour);
        }
      } else if Orphans(s, e) {
        var o := Orphan(e.id, e.timestamp, e.now, |s.log|);
        forall hour, id ensures id in Ids(s'.buckets, hour) <==> Recorded(s', id, hour) {
          OrphanRecords(s, s', o, id, hour);
        }
      } else {
        SameRecords(s, s');
      }
    } else {
      SameRecords(s, s');
    }
  }

  lemma SameRecords(s: State, s': State)
    requires HoldsExactly(s) && s'.log == s.log && s'.orphans == s.orphans && s'.buckets == s.buckets
    ensures HoldsExactly(s')
  {
    forall hour, id ensures id in Ids(s'.buckets, hour) <==> Recorded(s', id, hour) {
      forall k | 0 <= k < |s.log| ensures Stands(s', k, id, hour) <==> Stands(s, k, id, hour) {}
      forall i | 0 <= i < |s.orphans| ensures OrphanStands(s', i, id, hour) <==> OrphanStands(s, i, id, hour) {}
    }
  }

  lemma StepRemembersAdmitted(s: State, e: Event)
    requires RemembersAdmitted(s)
    ensures RemembersAdmitted(Step(s, e))
  {
    var s' := Step(s, e);
    if e.Check? {
      GuardMoves(s, e);
      if Verdict(s, e).Ok? {
        assert s'.log[|s.log|].id == e.id;
      }
    }
    forall guard, id | id in SeenBy(s', guard) ensures Admitted(s', id) {
      if id in SeenBy(s, guard) {
        assert Admitted(s, id);
        var k :| 0 <= k < |s.log| && s.log[k].id == id;
        assert s'.log[k].id == id;
      }
    }
  }

  lemma AdmissionIsApart(s: State, e: Event, i: nat)
    requires HoldsExactly(s) && e.Check? && Verdict(s, e).Ok? && i < |s.log|
    ensures Apart(Step(s, e).log, i, |s.log|)
  {
    GuardMoves(s, e);
    var log, hour := Step(s, e).log, Hour(s.log[i].now);
    SameBefore(s.log, log[|s.log|], hour, i + 1, |s.log|);
    if s.log[i].id == e.id && !Removed(s.log, hour, i + 1, |s.log|) {
      assert Stands(s, i, e.id, hour);
      assert e.id in Ids(s.buckets, hour);
    }
  }

  lemma SameBefore(log: seq<Admission>, a: Admission, hour: int, start: nat, end: nat)
    requires end <= |log|
    ensures Removed(log + [a], hour, start, end) <==> Removed(log, hour, start, end)
  {
    assert forall j :: 0 <= j < |log| ==> (log + [a])[j] == log[j];
  }

  lemma StepKeepsGood(s: State, e: Event)
    requires Good(s)
    ensures Good(Step(s, e))
  {
    StepHoldsExactly(s, e);
    StepRemembersAdmitted(s, e);
    if e.Check? {
      GuardMoves(s, e);
      if Verdict(s, e).Ok? {
        AllApart(s, e);
      }
    }
  }

  lemma AllApart(s: State, e: Event)
    requires Good(s) && e.Check? && Verdict(s, e).Ok?
    ensures forall i, j :: 0 <= i < j < |Step(s, e).log| ==> Apart(Step(s, e).log, i, j)
  {
    var log := Step(s, e).log;
    forall i, j | 0 <= i < j < |log| ensures Apart(log, i, j) {
      if j < |s.log| {
        assert Apart(s.log, i, j);
        SameBefore(s.log, log[|s.log|], Hour(log[i].now), i + 1, j);
      } else {
        AdmissionIsApart(s, e, i);
      }
    }
  }

  /** In every run whatever, of any number of guards, processes and restarts, with any clocks and
      any disk failures. */
  lemma {:induction false} RunIsGood(events: seq<Event>)
    ensures Good(Run(events))
  {
    if events == [] {
      assert forall hour, id :: !Recorded(INITIAL, id, hour);
    } else {
      RunIsGood(events[..|events| - 1]);
      StepKeepsGood(Run(events[..|events| - 1]), events[|events| - 1]);
    }
  }

  // ----- what is admitted, exactly -------------------------------------------

  predicate Healthy(disk: Disk) {
    disk.lockOk && disk.readCurrentOk && disk.readPreviousOk && disk.appendOk
  }

  /** In every reachable state, for every id, clock and disk: an answer is given only if the lock and
      the reads it needs succeed, and on a healthy disk the store finds exactly what is recorded in
      the hour of the clock or the one before. */
  lemma StoreFindsExactly(events: seq<Event>, id: string, now: int, disk: Disk)
    ensures var s := Run(events);
            var found := Recorded(s, id, Hour(now)) || Recorded(s, id, Hour(now) - 1);
            && (Healthy(disk) ==> StoreStep(s.buckets, id, now, disk).0 == Some(found))
            && (StoreStep(s.buckets, id, now, disk).0 == Some(false) ==> Healthy(disk))
            && (StoreStep(s.buckets, id, now, disk).0 == Some(true) ==> found)
  {
    RunIsGood(events);
    var s := Run(events);
    assert id in Ids(s.buckets, Hour(now)) <==> Recorded(s, id, Hour(now));
    assert id in Ids(s.buckets, Hour(now) - 1) <==> Recorded(s, id, Hour(now) - 1);
  }

  /** The exact condition of every admission, in every reachable state: the envelope lies in the
      window, the guard at hand does not remember it, the disk is healthy, and no record of its id
      stands in the hour of the clock or the one before. */
  lemma AdmittedIff(events: seq<Event>, e: Event)
    requires e.Check?
    ensures var s := Run(events);
            Verdict(s, e) == Ok(()) <==>
              && e.now - WINDOW <= e.timestamp <= e.now + WINDOW
              && (e.id in SeenBy(s, e.guard) ==> e.now - SeenBy(s, e.guard)[e.id] > WINDOW)
              && e.disk.lockOk && e.disk.readCurrentOk && e.disk.readPreviousOk && e.disk.appendOk
              && !Recorded(s, e.id, Hour(e.now)) && !Recorded(s, e.id, Hour(e.now) - 1)
  {
    StoreFindsExactly(events, e.id, e.now, e.disk);
  }

  /** And of every refusal: stale outside the window; a duplicate when the guard remembers the id or
      the buckets that could be read hold it; otherwise the guard could not tell. */
  lemma RefusedFor(events: seq<Event>, e: Event)
    requires e.Check?
    ensures var s, d, r := Run(events), e.disk, Verdict(Run(events), e);
            var inside := e.now - WINDOW <= e.timestamp <= e.now + WINDOW;
            var remembered := e.id in SeenBy(s, e.guard) && e.now - SeenBy(s, e.guard)[e.id] <= WINDOW;
            var now, before := Recorded(s, e.id, Hour(e.now)), Recorded(s, e.id, Hour(e.now) - 1);
            && (r == Err(StaleTimestamp) <==> !inside)
            && (r == Err(Duplicate) <==>
                  inside && (remembered || (d.lockOk && d.readCurrentOk && (now || (d.readPreviousOk && before)))))
            && (r == Err(GuardUnavailable) <==>
                  && inside && !remembered
                  && (!d.lockOk || !d.readCurrentOk || (!now && (!d.readPreviousOk || (!before && !d.appendOk)))))
  {
    RunIsGood(events);
    var s := Run(events);
    assert e.id in Ids(s.buckets, Hour(e.now)) <==> Recorded(s, e.id, Hour(e.now));
    assert e.id in Ids(s.buckets, Hour(e.now) - 1) <==> Recorded(s, e.id, Hour(e.now) - 1);
  }

  // ----- memory --------------------------------------------------------------

  /** The guard is not started over, and its clock does not read more than a window past `t`. */
  predicate Steady(more: seq<Event>, guard: nat, t: int) {
    forall e :: e in more && e.guard == guard ==> e.Check? && e.now - t <= WINDOW
  }

  lemma StepRemembers(s: State, e: Event, guard: nat, id: string)
    requires id in SeenBy(s, guard)
    requires e.guard == guard ==> e.Check? && e.now - SeenBy(s, guard)[id] <= WINDOW
    ensures id in SeenBy(Step(s, e), guard) && SeenBy(Step(s, e), guard)[id] == SeenBy(s, guard)[id]
  {
  }

  lemma {:induction false} RemembersOn(events: seq<Event>, more: seq<Event>, guard: nat, id: string)
    requires id in SeenBy(Run(events), guard) && Steady(more, guard, SeenBy(Run(events), guard)[id])
    ensures id in SeenBy(Run(events + more), guard)
    ensures SeenBy(Run(events + more), guard)[id] == SeenBy(Run(events), guard)[id]
    decreases |more|
  {
    if more == [] {
      assert events + more == events;
    } else {
      var init, e := more[..|more| - 1], more[|more| - 1];
      assert e in more && forall d :: d in init ==> d in more;
      RemembersOn(events, init, guard, id);
      assert events + more == events + init + [e];
      RunSnoc(events + init, e);
      StepRemembers(Run(events + init), e, guard, id);
    }
  }

  /** The in-memory set does its part on its own: whatever the disk does, a guard that is not started
      over refuses an id it admitted, for a window after. */
  lemma MemoryRefuses(events: seq<Event>, a: Event, more: seq<Event>, e: Event)
    requires a.Check? && Verdict(Run(events), a) == Ok(()) && Steady(more, a.guard, a.now)
    requires e.Check? && e.guard == a.guard && e.id == a.id && e.now - a.now <= WINDOW
    ensures Verdict(Run(events + [a] + more), e)
         == Err(if e.now - WINDOW <= e.timestamp <= e.now + WINDOW then Duplicate else StaleTimestamp)
  {
    RunSnoc(events, a);
    RemembersOn(events + [a], more, a.guard, a.id);
  }

  predicate Orphaned(s: State, id: string) {
    exists i :: 0 <= i < |s.orphans| && s.orphans[i].id == id
  }

  /** So an envelope inside the window, on a healthy disk, is refused only if its id was admitted
      before or left behind by a failed append. */
  lemma FreshIdIsAdmitted(events: seq<Event>, e: Event)
    requires e.Check? && InWindow(e.timestamp, e.now) && Healthy(e.disk)
    requires !Admitted(Run(events), e.id) && !Orphaned(Run(events), e.id)
    ensures Verdict(Run(events), e) == Ok(())
  {
    RunIsGood(events);
    AdmittedIff(events, e);
    UnadmittedIsUnseen(Run(events), e.id, e.guard);
  }

  lemma UnadmittedIsUnseen(s: State, id: string, guard: nat)
    requires RemembersAdmitted(s) && !Admitted(s, id)
    ensures id !in SeenBy(s, guard)
  {
    assert id in SeenBy(s, guard) ==> Admitted(s, id);
  }

  /** The k-th admission is the only trace of its id. */
  predicate OnlyAdmission(s: State, k: nat) {
    && k < |s.log| && !Orphaned(s, s.log[k].id)
    && forall j :: 0 <= j < |s.log| && s.log[j].id == s.log[k].id ==> j == k
  }

  lemma RecordedOnceOnly(s: State, k: nat, hour: int)
    requires OnlyAdmission(s, k)
    ensures Recorded(s, s.log[k].id, hour) <==>
              hour == Hour(s.log[k].now) && !Removed(s.log, hour, k + 1, |s.log|)
  {
    if hour == Hour(s.log[k].now) && !Removed(s.log, hour, k + 1, |s.log|) {
      assert Stands(s, k, s.log[k].id, hour);
    }
  }

  /** When at-most-once fails, exactly: the same envelope is admitted again if and only if the disk is
      healthy, the guard at hand does not remember it, and its clock reads an earlier hour than the
      first admission's, or else some admission since, more than two hours ahead of the first,
      deleted that hour's bucket. A caller can tell before the check. */
  lemma AdmittedAgainIff(events: seq<Event>, k: nat, e: Event)
    requires OnlyAdmission(Run(events), k) && e.Check? && InWindow(e.timestamp, e.now)
    requires e.id == Run(events).log[k].id && e.timestamp == Run(events).log[k].timestamp
    ensures var s, first := Run(events), Run(events).log[k];
            Verdict(s, e) == Ok(()) <==>
              && e.id !in Unexpired(SeenBy(s, e.guard), e.now) && Healthy(e.disk)
              && (Hour(e.now) < Hour(first.now) || Removed(s.log, Hour(first.now), k + 1, |s.log|))
  {
    RunIsGood(events);
    AdmittedIff(events, e);
    RecordedOnceOnly(Run(events), k, Hour(e.now));
    RecordedOnceOnly(Run(events), k, Hour(e.now) - 1);
    CloseInstants(Run(events).log[k].now, e.now);
  }

  /** The i-th orphan is the only trace of its id. */
  predicate OnlyOrphan(s: State, i: nat) {
    && i < |s.orphans| && !Admitted(s, s.orphans[i].id)
    && forall j :: 0 <= j < |s.orphans| && s.orphans[j].id == s.orphans[i].id ==> j == i
  }

  lemma OrphanedOnceOnly(s: State, i: nat, hour: int)
    requires OnlyOrphan(s, i)
    ensures Recorded(s, s.orphans[i].id, hour) <==>
              hour == Hour(s.orphans[i].now) && !Removed(s.log, hour, s.orphans[i].since, |s.log|)
  {
    if hour == Hour(s.orphans[i].now) && !Removed(s.log, hour, s.orphans[i].since, |s.log|) {
      assert OrphanStands(s, i, s.orphans[i].id, hour);
    }
  }

  /** A peer told to retry because the append failed, when the record was written all the same: its
      envelope, which was never admitted, is admitted on the retry if and only if the clock reads an
      earlier hour than at the first attempt, or the bucket has been deleted since. So within the
      hour, and on into the next, the retry is refused as a replay. */
  lemma RetryOfOrphanIff(events: seq<Event>, i: nat, e: Event)
    requires OnlyOrphan(Run(events), i) && e.Check? && InWindow(e.timestamp, e.now)
    requires e.id == Run(events).orphans[i].id && e.timestamp == Run(events).orphans[i].timestamp
    ensures var s, first := Run(events), Run(events).orphans[i];
            Verdict(s, e) == Ok(()) <==>
              && Healthy(e.disk)
              && (Hour(e.now) < Hour(first.now) || Removed(s.log, Hour(first.now), first.since, |s.log|))
  {
    RunIsGood(events);
    AdmittedIff(events, e);
    UnadmittedIsUnseen(Run(events), e.id, e.guard);
    OrphanedOnceOnly(Run(events), i, Hour(e.now));
    OrphanedOnceOnly(Run(events), i, Hour(e.now) - 1);
    CloseInstants(Run(events).orphans[i].now, e.now);
  }

  // ----- with the hours in order ---------------------------------------------

  /** The hours of the admissions, in lock order, never go back. Checks that are refused, before the
      lock or under it, are free. */
  predicate HoursInOrder(log: seq<Admission>) {
    forall i, j :: 0 <= i < j < |log| ==> Hour(log[i].now) <= Hour(log[j].now)
  }

  /** Then an id is not admitted twice in the same hour or in adjacent hours. */
  lemma SameIdTwoHoursApart(events: seq<Event>, i: nat, j: nat)
    requires HoursInOrder(Run(events).log) && i < j < |Run(events).log|
    requires Run(events).log[i].id == Run(events).log[j].id
    ensures Hour(Run(events).log[i].now) + 2 <= Hour(Run(events).log[j].now)
  {
    RunIsGood(events);
    var log := Run(events).log;
    assert Apart(log, i, j);
    if Removed(log, Hour(log[i].now), i + 1, j) {
      var m :| i + 1 <= m < j && Removes(log[m], Hour(log[i].now));
      assert Hour(log[m].now) <= Hour(log[j].now);
    }
  }

  /** So no envelope is admitted twice. */
  lemma AtMostOnce(events: seq<Event>, i: nat, j: nat)
    requires HoursInOrder(Run(events).log) && i < j < |Run(events).log|
    requires Run(events).log[i].id == Run(events).log[j].id
    ensures Run(events).log[i].timestamp != Run(events).log[j].timestamp
  {
    RunIsGood(events);
    SameIdTwoHoursApart(events, i, j);
    var a, b := Run(events).log[i], Run(events).log[j];
    if a.timestamp == b.timestamp {
      CloseInstants(a.now, b.now);
    }
  }

  /** An envelope admitted before is refused from then on, as long as the hours stay in order. */
  lemma SentAgainIsRefused(events: seq<Event>, k: nat, e: Event)
    requires HoursInOrder(Run(events).log) && k < |Run(events).log| && e.Check?
    requires forall a :: a in Run(events).log ==> Hour(a.now) <= Hour(e.now)
    requires e.id == Run(events).log[k].id && e.timestamp == Run(events).log[k].timestamp
    ensures Verdict(Run(events), e).Err?
  {
    if Verdict(Run(events), e).Ok? {
      var log, longer := Run(events).log, events + [e];
      assert longer[..|events|] == events;
      assert Run(longer).log == log + [Admission(e.id, e.timestamp, e.now, e.disk.removable)];
      AtMostOnce(longer, k, |log|);
    }
  }

  // ----- what the guarantee rests on -----------------------------------------

  /** A message for an empty store and an empty guard. */
  lemma FirstAdmission(id: string)
    ensures Run([Check(0, id, HOUR, HOUR, HEALTHY)]) ==
              State(map[0 := map[id := HOUR]], map[1 := [id]], [Admission(id, HOUR, HOUR, {})], [])
  {
    var a := Check(0, id, HOUR, HOUR, HEALTHY);
    RunSnoc([], a);
    assert [] + [a] == [a];
    assert Hour(HOUR) == 1;
    assert Ids(map[], 1) + [id] == [id];
    assert Record(map[], id, HOUR) == map[1 := [id]];
    assert Pruned(map[1 := [id]], HOUR, {}) == map[1 := [id]];
    assert Unexpired(map[], HOUR) == map[];
  }

  /** The order of the hours is needed: two guards that read the clock on either side of an hour and
      take the lock in the other order admit one envelope twice. */
  lemma HourOrderIsNeeded(id: string)
    ensures var events := [Check(0, id, HOUR, HOUR, HEALTHY), Check(1, id, HOUR, HOUR - 1, HEALTHY)];
            Run(events).log == [Admission(id, HOUR, HOUR, {}), Admission(id, HOUR, HOUR - 1, {})]
  {
    var a, b := Check(0, id, HOUR, HOUR, HEALTHY), Check(1, id, HOUR, HOUR - 1, HEALTHY);
    FirstAdmission(id);
    RunSnoc([a], b);
    assert [a] + [b] == [a, b];
    assert Verdict(Run([a]), b) == Ok(());
  }

  /** An admission three hours ahead deletes the first one's bucket. */
  lemma JumpAhead(id: string, other: string)
    ensures var b := Check(0, other, 4 * HOUR, 4 * HOUR, HEALTHY.(removable := {1}));
            var s, first := Run([Check(0, id, HOUR, HOUR, HEALTHY), b]), Admission(id, HOUR, HOUR, {});
            && s.log == [first, Admission(other, 4 * HOUR, 4 * HOUR, {1})]
            && s.buckets == map[4 := [other]] && s.guards.Keys == {0}
  {
    var a, b := Check(0, id, HOUR, HOUR, HEALTHY), Check(0, other, 4 * HOUR, 4 * HOUR, HEALTHY.(removable := {1}));
    FirstAdmission(id);
    RunSnoc([a], b);
    assert [a] + [b] == [a, b];
    assert Hour(HOUR) == 1 && Hour(4 * HOUR) == 4;
    assert Ids(map[1 := [id]], 4) + [other] == [other];
    assert Pruned(map[1 := [id], 4 := [other]], 4 * HOUR, {1}) == map[4 := [other]];
  }

  /** A clock that jumps ahead and is set back breaks it within one and the same hour: the admission
      in between deletes the record. */
  lemma JumpAheadIsEnough(id: string, other: string)
    ensures var events := [Check(0, id, HOUR, HOUR, HEALTHY),
                           Check(0, other, 4 * HOUR, 4 * HOUR, HEALTHY.(removable := {1})),
                           Check(1, id, HOUR, HOUR, HEALTHY)];
            Run(events).log == [Admission(id, HOUR, HOUR, {}), Admission(other, 4 * HOUR, 4 * HOUR, {1}),
                                Admission(id, HOUR, HOUR, {})]
  {
    var a, b := Check(0, id, HOUR, HOUR, HEALTHY), Check(0, other, 4 * HOUR, 4 * HOUR, HEALTHY.(removable := {1}));
    var c := Check(1, id, HOUR, HOUR, HEALTHY);
    JumpAhead(id, other);
    RunSnoc([a, b], c);
    assert [a, b] + [c] == [a, b, c];
    assert Hour(HOUR) == 1;
    assert Verdict(Run([a, b]), c) == Ok(());
  }

  /** The retry refused: a failed append that reached the file spends the envelope. */
  lemma FailedAppendSpends(id: string)
    ensures var events := [Check(0, id, HOUR, HOUR, HEALTHY.(appendOk := false))];
            && Run(events).log == [] && OnlyOrphan(Run(events), 0)
            && Verdict(Run([]), events[0]) == Err(GuardUnavailable)
            && Verdict(Run(events), Check(0, id, HOUR, HOUR + SECOND, HEALTHY)) == Err(Duplicate)
  {
    var a := Check(0, id, HOUR, HOUR, HEALTHY.(appendOk := false));
    RunSnoc([], a);
    assert [] + [a] == [a];
    assert Hour(HOUR) == 1 && Hour(HOUR + SECOND) == 1;
    assert Record(map[], id, HOUR)[1] == [id];
    assert Orphans(INITIAL, a);
  }

  /** The store is needed: memory alone forgets an id while its envelope is still in the window. */
  lemma StoreIsNeeded(id: string, timestamp: int)
    ensures var (r1, seen, _) := GuardStep(map[], None, id, timestamp, timestamp - WINDOW, HEALTHY);
            r1 == Ok(()) && GuardStep(seen, None, id, timestamp, timestamp + 1, HEALTHY).0 == Ok(())
  {
  }
}
