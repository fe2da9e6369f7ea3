/** What holds over every sequence of charges and trips, by any number of runs that share one
    daily ledger (internal/spending/tracker.go, internal/spending/store.go). */
module SpendingTheorems {
  import opened Wrappers
  import opened Money
  import opened Ledger
  import opened Tracker
  import M = Meter

  /** One locked step: a charge on some UTC day, or a trip. */
  datatype Op =
    | Charging(who: nat, day: nat, amount: MicroCents, fault: Fault)
    | Tripping(who: nat, v: Violation)

  datatype World = World(runs: seq<State>, days: Days)

  /** Runs as NewTracker builds them, over any ledger that earlier runs left. */
  predicate Fresh(w: World) {
    forall t :: t in w.runs ==>
      Usable(t.limits, t.attached) && t.runTotal == 0 && !t.warned && t.tripped == NoViolation
  }

  predicate Sane(w: World) {
    forall i :: 0 <= i < |w.runs| ==> Usable(w.runs[i].limits, w.runs[i].attached) && w.runs[i].runTotal >= 0
  }

  predicate Possible(w: World, op: Op) {
    op.who < |w.runs| && (op.Tripping? ==> op.v != NoViolation)
  }

  function Told(w: World, op: Op): Option<MicroCents>
    requires Possible(w, op) && op.Charging?
  {
    DayTotal(w.runs[op.who], On(w.days, op.day), op.amount, op.fault)
  }

  function Step(w: World, op: Op): World
    requires Sane(w) && Possible(w, op)
  {
    var t := w.runs[op.who];
    match op
    case Tripping(who, v) => w.(runs := w.runs[who := if t.tripped == NoViolation then t.(tripped := v) else t])
    case Charging(who, day, amount, fault) =>
      var told := Told(w, op);
      World(if told.None? then w.runs else w.runs[who := Settled(t, amount, told.value)],
            w.days[day := LinesAfter(t, On(w.days, day), amount, fault)])
  }

  function Receives(w: World, op: Op): Option<Receipt>
    requires Sane(w) && Possible(w, op)
  {
    if op.Tripping? || Told(w, op).None? then None
    else Some(ReceiptFor(w.runs[op.who], op.amount, Told(w, op).value))
  }

  ghost predicate Schedule(n: nat, ops: seq<Op>) {
    forall op :: op in ops ==> op.who < n && (op.Tripping? ==> op.v != NoViolation)
  }

  /** A sane world, and steps that can be taken in it one after the other. */
  ghost predicate History(w: World, ops: seq<Op>) {
    Sane(w) && Schedule(|w.runs|, ops)
  }

  /** The world after the first `k` of `ops`. */
  ghost function At(w: World, ops: seq<Op>, k: nat): (w': World)
    requires History(w, ops) && k <= |ops|
    ensures Sane(w') && |w'.runs| == |w.runs|
  {
    if k == 0 then w
    else
      assert ops[k - 1] in ops;
      Step(At(w, ops, k - 1), ops[k - 1])
  }

  /** What the k-th of `ops` answers. */
  ghost function Got(w: World, ops: seq<Op>, k: nat): Option<Receipt>
    requires History(w, ops) && k < |ops|
  {
    assert ops[k] in ops;
    Receives(At(w, ops, k), ops[k])
  }

  lemma CanStep(w: World, ops: seq<Op>, k: nat)
    requires History(w, ops) && k < |ops|
    ensures Possible(At(w, ops, k), ops[k])
  {
    assert ops[k] in ops;
  }

  // ----- one step ------------------------------------------------------------

  /** A charge that fails leaves its tracker, and every other, as it was. */
  lemma FailedChargeChangesNoTracker(w: World, op: Op)
    requires Sane(w) && Possible(w, op) && op.Charging? && Receives(w, op).None?
    ensures Step(w, op).runs == w.runs
  {
  }

  /** An attached tracker that is charged is told the ledger's exact sum at that step, its own
      charge included. Every tracker that is charged gets a violation exactly if it was tripped
      before, or its own spend is past the run cap, or that sum past the daily cap. */
  lemma AnswerIsExact(w: World, op: Op)
    requires Sane(w) && Possible(w, op) && op.Charging? && Receives(w, op).Some?
    ensures var t, r, sum := w.runs[op.who], Receives(w, op).value, Sum(On(Step(w, op).days, op.day));
            && (t.attached ==> r.dayTotal as int == sum == Sum(On(w.days, op.day)) + op.amount as int)
            && r.runTotal as int == t.runTotal as int + op.amount as int
            && (r.violation != NoViolation <==>
                  || t.tripped != NoViolation || (t.limits.perRun > 0 && r.runTotal > t.limits.perRun)
                  || (t.limits.perDay > 0 && sum > t.limits.perDay as int))
            && (t.tripped != NoViolation ==> r.violation == t.tripped)
  {
    var t := w.runs[op.who];
    ReceiptSays(t, op.amount, Told(w, op).value);
    if t.attached {
      AnswerIsSum(On(w.days, op.day), op.amount, op.fault);
    }
  }

  /** When a charge goes through, in any state of any run. */
  lemma ChargedIff(w: World, op: Op)
    requires Sane(w) && Possible(w, op) && op.Charging?
    ensures var t, lines := w.runs[op.who], On(w.days, op.day);
            Receives(w, op).Some? <==>
              && op.amount >= 0 && t.runTotal as int + op.amount as int <= 0x7FFF_FFFF_FFFF_FFFF
              && (t.attached ==>
                    && op.fault == NoFault && (forall l :: l in lines ==> l != Corrupt && (l.Charge? ==> l.amount >= 0))
                    && Sum(lines) + op.amount as int <= 0x7FFF_FFFF_FFFF_FFFF)
  {
    GoesThroughIff(w.runs[op.who], On(w.days, op.day), op.amount, op.fault);
  }

  // ----- run totals ----------------------------------------------------------

  /** The k-th step is a successful charge of `who`. */
  ghost predicate Charged(w: World, ops: seq<Op>, who: nat, k: nat)
    requires History(w, ops)
  {
    k < |ops| && ops[k].who == who && Got(w, ops, k).Some?
  }

  /** The charges of one run that went through, among the first `k` steps. */
  ghost function Spent(w: World, ops: seq<Op>, who: nat, k: nat): int
    requires History(w, ops) && k <= |ops|
  {
    if k == 0 then 0
    else Spent(w, ops, who, k - 1)
         + if Charged(w, ops, who, k - 1) then Got(w, ops, k - 1).value.amount as int else 0
  }

  /** A run's total is at every step the sum of its successful charges. */
  lemma {:induction false} RunTotalIsSumOfCharges(w: World, ops: seq<Op>, who: nat, k: nat)
    requires History(w, ops) && Fresh(w) && who < |w.runs| && k <= |ops|
    ensures At(w, ops, k).runs[who].runTotal as int == Spent(w, ops, who, k)
  {
    if k == 0 {
      assert w.runs[who] in w.runs;
    } else {
      RunTotalIsSumOfCharges(w, ops, who, k - 1);
      CanStep(w, ops, k - 1);
    }
  }

  // ----- tripping and warning ------------------------------------------------

  predicate Over(limits: Limits, r: Receipt) {
    OverRun(limits, r.runTotal) || OverDay(limits, r.dayTotal)
  }

  /** How one step moves one run's flags. */
  lemma FlagsMove(w: World, op: Op, who: nat)
    requires Sane(w) && Possible(w, op) && who < |w.runs|
    ensures var before, after, got := w.runs[who], Step(w, op).runs[who], Receives(w, op);
            && Sticks(before, after)
            && (after.warned <==>
                  before.warned || (op.who == who && got.Some? && AtThreshold(before.limits, got.value.dayTotal)))
            && (before.tripped == NoViolation ==>
                  (after.tripped != NoViolation <==>
                     op.who == who && (op.Tripping? || (got.Some? && Over(before.limits, got.value)))))
  {
  }

  /** The later state has the same limits and every flag the earlier one had. */
  predicate Sticks(before: State, after: State) {
    && after.limits == before.limits && after.attached == before.attached
    && (before.tripped != NoViolation ==> after.tripped == before.tripped)
    && (before.warned ==> after.warned)
  }

  /** Once tripped, a run stays tripped, by the same violation; a warning given stays given. */
  lemma {:induction false} TripIsForGood(w: World, ops: seq<Op>, who: nat, j: nat, k: nat)
    requires History(w, ops) && who < |w.runs| && j <= k <= |ops|
    ensures Sticks(At(w, ops, j).runs[who], At(w, ops, k).runs[who])
    decreases k
  {
    if j < k {
      TripIsForGood(w, ops, who, j, k - 1);
      CanStep(w, ops, k - 1);
      FlagsMove(At(w, ops, k - 1), ops[k - 1], who);
    }
  }

  lemma SameLimits(w: World, ops: seq<Op>, who: nat, k: nat)
    requires History(w, ops) && who < |w.runs| && k <= |ops|
    ensures At(w, ops, k).runs[who].limits == w.runs[who].limits
    ensures At(w, ops, k).runs[who].attached == w.runs[who].attached
  {
    TripIsForGood(w, ops, who, 0, k);
  }

  /** A successful charge of `who` that meets the warning threshold. */
  ghost predicate Meets(w: World, ops: seq<Op>, who: nat, k: nat)
    requires History(w, ops) && who < |w.runs|
  {
    Charged(w, ops, who, k) && AtThreshold(w.runs[who].limits, Got(w, ops, k).value.dayTotal)
  }

  /** One that goes over a cap. */
  ghost predicate Exceeds(w: World, ops: seq<Op>, who: nat, k: nat)
    requires History(w, ops) && who < |w.runs|
  {
    Charged(w, ops, who, k) && Over(w.runs[who].limits, Got(w, ops, k).value)
  }

  /** A step that trips a run that is not tripped yet. */
  ghost predicate Causes(w: World, ops: seq<Op>, who: nat, k: nat)
    requires History(w, ops) && who < |w.runs|
  {
    Exceeds(w, ops, who, k) || (k < |ops| && ops[k].Tripping? && ops[k].who == who)
  }

  /** Some of the first `k` steps met the threshold. */
  ghost predicate EverMet(w: World, ops: seq<Op>, who: nat, k: nat)
    requires History(w, ops) && who < |w.runs|
  {
    exists j: nat :: j < k && Meets(w, ops, who, j)
  }

  ghost predicate EverCaused(w: World, ops: seq<Op>, who: nat, k: nat)
    requires History(w, ops) && who < |w.runs|
  {
    exists j: nat :: j < k && Causes(w, ops, who, j)
  }

  lemma ExistsBelow(p: nat -> bool, k: nat)
    ensures (exists j: nat :: j < k + 1 && p(j)) <==> (exists j: nat :: j < k && p(j)) || p(k)
  {
    if j: nat :| j < k + 1 && p(j) {
      assert j < k || j == k;
    }
  }

  lemma MetStep(w: World, ops: seq<Op>, who: nat, k: nat)
    requires History(w, ops) && who < |w.runs|
    ensures EverMet(w, ops, who, k + 1) <==> EverMet(w, ops, who, k) || Meets(w, ops, who, k)
  {
    var p := (j: nat) => Meets(w, ops, who, j);
    ExistsBelow(p, k);
    assert forall j: nat :: p(j) == Meets(w, ops, who, j);
  }

  lemma CausedStep(w: World, ops: seq<Op>, who: nat, k: nat)
    requires History(w, ops) && who < |w.runs|
    ensures EverCaused(w, ops, who, k + 1) <==> EverCaused(w, ops, who, k) || Causes(w, ops, who, k)
  {
    var p := (j: nat) => Causes(w, ops, who, j);
    ExistsBelow(p, k);
    assert forall j: nat :: p(j) == Causes(w, ops, who, j);
  }

  /** What the k-th step does to a run, in the run's own terms. */
  lemma StepOfRun(w: World, ops: seq<Op>, who: nat, k: nat)
    requires History(w, ops) && who < |w.runs| && k < |ops|
    ensures var before, after := At(w, ops, k).runs[who], At(w, ops, k + 1).runs[who];
            && (after.warned <==> before.warned || Meets(w, ops, who, k))
            && (after.tripped != NoViolation <==> before.tripped != NoViolation || Causes(w, ops, who, k))
  {
    CanStep(w, ops, k);
    SameLimits(w, ops, who, k);
    FlagsMove(At(w, ops, k), ops[k], who);
  }

  /** A run is warned exactly when some charge of it met the threshold. */
  lemma {:induction false} WarnedMeansMet(w: World, ops: seq<Op>, who: nat, k: nat)
    requires History(w, ops) && Fresh(w) && who < |w.runs| && k <= |ops|
    ensures At(w, ops, k).runs[who].warned <==> EverMet(w, ops, who, k)
  {
    if k == 0 {
      assert w.runs[who] in w.runs;
    } else {
      WarnedMeansMet(w, ops, who, k - 1);
      StepOfRun(w, ops, who, k - 1);
      MetStep(w, ops, who, k - 1);
    }
  }

  /** And tripped exactly when some step gave cause. */
  lemma {:induction false} TrippedMeansCause(w: World, ops: seq<Op>, who: nat, k: nat)
    requires History(w, ops) && Fresh(w) && who < |w.runs| && k <= |ops|
    ensures At(w, ops, k).runs[who].tripped != NoViolation <==> EverCaused(w, ops, who, k)
  {
    if k == 0 {
      assert w.runs[who] in w.runs;
    } else {
      TrippedMeansCause(w, ops, who, k - 1);
      StepOfRun(w, ops, who, k - 1);
      CausedStep(w, ops, who, k - 1);
    }
  }

  /** What a receipt says of the flags. */
  lemma ReceiptFlags(w: World, op: Op)
    requires Sane(w) && Possible(w, op) && Receives(w, op).Some?
    ensures var t, r := w.runs[op.who], Receives(w, op).value;
            && (r.warnCrossed <==> !t.warned && AtThreshold(t.limits, r.dayTotal))
            && (r.newlyTripped <==> t.tripped == NoViolation && Over(t.limits, r))
            && (Over(t.limits, r) ==> r.violation != NoViolation)
            && (r.newlyTripped && r.violation == PerRun ==>
                  OverRun(t.limits, r.runTotal) && r.runTotal as int == t.runTotal as int + r.amount as int)
  {
  }

  /** The warning fires once: on the first successful charge that meets the exact threshold. */
  lemma WarnsOnFirst(w: World, ops: seq<Op>, who: nat, k: nat)
    requires History(w, ops) && Fresh(w) && who < |w.runs| && Charged(w, ops, who, k)
    ensures Got(w, ops, k).value.warnCrossed
       <==> Meets(w, ops, who, k) && forall j: nat :: j < k ==> !Meets(w, ops, who, j)
    ensures forall j: nat {:trigger Meets(w, ops, who, j)} :: j <= k ==>
              (Meets(w, ops, who, j) <==>
                 var limits := w.runs[who].limits;
                 && ops[j].who == who && Got(w, ops, j).Some? && limits.perDay > 0 && limits.warnAtPct > 0
                 && Got(w, ops, j).value.dayTotal as int * 100 >= limits.perDay as int * limits.warnAtPct)
  {
    WarnedMeansMet(w, ops, who, k);
    SameLimits(w, ops, who, k);
    CanStep(w, ops, k);
    ReceiptFlags(At(w, ops, k), ops[k]);
  }

  /** A cap trips a run once: on its first successful charge over a cap, unless it was tripped
      for another reason before. */
  lemma TripsOnFirst(w: World, ops: seq<Op>, who: nat, k: nat)
    requires History(w, ops) && Fresh(w) && who < |w.runs| && Charged(w, ops, who, k)
    ensures Got(w, ops, k).value.newlyTripped
       <==> Exceeds(w, ops, who, k) && forall j: nat :: j < k ==> !Causes(w, ops, who, j)
    ensures Exceeds(w, ops, who, k) ==> Got(w, ops, k).value.violation != NoViolation
    ensures forall j: nat {:trigger Causes(w, ops, who, j)} {:trigger Exceeds(w, ops, who, j)} :: j <= k ==>
              && (Exceeds(w, ops, who, j) <==>
                    var limits := w.runs[who].limits;
                    && ops[j].who == who && Got(w, ops, j).Some?
                    && (|| (limits.perRun > 0 && Got(w, ops, j).value.runTotal > limits.perRun)
                        || (limits.perDay > 0 && Got(w, ops, j).value.dayTotal > limits.perDay)))
              && (Causes(w, ops, who, j) <==> Exceeds(w, ops, who, j) || (ops[j].Tripping? && ops[j].who == who))
  {
    TrippedMeansCause(w, ops, who, k);
    SameLimits(w, ops, who, k);
    CanStep(w, ops, k);
    ReceiptFlags(At(w, ops, k), ops[k]);
  }

  /** One step keeps an untripped run under its cap. */
  lemma StepKeepsUnder(w: World, op: Op, who: nat)
    requires Sane(w) && Possible(w, op) && who < |w.runs|
    requires w.runs[who].tripped == NoViolation ==> !OverRun(w.runs[who].limits, w.runs[who].runTotal)
    ensures var t := Step(w, op).runs[who];
            t.tripped == NoViolation ==> !OverRun(t.limits, t.runTotal)
  {
  }

  lemma {:induction false} UntrippedIsUnderCap(w: World, ops: seq<Op>, who: nat, k: nat)
    requires History(w, ops) && Fresh(w) && who < |w.runs| && k <= |ops|
    ensures var t := At(w, ops, k).runs[who];
            t.tripped == NoViolation ==> !OverRun(t.limits, t.runTotal)
  {
    if k == 0 {
      assert w.runs[who] in w.runs;
    } else {
      UntrippedIsUnderCap(w, ops, who, k - 1);
      CanStep(w, ops, k - 1);
      StepKeepsUnder(At(w, ops, k - 1), ops[k - 1], who);
    }
  }

  /** At a per-run trip the run is over its cap by no more than the charge that tripped it. */
  lemma OvershootIsOneCharge(w: World, ops: seq<Op>, who: nat, k: nat)
    requires History(w, ops) && Fresh(w) && who < |w.runs| && Charged(w, ops, who, k)
    requires Got(w, ops, k).value.newlyTripped && Got(w, ops, k).value.violation == PerRun
    ensures var r, cap := Got(w, ops, k).value, w.runs[who].limits.perRun;
            cap > 0 && r.runTotal as int - r.amount as int <= cap as int < r.runTotal as int
  {
    UntrippedIsUnderCap(w, ops, who, k);
    SameLimits(w, ops, who, k);
    CanStep(w, ops, k);
    ReceiptFlags(At(w, ops, k), ops[k]);
  }

  // ----- the shared ledger ---------------------------------------------------

  /** The charge's record reaches the file. */
  predicate Recorded(w: World, op: Op)
    requires Possible(w, op) && op.Charging?
  {
    w.runs[op.who].attached && Admissible(w.runs[op.who], op.amount) && op.fault != NotWritten
  }

  function Gain(w: World, op: Op, day: nat): int
    requires Possible(w, op)
  {
    if op.Charging? && op.day == day && Recorded(w, op) then op.amount as int else 0
  }

  lemma StepOnDay(w: World, op: Op, day: nat)
    requires Sane(w) && Possible(w, op)
    ensures On(w.days, day) <= On(Step(w, op).days, day)
    ensures Sum(On(Step(w, op).days, day)) == Sum(On(w.days, day)) + Gain(w, op, day)
    ensures Gain(w, op, day) >= 0
  {
    if op.Charging? && op.day == day && Recorded(w, op) {
      SumSnoc(On(w.days, day), Charge(op.amount));
    }
  }

  /** What the day's file holds after the first `k` steps. */
  ghost function LinesAt(w: World, ops: seq<Op>, day: nat, k: nat): seq<Line>
    requires History(w, ops) && k <= |ops|
  {
    On(At(w, ops, k).days, day)
  }

  lemma DayMoves(w: World, ops: seq<Op>, k: nat, day: nat)
    requires History(w, ops) && k < |ops|
    ensures Possible(At(w, ops, k), ops[k])
    ensures LinesAt(w, ops, day, k) <= LinesAt(w, ops, day, k + 1)
    ensures Sum(LinesAt(w, ops, day, k + 1)) == Sum(LinesAt(w, ops, day, k)) + Gain(At(w, ops, k), ops[k], day)
    ensures Gain(At(w, ops, k), ops[k], day) >= 0
  {
    CanStep(w, ops, k);
    StepOnDay(At(w, ops, k), ops[k], day);
  }

  /** No step ever takes from a day's file or from its total. */
  lemma {:induction false} LedgerNeverShrinks(w: World, ops: seq<Op>, day: nat, j: nat, k: nat)
    requires History(w, ops) && j <= k <= |ops|
    ensures LinesAt(w, ops, day, j) <= LinesAt(w, ops, day, k)
    ensures Sum(LinesAt(w, ops, day, j)) <= Sum(LinesAt(w, ops, day, k))
    decreases k
  {
    if j < k {
      LedgerNeverShrinks(w, ops, day, j, k - 1);
      DayMoves(w, ops, k - 1, day);
    }
  }

  /** Totals told on one day never decrease from one charge to a later one, whoever is told. */
  lemma TotalsToldNeverDecrease(w: World, ops: seq<Op>, j: nat, k: nat)
    requires History(w, ops) && j < k < |ops|
    requires Got(w, ops, j).Some? && Got(w, ops, k).Some? && ops[j].day == ops[k].day
    requires ops[j].who < |w.runs| && w.runs[ops[j].who].attached
    requires ops[k].who < |w.runs| && w.runs[ops[k].who].attached
    ensures Got(w, ops, j).value.dayTotal as int + ops[k].amount as int <= Got(w, ops, k).value.dayTotal as int
  {
    ToldAt(w, ops, j);
    ToldAt(w, ops, k);
    LedgerNeverShrinks(w, ops, ops[j].day, j + 1, k);
  }

  /** What an attached run is told at its step, of the day's file. */
  lemma ToldAt(w: World, ops: seq<Op>, k: nat)
    requires History(w, ops) && k < |ops| && Got(w, ops, k).Some?
    requires ops[k].who < |w.runs| && w.runs[ops[k].who].attached
    ensures var told := Got(w, ops, k).value.dayTotal as int;
            && told == Sum(LinesAt(w, ops, ops[k].day, k + 1))
            && told == Sum(LinesAt(w, ops, ops[k].day, k)) + ops[k].amount as int
  {
    CanStep(w, ops, k);
    SameLimits(w, ops, ops[k].who, k);
    AnswerIsExact(At(w, ops, k), ops[k]);
  }

  /** A charge whose record is in the file although its run was told of an error. */
  ghost predicate Unacknowledged(w: World, op: Op)
    requires Sane(w) && Possible(w, op)
  {
    op.Charging? && Receives(w, op).None? && Recorded(w, op)
  }

  ghost function Acknowledged(w: World, ops: seq<Op>, day: nat, k: nat): int
    requires History(w, ops) && k <= |ops|
  {
    if k == 0 then 0
    else
      var op := ops[k - 1];
      CanStep(w, ops, k - 1);
      Acknowledged(w, ops, day, k - 1)
      + if op.Charging? && op.day == day && Got(w, ops, k - 1).Some? && w.runs[op.who].attached
        then op.amount as int else 0
  }

  ghost function Lost(w: World, ops: seq<Op>, day: nat, k: nat): int
    requires History(w, ops) && k <= |ops|
  {
    if k == 0 then 0
    else
      var op := ops[k - 1];
      CanStep(w, ops, k - 1);
      Lost(w, ops, day, k - 1)
      + if op.Charging? && op.day == day && Unacknowledged(At(w, ops, k - 1), op) then op.amount as int else 0
  }

  /** What a step adds to the file was acknowledged or lost. */
  lemma GainIsTold(w: World, op: Op, day: nat)
    requires Sane(w) && Possible(w, op)
    ensures var mine := op.Charging? && op.day == day;
            && Gain(w, op, day)
               == (if mine && Receives(w, op).Some? && w.runs[op.who].attached then op.amount as int else 0)
                + (if mine && Unacknowledged(w, op) then op.amount as int else 0)
            && (mine && Unacknowledged(w, op) ==> op.amount >= 0)
  {
  }

  /** Conservation: a day's ledger holds what it held, every charge that went through, and every
      charge whose record was written before an error; nothing else, and nothing twice. */
  lemma {:induction false} LedgerBalances(w: World, ops: seq<Op>, day: nat, k: nat)
    requires History(w, ops) && k <= |ops|
    ensures Sum(LinesAt(w, ops, day, k))
         == Sum(On(w.days, day)) + Acknowledged(w, ops, day, k) + Lost(w, ops, day, k)
    ensures Lost(w, ops, day, k) >= 0
  {
    if k > 0 {
      LedgerBalances(w, ops, day, k - 1);
      DayMoves(w, ops, k - 1, day);
      SameLimits(w, ops, ops[k - 1].who, k - 1);
      GainIsTold(At(w, ops, k - 1), ops[k - 1], day);
    }
  }

  /** The spend of those of the first `m` runs that share the ledger. */
  ghost function SharedSpend(w: World, ops: seq<Op>, m: nat, k: nat): int
    requires History(w, ops) && m <= |w.runs| && k <= |ops|
  {
    if m == 0 then 0
    else SharedSpend(w, ops, m - 1, k) + if w.runs[m - 1].attached then Spent(w, ops, m - 1, k) else 0
  }

  /** Every charge falls on one of the first `n` days. */
  predicate WithinDays(ops: seq<Op>, n: nat) {
    forall op :: op in ops && op.Charging? ==> op.day < n
  }

  ghost function AcknowledgedWithin(w: World, ops: seq<Op>, n: nat, k: nat): int
    requires History(w, ops) && k <= |ops|
  {
    if n == 0 then 0 else AcknowledgedWithin(w, ops, n - 1, k) + Acknowledged(w, ops, n - 1, k)
  }

  ghost function LostWithin(w: World, ops: seq<Op>, n: nat, k: nat): int
    requires History(w, ops) && k <= |ops|
  {
    if n == 0 then 0 else LostWithin(w, ops, n - 1, k) + Lost(w, ops, n - 1, k)
  }

  /** What the files of the first `n` days have gained after `k` steps. */
  ghost function Gained(w: World, ops: seq<Op>, n: nat, k: nat): int
    requires History(w, ops) && k <= |ops|
  {
    if n == 0 then 0
    else Gained(w, ops, n - 1, k) + Sum(LinesAt(w, ops, n - 1, k)) - Sum(On(w.days, n - 1))
  }

  lemma {:induction false} LedgersBalance(w: World, ops: seq<Op>, n: nat, k: nat)
    requires History(w, ops) && k <= |ops|
    ensures Gained(w, ops, n, k) == AcknowledgedWithin(w, ops, n, k) + LostWithin(w, ops, n, k)
    ensures LostWithin(w, ops, n, k) >= 0
  {
    if n > 0 {
      LedgersBalance(w, ops, n - 1, k);
      LedgerBalances(w, ops, n - 1, k);
    }
  }

  /** What the k-th step adds to the acknowledged charges of the runs that share the ledger. */
  ghost function Shared(w: World, ops: seq<Op>, k: nat): int
    requires History(w, ops) && k < |ops|
  {
    CanStep(w, ops, k);
    if Got(w, ops, k).Some? && w.runs[ops[k].who].attached then Got(w, ops, k).value.amount as int else 0
  }

  lemma {:induction false} SpentByOne(w: World, ops: seq<Op>, m: nat, k: nat)
    requires History(w, ops) && m <= |w.runs| && 0 < k <= |ops|
    ensures SharedSpend(w, ops, m, k)
         == SharedSpend(w, ops, m, k - 1) + if ops[k - 1].who < m then Shared(w, ops, k - 1) else 0
    decreases m
  {
    if m > 0 {
      SpentByOne(w, ops, m - 1, k);
    }
  }

  lemma {:induction false} AcknowledgedOnOneDay(w: World, ops: seq<Op>, n: nat, k: nat)
    requires History(w, ops) && 0 < k <= |ops|
    ensures AcknowledgedWithin(w, ops, n, k)
         == AcknowledgedWithin(w, ops, n, k - 1)
            + if ops[k - 1].Charging? && ops[k - 1].day < n then Shared(w, ops, k - 1) else 0
    decreases n
  {
    if n > 0 {
      AcknowledgedOnOneDay(w, ops, n - 1, k);
      AcknowledgedNow(w, ops, n - 1, k);
    }
  }

  lemma AcknowledgedNow(w: World, ops: seq<Op>, day: nat, k: nat)
    requires History(w, ops) && 0 < k <= |ops|
    ensures Acknowledged(w, ops, day, k)
         == Acknowledged(w, ops, day, k - 1)
            + if ops[k - 1].Charging? && ops[k - 1].day == day then Shared(w, ops, k - 1) else 0
  {
    CanStep(w, ops, k - 1);
    if Got(w, ops, k - 1).Some? {
      AmountIsCharged(At(w, ops, k - 1), ops[k - 1]);
    }
  }

  lemma AmountIsCharged(w: World, op: Op)
    requires Sane(w) && Possible(w, op) && Receives(w, op).Some?
    ensures op.Charging? && Receives(w, op).value.amount == op.amount
  {
  }

  lemma {:induction false} NothingYet(w: World, ops: seq<Op>, m: nat, n: nat)
    requires History(w, ops) && m <= |w.runs|
    ensures SharedSpend(w, ops, m, 0) == 0 && AcknowledgedWithin(w, ops, n, 0) == 0
    decreases m + n
  {
    if m > 0 { NothingYet(w, ops, m - 1, n); }
    if n > 0 { NothingYet(w, ops, m, n - 1); }
  }

  lemma {:induction false} SpentIsAcknowledged(w: World, ops: seq<Op>, n: nat, k: nat)
    requires History(w, ops) && WithinDays(ops, n) && k <= |ops|
    ensures SharedSpend(w, ops, |w.runs|, k) == AcknowledgedWithin(w, ops, n, k)
  {
    if k == 0 {
      NothingYet(w, ops, |w.runs|, n);
    } else {
      SpentIsAcknowledged(w, ops, n, k - 1);
      SpentByOne(w, ops, |w.runs|, k);
      AcknowledgedOnOneDay(w, ops, n, k);
      CanStep(w, ops, k - 1);
      assert ops[k - 1] in ops;
    }
  }

  /** The totals of those of the first `m` runs that share the ledger. */
  ghost function RunTotals(w: World, m: nat): int
    requires m <= |w.runs|
  {
    if m == 0 then 0 else RunTotals(w, m - 1) + if w.runs[m - 1].attached then w.runs[m - 1].runTotal as int else 0
  }

  lemma {:induction false} RunTotalsAreSpent(w: World, ops: seq<Op>, m: nat, k: nat)
    requires History(w, ops) && Fresh(w) && m <= |w.runs| && k <= |ops|
    ensures RunTotals(At(w, ops, k), m) == SharedSpend(w, ops, m, k)
    decreases m
  {
    if m > 0 {
      RunTotalsAreSpent(w, ops, m - 1, k);
      RunTotalIsSumOfCharges(w, ops, m - 1, k);
      SameLimits(w, ops, m - 1, k);
    }
  }

  /** At every step, over any number of days, the totals of all runs that share the ledger together
      equal what its files gained, less the charges that were written and then reported as errors. */
  lemma LedgerCoversAllRuns(w: World, ops: seq<Op>, n: nat, k: nat)
    requires History(w, ops) && Fresh(w) && WithinDays(ops, n) && k <= |ops|
    ensures var totals := RunTotals(At(w, ops, k), |w.runs|);
            totals == Gained(w, ops, n, k) - LostWithin(w, ops, n, k) && totals <= Gained(w, ops, n, k)
  {
    LedgersBalance(w, ops, n, k);
    SpentIsAcknowledged(w, ops, n, k);
    RunTotalsAreSpent(w, ops, |w.runs|, k);
  }

  /** Once a day's ledger is over a run's daily cap, whoever spent it, every later charge of that
      run on that day is answered with a violation. */
  lemma CapBindsEveryRun(w: World, ops: seq<Op>, who: nat, j: nat, k: nat)
    requires History(w, ops) && Fresh(w) && who < |w.runs|
    requires j <= k && Charged(w, ops, who, k) && ops[k].Charging?
    requires w.runs[who].limits.perDay > 0
    requires Sum(LinesAt(w, ops, ops[k].day, j)) > w.runs[who].limits.perDay as int
    ensures Got(w, ops, k).value.violation != NoViolation
  {
    LedgerNeverShrinks(w, ops, ops[k].day, j, k + 1);
    SameLimits(w, ops, who, k);
    CanStep(w, ops, k);
    AnswerIsExact(At(w, ops, k), ops[k]);
  }

  // ----- metered spend -------------------------------------------------------

  /** Every successful charge of the run is of a response that was metered: `bills[k]` is what the
      k-th step charged for. */
  ghost predicate Billed(w: World, ops: seq<Op>, who: nat, read: M.Readers, bills: seq<M.Bill>)
    requires History(w, ops)
  {
    && |bills| == |ops|
    && forall k: nat :: k < |ops| && Charged(w, ops, who, k) ==>
         M.Bracketed(read, bills[k]) && bills[k].total == Got(w, ops, k).value.amount
  }

  /** What the run's charges cost with nothing rounded, and how often a meter was read for them. */
  ghost function ExactSpend(w: World, ops: seq<Op>, who: nat, read: M.Readers, bills: seq<M.Bill>, k: nat): real
    requires History(w, ops) && Billed(w, ops, who, read, bills) && k <= |ops|
  {
    if k == 0 then 0.0
    else ExactSpend(w, ops, who, read, bills, k - 1)
         + if Charged(w, ops, who, k - 1) then M.ExactTotal(read, bills[k - 1].doc, bills[k - 1].meters) else 0.0
  }

  ghost function Readings(w: World, ops: seq<Op>, who: nat, bills: seq<M.Bill>, k: nat): nat
    requires History(w, ops) && |bills| == |ops| && k <= |ops|
  {
    if k == 0 then 0
    else Readings(w, ops, who, bills, k - 1) + if Charged(w, ops, who, k - 1) then |bills[k - 1].meters| else 0
  }

  lemma {:induction false} SpentIsBilled(w: World, ops: seq<Op>, who: nat, read: M.Readers, bills: seq<M.Bill>, k: nat)
    requires History(w, ops) && Billed(w, ops, who, read, bills) && k <= |ops|
    ensures ExactSpend(w, ops, who, read, bills, k) <= Spent(w, ops, who, k) as real
         <= ExactSpend(w, ops, who, read, bills, k) + Readings(w, ops, who, bills, k) as real
  {
    if k > 0 {
      SpentIsBilled(w, ops, who, read, bills, k - 1);
    }
  }

  /** Metered spend never undercounts: over every interleaving a run's total is at every step at
      least what its charges cost exactly, and exceeds that by at most one micro-cent for each
      reading of a meter. */
  lemma RunTotalNeverUndercounts(w: World, ops: seq<Op>, who: nat, read: M.Readers, bills: seq<M.Bill>, k: nat)
    requires History(w, ops) && Fresh(w) && who < |w.runs| && Billed(w, ops, who, read, bills) && k <= |ops|
    ensures var total := At(w, ops, k).runs[who].runTotal as int as real;
            && ExactSpend(w, ops, who, read, bills, k) <= total
            && total <= ExactSpend(w, ops, who, read, bills, k) + Readings(w, ops, who, bills, k) as real
  {
    RunTotalIsSumOfCharges(w, ops, who, k);
    SpentIsBilled(w, ops, who, read, bills, k);
  }
}
