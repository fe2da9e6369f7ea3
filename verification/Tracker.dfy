/** The run's spending tracker (internal/spending/tracker.go). */
module Tracker {
  import opened Wrappers
  import opened Money
  import opened Ledger

  /** A cap of zero is not declared. */
  datatype Limits = Limits(perRun: MicroCents, perDay: MicroCents, warnAtPct: int)

  datatype Violation = NoViolation | PerRun | PerDay | MeteringFailure

  datatype Receipt = Receipt(amount: MicroCents, runTotal: MicroCents, dayTotal: MicroCents,
                             warnCrossed: bool, violation: Violation, newlyTripped: bool)

  datatype State = State(limits: Limits, attached: bool, runTotal: MicroCents, warned: bool, tripped: Violation)

  /** What NewTracker lets through. */
  predicate Usable(limits: Limits, attached: bool) {
    && limits.perRun >= 0 && limits.perDay >= 0 && 0 <= limits.warnAtPct <= 100
    && (limits.warnAtPct > 0 ==> limits.perDay > 0)
    && (limits.perDay > 0 ==> attached)
  }

  predicate OverRun(limits: Limits, runTotal: MicroCents) {
    limits.perRun > 0 && runTotal > limits.perRun
  }

  predicate OverDay(limits: Limits, dayTotal: MicroCents) {
    limits.perDay > 0 && dayTotal > limits.perDay
  }

  /** The day total is at the warning percentage of the cap, compared without rounding. */
  predicate AtThreshold(limits: Limits, dayTotal: MicroCents) {
    limits.perDay > 0 && limits.warnAtPct > 0 && dayTotal as int * 100 >= limits.perDay as int * limits.warnAtPct
  }

  // ----- one charge ----------------------------------------------------------

  /** A charge reaches the ledger unless it is refused first. */
  predicate Admissible(t: State, amount: MicroCents) {
    amount >= 0 && t.runTotal as int + amount as int <= MAX_AMOUNT as int
  }

  /** The day total a charge is told, when it goes through. */
  function DayTotal(t: State, lines: seq<Line>, amount: MicroCents, fault: Fault): Option<MicroCents> {
    if !Admissible(t, amount) then None else if t.attached then Answer(lines, amount, fault) else Some(0)
  }

  function LinesAfter(t: State, lines: seq<Line>, amount: MicroCents, fault: Fault): seq<Line> {
    if Admissible(t, amount) && t.attached then Appended(lines, amount, fault) else lines
  }

  function Settled(t: State, amount: MicroCents, dayTotal: MicroCents): State
    requires Admissible(t, amount) && t.runTotal >= 0
  {
    var runTotal := t.runTotal + amount;
    t.(runTotal := runTotal,
       warned := t.warned || AtThreshold(t.limits, dayTotal),
       tripped := if t.tripped != NoViolation then t.tripped
                  else if OverRun(t.limits, runTotal) then PerRun
                  else if OverDay(t.limits, dayTotal) then PerDay
                  else NoViolation)
  }

  function ReceiptFor(t: State, amount: MicroCents, dayTotal: MicroCents): Receipt
    requires Admissible(t, amount) && t.runTotal >= 0
  {
    var t' := Settled(t, amount, dayTotal);
    Receipt(amount, t'.runTotal, dayTotal, t'.warned && !t.warned, t'.tripped, t'.tripped != t.tripped)
  }

  /** When a charge goes through: it is not negative, int64 holds the run total, and the ledger, if
      there is one, takes it and gives its total. */
  lemma GoesThroughIff(t: State, lines: seq<Line>, amount: MicroCents, fault: Fault)
    requires t.runTotal >= 0
    ensures DayTotal(t, lines, amount, fault).Some? <==>
              && amount >= 0 && t.runTotal as int + amount as int <= 0x7FFF_FFFF_FFFF_FFFF
              && (t.attached ==>
                    && fault == NoFault && (forall l :: l in lines ==> l != Corrupt && (l.Charge? ==> l.amount >= 0))
                    && Sum(lines) + amount as int <= 0x7FFF_FFFF_FFFF_FFFF)
    ensures DayTotal(t, lines, amount, fault).Some? ==>
              DayTotal(t, lines, amount, fault).value as int
              == if t.attached then Sum(lines) + amount as int else 0
  {
    AnswersIff(lines, amount, fault);
  }

  /** What a receipt says, and what it leaves: the first violation stays, a run cap comes before a day
      cap, a total at its cap is no violation, and the warning is given once. */
  lemma ReceiptSays(t: State, amount: MicroCents, dayTotal: MicroCents)
    requires Admissible(t, amount) && t.runTotal >= 0
    ensures var r, t' := ReceiptFor(t, amount, dayTotal), Settled(t, amount, dayTotal);
            var overRun := t.limits.perRun > 0 && r.runTotal > t.limits.perRun;
            var overDay := t.limits.perDay > 0 && r.dayTotal > t.limits.perDay;
            var atWarning := && t.limits.perDay > 0 && t.limits.warnAtPct > 0
                             && dayTotal as int * 100 >= t.limits.perDay as int * t.limits.warnAtPct;
            && r.amount == amount && r.dayTotal == dayTotal
            && r.runTotal as int == t.runTotal as int + amount as int
            && r.violation == (if t.tripped != NoViolation then t.tripped
                               else if overRun then PerRun else if overDay then PerDay else NoViolation)
            && (r.newlyTripped <==> t.tripped == NoViolation && (overRun || overDay))
            && (r.warnCrossed <==> !t.warned && atWarning)
            && t' == State(t.limits, t.attached, r.runTotal, t.warned || atWarning, r.violation)
  {
  }

  class RunTracker {
    const limits: Limits
    const store: DailyStore?
    var runTotal: MicroCents
    var warned: bool
    var tripped: Violation

    constructor (limits: Limits, store: DailyStore?)
      requires Usable(limits, store != null)
      ensures this.limits == limits && this.store == store
      ensures Abstract() == State(limits, store != null, 0, false, NoViolation)
    {
      this.limits, this.store := limits, store;
      runTotal, warned, tripped := 0, false, NoViolation;
    }

    function Abstract(): State
      reads this
    {
      State(limits, store != null, runTotal, warned, tripped)
    }

    predicate Valid()
      reads this
    {
      Usable(limits, store != null) && runTotal >= 0
    }

    ghost function Lines(today: nat): seq<Line>
      reads this, store
    {
      if store == null then [] else On(store.days, today)
    }

    method Charge(today: nat, amount: MicroCents, fault: Fault) returns (r: Option<Receipt>)
      requires Valid()
      modifies this, store
      ensures Valid()
      ensures var told := DayTotal(old(Abstract()), old(Lines(today)), amount, fault);
              && (told.None? ==> r.None? && Abstract() == old(Abstract()))
              && (told.Some? ==> r == Some(ReceiptFor(old(Abstract()), amount, told.value))
                                 && Abstract() == Settled(old(Abstract()), amount, told.value))
      ensures Lines(today) == LinesAfter(old(Abstract()), old(Lines(today)), amount, fault)
      ensures store != null ==>
                var written := && amount >= 0 && fault != NotWritten
                               && old(runTotal) as int + amount as int <= 0x7FFF_FFFF_FFFF_FFFF;
                On(store.days, today) == old(On(store.days, today)) + if written then [Line.Charge(amount)] else []
      ensures r.Some? ==>
                var overRun := limits.perRun > 0 && r.value.runTotal > limits.perRun;
                var overDay := limits.perDay > 0 && r.value.dayTotal > limits.perDay;
                && r.value.runTotal as int == old(runTotal) as int + amount as int
                && r.value.violation == (if old(tripped) != NoViolation then old(tripped)
                                         else if overRun then PerRun else if overDay then PerDay else NoViolation)
                && (r.value.newlyTripped <==> old(tripped) == NoViolation && (overRun || overDay))
                && (r.value.warnCrossed <==>
                      && !old(warned) && limits.perDay > 0 && limits.warnAtPct > 0
                      && r.value.dayTotal as int * 100 >= limits.perDay as int * limits.warnAtPct)
      ensures store != null ==> forall d :: d != today ==> On(store.days, d) == On(old(store.days), d)
    {
      ghost var before := Abstract();
      if amount < 0 {
        return None;
      }
      var newRunTotal := Add(runTotal, amount);
      if newRunTotal.Err? {
        return None;
      }
      var dayTotal: MicroCents := 0;
      if store != null {
        var day := store.Append(today, amount, fault);
        if day.None? {
          return None;
        }
        dayTotal := day.value;
      }
      runTotal := newRunTotal.value;
      var warnCrossed := Warn(dayTotal);
      var newlyTripped := Judge(dayTotal);
      r := Some(Receipt(amount, runTotal, dayTotal, warnCrossed, tripped, newlyTripped));
      ReceiptSays(before, amount, dayTotal);
    }

    method Warn(dayTotal: MicroCents) returns (crossed: bool)
      modifies this`warned
      ensures warned == (old(warned) || AtThreshold(limits, dayTotal)) && crossed == (warned && !old(warned))
    {
      crossed := false;
      if limits.perDay > 0 && limits.warnAtPct > 0 && !warned {
        if dayTotal as int * 100 >= limits.perDay as int * limits.warnAtPct {
          warned, crossed := true, true;
        }
      }
    }

    method Judge(dayTotal: MicroCents) returns (newly: bool)
      modifies this`tripped
      ensures tripped == if old(tripped) != NoViolation then old(tripped)
                         else if OverRun(limits, runTotal) then PerRun
                         else if OverDay(limits, dayTotal) then PerDay
                         else NoViolation
      ensures newly == (tripped != old(tripped))
    {
      newly := false;
      if tripped == NoViolation {
        if limits.perRun > 0 && runTotal > limits.perRun {
          tripped, newly := PerRun, true;
        } else if limits.perDay > 0 && dayTotal > limits.perDay {
          tripped, newly := PerDay, true;
        }
      }
    }

    method Trip(v: Violation)
      requires Valid()
      modifies this
      ensures Valid()
      ensures Abstract() == if old(tripped) == NoViolation then old(Abstract()).(tripped := v) else old(Abstract())
    {
      if tripped == NoViolation {
        tripped := v;
      }
    }
  }

  /** NewTracker: refused exactly when the limits are not usable. */
  method NewTracker(limits: Limits, store: DailyStore?) returns (t: RunTracker?)
    ensures t != null <==> Usable(limits, store != null)
    ensures t != null <==>
              && limits.perRun >= 0 && limits.perDay >= 0 && 0 <= limits.warnAtPct <= 100
              && (limits.warnAtPct > 0 ==> limits.perDay > 0) && (limits.perDay > 0 ==> store != null)
    ensures t != null ==> fresh(t) && t.Valid() && t.Abstract() == State(limits, store != null, 0, false, NoViolation)
  {
    if limits.perRun < 0 || limits.perDay < 0 {
      return null;
    }
    if limits.warnAtPct < 0 || limits.warnAtPct > 100 {
      return null;
    }
    if limits.warnAtPct > 0 && limits.perDay <= 0 {
      return null;
    }
    if limits.perDay > 0 && store == null {
      return null;
    }
    t := new RunTracker(limits, store);
  }
}
