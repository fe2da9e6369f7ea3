/** The durable daily ledger, shared by every run of one identity (internal/spending/store.go).
    A day's file is a sequence of lines and each locked call is one step. */
module Ledger {
  import opened Wrappers
  import opened Money

  datatype Line = Blank | Corrupt | Charge(amount: MicroCents)

  function Worth(line: Line): int {
    if line.Charge? then line.amount as int else 0
  }

  function Sum(lines: seq<Line>): int {
    if lines == [] then 0 else Sum(lines[..|lines| - 1]) + Worth(lines[|lines| - 1])
  }

  /** No line is unreadable or hands budget back. */
  predicate Sound(lines: seq<Line>) {
    forall l :: l in lines ==> !l.Corrupt? && Worth(l) >= 0
  }

  /** The day's total: none for a ledger that is damaged or past what int64 holds. */
  function Total(lines: seq<Line>): Option<MicroCents> {
    if Sound(lines) && 0 <= Sum(lines) <= MAX_AMOUNT as int then Some(Sum(lines) as MicroCents) else None
  }

  lemma {:induction false} SumGrows(lines: seq<Line>, i: nat)
    requires Sound(lines) && i <= |lines|
    ensures 0 <= Sum(lines[..i]) <= Sum(lines)
    decreases |lines|
  {
    var n := |lines|;
    if n > 0 {
      assert lines[n - 1] in lines;
      assert forall l :: l in lines[..n - 1] ==> l in lines;
      SumGrows(lines[..n - 1], if i < n then i else n - 1);
      if i < n {
        assert lines[..n - 1][..i] == lines[..i];
      } else {
        assert lines[..i] == lines;
        assert lines[..n - 1][..n - 1] == lines[..n - 1];
      }
    }
  }

  lemma SumIsNotNegative(lines: seq<Line>)
    ensures Sound(lines) ==> Sum(lines) >= 0
    ensures Sound(lines) <==> forall l :: l in lines ==> l != Corrupt && (l.Charge? ==> l.amount >= 0)
  {
    if Sound(lines) {
      SumGrows(lines, 0);
    }
  }

  lemma SumSnoc(lines: seq<Line>, l: Line)
    ensures Sum(lines + [l]) == Sum(lines) + Worth(l)
  {
    assert (lines + [l])[..|lines|] == lines;
  }

  datatype LedgerError = Unreadable | Negative | TooMuch

  /** The scan fails closed: a corrupt or negative line, or a sum past int64, is an error. */
  method SumLedger(lines: seq<Line>) returns (r: Result<MicroCents, LedgerError>)
    ensures r.Ok? <==> Total(lines).Some?
    ensures r.Ok? ==> r.value == Total(lines).value
    ensures r.Ok? <==> && (forall l :: l in lines ==> l != Corrupt && (l.Charge? ==> l.amount >= 0))
                       && Sum(lines) <= 0x7FFF_FFFF_FFFF_FFFF
    ensures r.Ok? ==> r.value as int == Sum(lines)
    ensures r == Err(Unreadable) ==> Corrupt in lines
    ensures r == Err(Negative) ==> exists l :: l in lines && l.Charge? && l.amount < 0
    ensures r == Err(TooMuch) ==> exists i :: 0 <= i <= |lines| && Sum(lines[..i]) > 0x7FFF_FFFF_FFFF_FFFF
  {
    SumIsNotNegative(lines);
    var total: MicroCents := 0;
    for i := 0 to |lines|
      invariant Sound(lines[..i]) && total >= 0 && total as int == Sum(lines[..i])
    {
      SumSnoc(lines[..i], lines[i]);
      assert lines[..i + 1] == lines[..i] + [lines[i]];
      match lines[i] {
        case Blank =>
        case Corrupt =>
          assert lines[i] in lines;
          return Err(Unreadable);
        case Charge(amount) =>
          if amount < 0 {
            assert lines[i] in lines;
            return Err(Negative);
          }
          var sum := Add(total, amount);
          if sum.Err? {
            if Sound(lines) {
              SumGrows(lines, i + 1);
            }
            return Err(TooMuch);
          }
          total := sum.value;
      }
    }
    assert lines[..|lines|] == lines;
    r := Ok(total);
  }

  /** Where input and output fail: before the record is in the file, or after. */
  datatype Fault = NoFault | NotWritten | AfterWrite

  /** One Append: the file it leaves and the total it returns. */
  function Appended(lines: seq<Line>, amount: MicroCents, fault: Fault): seq<Line> {
    if amount < 0 || fault == NotWritten then lines else lines + [Charge(amount)]
  }

  function Answer(lines: seq<Line>, amount: MicroCents, fault: Fault): Option<MicroCents> {
    if amount < 0 || fault != NoFault then None else Total(lines + [Charge(amount)])
  }

  /** An answer counts every earlier line and this charge. */
  lemma AnswerIsSum(lines: seq<Line>, amount: MicroCents, fault: Fault)
    requires Answer(lines, amount, fault).Some?
    ensures Answer(lines, amount, fault).value as int == Sum(Appended(lines, amount, fault))
         == Sum(lines) + amount as int
    ensures Sum(lines) >= 0
  {
    var after := lines + [Charge(amount)];
    SumSnoc(lines, Charge(amount));
    SumGrows(after, |lines|);
    assert after[..|lines|] == lines;
  }

  /** There is an answer exactly if nothing fails, no line is damaged and int64 holds the sum. */
  lemma AnswersIff(lines: seq<Line>, amount: MicroCents, fault: Fault)
    ensures Answer(lines, amount, fault).Some? <==>
              && amount >= 0 && fault == NoFault
              && (forall l :: l in lines ==> l != Corrupt && (l.Charge? ==> l.amount >= 0))
              && Sum(lines) + amount as int <= 0x7FFF_FFFF_FFFF_FFFF
    ensures Answer(lines, amount, fault).Some? ==>
              Answer(lines, amount, fault).value as int == Sum(lines) + amount as int
  {
    var after := lines + [Charge(amount)];
    SumSnoc(lines, Charge(amount));
    SumIsNotNegative(lines);
    SumIsNotNegative(after);
    assert after[|lines|] in after && forall l :: l in lines ==> l in after;
  }

  type Days = map<nat, seq<Line>>

  function On(days: Days, day: nat): seq<Line> {
    if day in days then days[day] else []
  }

  class DailyStore {
    var days: Days

    constructor (days: Days)
      ensures this.days == days
    {
      this.days := days;
    }

    method TodayTotal(today: nat, readable: bool) returns (r: Option<MicroCents>)
      ensures r == if today !in days then Some(0) else if readable then Total(days[today]) else None
    {
      if today !in days {
        return Some(0);
      }
      if !readable {
        return None;
      }
      var sum := SumLedger(days[today]);
      r := if sum.Ok? then Some(sum.value) else None;
    }

    /** Append and sum under one lock. */
    method Append(today: nat, amount: MicroCents, fault: Fault) returns (r: Option<MicroCents>)
      modifies this
      ensures r == Answer(On(old(days), today), amount, fault)
      ensures days == old(days)[today := Appended(On(old(days), today), amount, fault)]
      ensures var lines := On(old(days), today);
              && On(days, today) == lines + (if amount < 0 || fault == NotWritten then [] else [Charge(amount)])
              && (forall day :: day != today ==> On(days, day) == On(old(days), day))
              && (r.Some? <==> && amount >= 0 && fault == NoFault
                               && (forall l :: l in lines ==> l != Corrupt && (l.Charge? ==> l.amount >= 0))
                               && Sum(lines) + amount as int <= 0x7FFF_FFFF_FFFF_FFFF)
              && (r.Some? ==> r.value as int == Sum(lines) + amount as int)
    {
      AnswersIff(On(days, today), amount, fault);
      var lines := On(days, today);
      if amount < 0 || fault == NotWritten {
        days := days[today := lines];
        return None;
      }
      lines := lines + [Charge(amount)];
      days := days[today := lines];
      var sum := SumLedger(lines);
      r := if fault == AfterWrite || sum.Err? then None else Some(sum.value);
    }
  }
}
