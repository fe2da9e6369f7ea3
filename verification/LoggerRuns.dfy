/** Several loggers at work on one file (internal/audit/logger.go), and what the verifier then says:
    the source's mutex is per process, so nothing but the chain itself shows an overlap. */
module LoggerRuns {
  import opened Wrappers
  import opened SignedJson
  import opened AuditLog
  import opened AuditTheorems

  /** A logger opens the file, resuming from its last line; or an open logger attempts a write. */
  datatype Event = Opens(who: nat) | Writes(who: nat, a: Attempt)

  /** The file, the hash each open logger remembers, and for every line what it says and which hash
      it names. */
  datatype File = File(lines: seq<string>, memory: map<nat, string>, contents: seq<string>, named: seq<string>)

  const FRESH := File([], map[], [], [])

  function Step(w: World<Entry>, signer: Signer, f: File, e: Event): File {
    match e
    case Opens(who) => f.(memory := f.memory[who := Prev(w, f.lines, |f.lines|)])
    case Writes(who, a) =>
      if who !in f.memory then f
      else
        var last := f.memory[who];
        var (lines', last') := WriteStep(w, signer, f.lines, last, a);
        if Lands(w, signer, last, a) then
          File(lines', f.memory[who := last'], f.contents + [a.content], f.named + [last])
        else f
  }

  function Run(w: World<Entry>, signer: Signer, events: seq<Event>): File {
    if events == [] then FRESH
    else Step(w, signer, Run(w, signer, events[..|events| - 1]), events[|events| - 1])
  }

  /** The hash is that of a line of the file, or the genesis value. */
  ghost predicate Known(w: World<Entry>, lines: seq<string>, h: string) {
    h == GENESIS || exists j :: 0 <= j < |lines| && w.hash(lines[j]) == h
  }

  predicate Line(w: World<Entry>, signer: Signer, f: File, i: nat)
    requires i < |f.lines| == |f.contents| == |f.named|
  {
    SignedLine(w, signer, f.contents[i], f.named[i]) == Some(f.lines[i])
  }

  ghost predicate Tracked(w: World<Entry>, signer: Signer, f: File) {
    && |f.lines| == |f.contents| == |f.named|
    && (forall i :: 0 <= i < |f.lines| ==> Line(w, signer, f, i) && Known(w, f.lines, f.named[i]))
    && (forall who :: who in f.memory ==> Known(w, f.lines, f.memory[who]))
  }

  lemma KnownLater(w: World<Entry>, lines: seq<string>, line: string, h: string)
    ensures Known(w, lines, h) ==> Known(w, lines + [line], h)
    ensures Known(w, lines + [line], w.hash(line))
  {
    assert (lines + [line])[|lines|] == line;
    if Known(w, lines, h) && h != GENESIS {
      var j :| 0 <= j < |lines| && w.hash(lines[j]) == h;
      assert (lines + [line])[j] == lines[j];
    }
  }

  lemma StepTracks(w: World<Entry>, signer: Signer, f: File, e: Event)
    requires Tracked(w, signer, f)
    ensures Tracked(w, signer, Step(w, signer, f, e))
  {
    var f' := Step(w, signer, f, e);
    if e.Writes? && e.who in f.memory && Lands(w, signer, f.memory[e.who], e.a) {
      var last := f.memory[e.who];
      var line := SignedLine(w, signer, e.a.content, last).value;
      assert f'.lines == f.lines + [line];
      forall i | 0 <= i < |f'.lines| ensures Line(w, signer, f', i) && Known(w, f'.lines, f'.named[i]) {
        assert i < |f.lines| ==> Line(w, signer, f, i);
        KnownLater(w, f.lines, line, f'.named[i]);
      }
      forall who | who in f'.memory ensures Known(w, f'.lines, f'.memory[who]) {
        KnownLater(w, f.lines, line, f'.memory[who]);
      }
    }
  }

  lemma {:induction false} RunTracks(w: World<Entry>, signer: Signer, events: seq<Event>)
    ensures Tracked(w, signer, Run(w, signer, events))
  {
    if events != [] {
      RunTracks(w, signer, events[..|events| - 1]);
      StepTracks(w, signer, Run(w, signer, events[..|events| - 1]), events[|events| - 1]);
    }
  }

  /** Line `i` names the line that was the file's last when it was written. */
  predicate InStep(w: World<Entry>, f: File, i: nat)
    requires i < |f.lines| == |f.named|
  {
    f.named[i] == Prev(w, f.lines, i)
  }

  function EntryOf(signer: Signer, f: File, i: nat): Entry
    requires i < |f.contents| == |f.named|
  {
    Entry(f.contents[i], signer.did, f.named[i])
  }

  /** The signer signs every line that reached the file. */
  ghost predicate SignsLines(w: World<Entry>, signer: Signer, f: File) {
    && |f.contents| == |f.named|
    && forall i {:trigger EntryOf(signer, f, i)} :: 0 <= i < |f.contents| ==> Signs(w, signer, EntryOf(signer, f, i))
  }

  /** A line is at fault exactly when it is out of step, and the fault tells what it named. */
  lemma LineVerdict(w: World<Entry>, signer: Signer, f: File, i: nat)
    requires Trusted(w, signer) && Tracked(w, signer, f) && SignsLines(w, signer, f) && i < |f.lines|
    ensures w.parse(f.lines[i]).Some? && w.parse(f.lines[i]).value.0 == EntryOf(signer, f, i)
    ensures FaultAt(w, f.lines, i, signer.did)
         == if InStep(w, f, i) then None else if f.named[i] == GENESIS then Some(MissingEntry) else Some(Reordered)
  {
    var e := EntryOf(signer, f, i);
    assert Line(w, signer, f, i) && Known(w, f.lines, f.named[i]);
    assert e.prevHash != "";
    SignedLineReads(w, signer, e, f.lines, i, signer.did);
  }

  lemma {:induction false} ReadLines(w: World<Entry>, signer: Signer, f: File, n: nat)
    requires Trusted(w, signer) && Tracked(w, signer, f) && SignsLines(w, signer, f) && n <= |f.lines|
    ensures Read(w, f.lines[..n]) == seq(n, i requires 0 <= i < n => EntryOf(signer, f, i))
  {
    if n > 0 {
      assert f.lines[..n][..n - 1] == f.lines[..n - 1];
      ReadLines(w, signer, f, n - 1);
      LineVerdict(w, signer, f, n - 1);
    }
  }

  function Entries(signer: Signer, f: File): seq<Entry>
    requires |f.lines| == |f.contents| == |f.named|
  {
    seq(|f.lines|, i requires 0 <= i < |f.lines| => EntryOf(signer, f, i))
  }

  /** Every line names the line that was last when it was written. */
  predicate AllInStep(w: World<Entry>, f: File)
    requires |f.lines| == |f.named|
  {
    forall i :: 0 <= i < |f.lines| ==> InStep(w, f, i)
  }

  predicate FirstOutOfStep(w: World<Entry>, f: File, i: nat)
    requires i < |f.lines| == |f.named|
  {
    !InStep(w, f, i) && forall j :: 0 <= j < i ==> InStep(w, f, j)
  }

  lemma InStepIsAccepted(w: World<Entry>, signer: Signer, f: File, r: Result<Report, Failure>)
    requires f.lines != [] && Trusted(w, signer) && Tracked(w, signer, f) && SignsLines(w, signer, f)
    requires AllInStep(w, f) && Verdict(w, f.lines, signer.did, r)
    ensures r == Ok(Report(|f.lines|, signer.did, Entries(signer, f)))
  {
    forall i | 0 <= i < |f.lines| ensures FaultAt(w, f.lines, i, signer.did) == None {
      LineVerdict(w, signer, f, i);
    }
    ReadLines(w, signer, f, |f.lines|);
    assert f.lines[..|f.lines|] == f.lines;
    VerdictIsUnique(w, f.lines, signer.did, r, Ok(Report(|f.lines|, signer.did, Entries(signer, f))));
  }

  lemma OutOfStepIsRefused(w: World<Entry>, signer: Signer, f: File, i: nat, r: Result<Report, Failure>)
    requires Trusted(w, signer) && Tracked(w, signer, f) && SignsLines(w, signer, f)
    requires i < |f.lines| && FirstOutOfStep(w, f, i) && Verdict(w, f.lines, signer.did, r)
    ensures r == Err(Tampered(i + 1, if f.named[i] == GENESIS then MissingEntry else Reordered))
  {
    forall j | 0 <= j < i ensures FaultAt(w, f.lines, j, signer.did) == None {
      LineVerdict(w, signer, f, j);
    }
    LineVerdict(w, signer, f, i);
    var kind := if f.named[i] == GENESIS then MissingEntry else Reordered;
    VerdictIsUnique(w, f.lines, signer.did, r, Err(Tampered(i + 1, kind)));
  }

  lemma {:induction false} FirstOut(w: World<Entry>, f: File, n: nat) returns (i: nat)
    requires n < |f.lines| == |f.named| && !InStep(w, f, n)
    ensures i < |f.lines| && FirstOutOfStep(w, f, i)
    decreases n
  {
    if j: nat :| j < n && !InStep(w, f, j) {
      i := FirstOut(w, f, j);
    } else {
      i := n;
    }
  }

  function WritesOf(who: nat, writes: seq<Attempt>): (events: seq<Event>)
    ensures |events| == |writes|
    ensures forall i :: 0 <= i < |writes| ==> events[i] == Writes(who, writes[i])
  {
    seq(|writes|, i requires 0 <= i < |writes| => Writes(who, writes[i]))
  }

  /** The file holds exactly these writes, in order and in step, and the logger remembers its end. */
  predicate WroteAll(w: World<Entry>, f: File, who: nat, writes: seq<Attempt>) {
    && |f.lines| == |f.contents| == |f.named| == |writes| && AllInStep(w, f)
    && who in f.memory && f.memory[who] == Prev(w, f.lines, |f.lines|)
    && forall i :: 0 <= i < |writes| ==> f.contents[i] == writes[i].content
  }

  lemma WritesOneMore(w: World<Entry>, signer: Signer, f: File, who: nat, writes: seq<Attempt>, a: Attempt)
    requires WroteAll(w, f, who, writes) && Lands(w, signer, f.memory[who], a)
    ensures WroteAll(w, Step(w, signer, f, Writes(who, a)), who, writes + [a])
  {
    var f' := Step(w, signer, f, Writes(who, a));
    forall i | 0 <= i < |f'.lines| ensures InStep(w, f', i) {
      assert Prev(w, f'.lines, i) == Prev(w, f.lines, i);
      assert i < |f.lines| ==> InStep(w, f, i);
    }
  }

  lemma RunSnoc(w: World<Entry>, signer: Signer, events: seq<Event>, e: Event)
    ensures Run(w, signer, events + [e]) == Step(w, signer, Run(w, signer, events), e)
  {
    assert (events + [e])[..|events|] == events;
  }

  function Alone(who: nat, writes: seq<Attempt>): seq<Event> {
    [Opens(who)] + WritesOf(who, writes)
  }

  lemma AloneSnoc(who: nat, writes: seq<Attempt>, a: Attempt)
    ensures Alone(who, writes + [a]) == Alone(who, writes) + [Writes(who, a)]
  {
  }

  /** Nothing fails. */
  ghost predicate Smooth(w: World<Entry>, writes: seq<Attempt>) {
    (forall e: Entry :: w.marshal(e).Some? && w.marshal(e).value != "") && forall a :: a in writes ==> a.fileOk
  }

  lemma SmoothInit(w: World<Entry>, signer: Signer, writes: seq<Attempt>, last: string)
    requires Smooth(w, writes) && writes != []
    ensures var init, a := writes[..|writes| - 1], writes[|writes| - 1];
            Smooth(w, init) && Lands(w, signer, last, a) && init + [a] == writes
  {
    assert writes[|writes| - 1] in writes;
  }

  lemma OpenedFile(w: World<Entry>, signer: Signer, who: nat)
    ensures WroteAll(w, Run(w, signer, Alone(who, [])), who, [])
  {
    RunSnoc(w, signer, [], Opens(who));
    assert [] + [Opens(who)] == Alone(who, []);
  }

  /** One logger alone, with nothing failing: every write reaches the file, in order and in step. */
  lemma {:induction false} OneLoggerWritesAll(w: World<Entry>, signer: Signer, who: nat, writes: seq<Attempt>)
    requires Smooth(w, writes)
    ensures WroteAll(w, Run(w, signer, Alone(who, writes)), who, writes)
    decreases |writes|
  {
    if writes == [] {
      OpenedFile(w, signer, who);
    } else {
      var init, a := writes[..|writes| - 1], writes[|writes| - 1];
      var f := Run(w, signer, Alone(who, init));
      SmoothInit(w, signer, writes, Prev(w, f.lines, |f.lines|));
      OneLoggerWritesAll(w, signer, who, init);
      AloneSnoc(who, init, a);
      RunSnoc(w, signer, Alone(who, init), Writes(who, a));
      WritesOneMore(w, signer, f, who, init, a);
    }
  }

  /** For any interleaving of any loggers, opening and writing at any time with any failures: the
      file is accepted exactly when every line names the line that was last when it was written,
      and then with exactly the entries written; otherwise it is refused at the first line that
      does not, as missing an entry if that line names the genesis value and as reordered if it
      names another line. */
  lemma InterleavedLoggersVerdict(w: World<Entry>, signer: Signer, events: seq<Event>, f: File,
                                  r: Result<Report, Failure>)
    requires f == Run(w, signer, events) && f.lines != []
    requires Trusted(w, signer) && SignsLines(w, signer, f) && Verdict(w, f.lines, signer.did, r)
    ensures |f.lines| == |f.contents| == |f.named|
    ensures r.Ok? <==> AllInStep(w, f)
    ensures r.Ok? ==> r.value == Report(|f.lines|, signer.did, Entries(signer, f))
    ensures forall i :: 0 <= i < |f.lines| && FirstOutOfStep(w, f, i) ==>
              r == Err(Tampered(i + 1, if f.named[i] == GENESIS then MissingEntry else Reordered))
  {
    RunTracks(w, signer, events);
    if AllInStep(w, f) {
      InStepIsAccepted(w, signer, f, r);
    } else {
      var n :| 0 <= n < |f.lines| && !InStep(w, f, n);
      var first := FirstOut(w, f, n);
      OutOfStepIsRefused(w, signer, f, first, r);
    }
    forall i | 0 <= i < |f.lines| && FirstOutOfStep(w, f, i)
      ensures r == Err(Tampered(i + 1, if f.named[i] == GENESIS then MissingEntry else Reordered))
    {
      OutOfStepIsRefused(w, signer, f, i, r);
    }
  }
}
