/** The event-stream reader against the standard: sections 9.2.5 and 9.2.6 of the WHATWG HTML standard as a
    reference reader, and when `Sse.Payloads` agrees with it on an arbitrary stream. */
module SseStandard {
  import opened Strings
  import opened Wrappers
  import opened Sse

  // ----- the standard's reader -----------------------------------------------

  const MARK: char := '\U{FEFF}'

  /** One leading byte order mark is ignored. */
  function Unmarked(body: string): string {
    if body != "" && body[0] == MARK then body[1..] else body
  }

  /** Lines end in a carriage return and a line feed, in a line feed, or in a carriage return. */
  function Normal(s: string): string {
    if s == "" then ""
    else if s[0] != '\r' then [s[0]] + Normal(s[1..])
    else if |s| > 1 && s[1] == '\n' then "\n" + Normal(s[2..])
    else "\n" + Normal(s[1..])
  }

  /** The lines of a stream; what stands after the last line end is no line. */
  function Lines(body: string): seq<string> {
    var pieces := Split(Normal(Unmarked(body)), '\n');
    pieces[..|pieces| - 1]
  }

  /** A line's field name, up to the first colon, and its value, less one leading space. */
  function Field(line: string): (string, string) {
    var i := Position(line, ':');
    if i == |line| then (line, "")
    else
      var rest := line[i + 1..];
      (line[..i], if rest != "" && rest[0] == ' ' then rest[1..] else rest)
  }

  datatype Reader = Reader(data: seq<string>, payloads: seq<string>)

  /** An empty line dispatches the event if it has data; a data field adds to it; all else is ignored
      here. */
  function Interpret(lines: seq<string>): Reader {
    if lines == [] then Reader([], [])
    else
      var r, line := Interpret(lines[..|lines| - 1]), lines[|lines| - 1];
      if line == "" then Reader([], Flush(r.data, r.payloads))
      else if Field(line).0 == "data" then Reader(r.data + [Field(line).1], r.payloads)
      else r
  }

  /** The data of the events dispatched; an event that is open at the end is dropped. */
  function Standard(body: string): seq<string> {
    Interpret(Lines(body)).payloads
  }

  // ----- the source's reader, line by line -----------------------------------

  const BARE := "data"

  /** One turn of the loop, with or without the field that has no colon. */
  function Turn(r: Reader, line: string, bare: bool): Reader {
    if line == "" then Reader([], Flush(r.data, r.payloads))
    else if IsData(line) then Reader(r.data + [DataOf(line)], r.payloads)
    else if bare && line == BARE then Reader(r.data + [""], r.payloads)
    else r
  }

  function Read(lines: seq<string>, bare: bool): Reader {
    if lines == [] then Reader([], []) else Turn(Read(lines[..|lines| - 1], bare), lines[|lines| - 1], bare)
  }

  lemma FieldOf(line: string)
    ensures IsData(line) ==> Field(line) == (BARE, DataOf(line))
    ensures line == BARE ==> Field(line) == (BARE, "")
    ensures Field(line).0 == BARE ==> IsData(line) || line == BARE
  {
    PositionIs(line, ':');
    assert ':' !in ['d', 'a', 't', 'a'] && BARE == ['d', 'a', 't', 'a'];
    if IsData(line) {
      PositionAt(BARE, ':', line[5..]);
      assert line == BARE + [':'] + line[5..];
    }
    if Field(line).0 == BARE && Position(line, ':') < |line| {
      assert line[..4] == BARE && line[4] == ':';
      assert line[..5] == line[..4] + [line[4]] == "data:";
    }
  }

  lemma {:induction false} PositionIs(s: string, c: char)
    ensures Position(s, c) < |s| ==> s[Position(s, c)] == c
    ensures c !in s ==> Position(s, c) == |s|
  {
    if s != "" && s[0] != c {
      PositionIs(s[1..], c);
    }
  }

  lemma {:induction false} InterpretIsRead(lines: seq<string>)
    ensures Interpret(lines) == Read(lines, true)
  {
    if lines != [] {
      InterpretIsRead(lines[..|lines| - 1]);
      FieldOf(lines[|lines| - 1]);
    }
  }

  function Trimmed(lines: seq<string>): (out: seq<string>)
    ensures |out| == |lines|
    ensures forall k :: 0 <= k < |out| ==> out[k] == TrimReturn(lines[k])
  {
    seq(|lines|, k requires 0 <= k < |lines| => TrimReturn(lines[k]))
  }

  lemma {:induction false} FeedIsRead(lines: seq<string>, k: nat)
    requires k <= |lines|
    ensures var r := Read(Trimmed(lines[..k]), false);
            Feed(lines, [], []) == Feed(lines[k..], r.data, r.payloads)
  {
    if k == 0 {
      assert lines[0..] == lines;
    } else {
      FeedIsRead(lines, k - 1);
      assert lines[k - 1..][1..] == lines[k..];
      assert Trimmed(lines[..k])[..k - 1] == Trimmed(lines[..k - 1]);
    }
  }

  lemma PayloadsAreRead(body: string)
    ensures var r := Read(Trimmed(Split(body, '\n')), false);
            Payloads(body) == Flush(r.data, r.payloads)
  {
    var lines := Split(body, '\n');
    FeedIsRead(lines, |lines|);
    assert lines[..|lines|] == lines && lines[|lines|..] == [];
  }

  // ----- streams whose carriage returns all stand before line feeds ----------

  predicate PairedReturns(s: string) {
    forall i :: 0 <= i < |s| && s[i] == '\r' ==> i + 1 < |s| && s[i + 1] == '\n'
  }

  /** No byte order mark in front, and no carriage return on its own. */
  predicate Plain(body: string) {
    Unmarked(body) == body && PairedReturns(body)
  }

  lemma SplitLine(line: string, tail: string)
    requires '\n' !in line
    ensures Trimmed(Split(line + ['\n'] + tail, '\n')) == [TrimReturn(line)] + Trimmed(Split(tail, '\n'))
  {
    SplitConcat(line, '\n', tail);
    SplitSingle(line, '\n');
  }

  lemma GrowLine(c: char, rest: seq<string>)
    requires c != '\r' && rest != []
    ensures Trimmed([[c] + rest[0]] + rest[1..]) == [[c] + Trimmed(rest)[0]] + Trimmed(rest)[1..]
  {
    assert rest[0] != "" ==> ([c] + rest[0])[|rest[0]|] == rest[0][|rest[0]| - 1];
    assert TrimReturn([c] + rest[0]) == [c] + TrimReturn(rest[0]);
  }

  lemma SplitInLine(s: string)
    requires s != "" && s[0] != '\n' && s[0] != '\r'
    ensures var rest := Trimmed(Split(s[1..], '\n'));
            Trimmed(Split(s, '\n')) == [[s[0]] + rest[0]] + rest[1..]
  {
    GrowLine(s[0], Split(s[1..], '\n'));
  }

  /** A line feed in front, or a carriage return and a line feed, ends an empty line. */
  lemma SplitAtEnd(s: string, end: string)
    requires end == ['\n'] || end == ['\r', '\n']
    requires end <= s
    ensures Trimmed(Split(s, '\n')) == [""] + Trimmed(Split(s[|end|..], '\n'))
  {
    var line := end[..|end| - 1];
    assert s == line + ['\n'] + s[|end|..];
    assert TrimReturn(line) == "";
    SplitLine(line, s[|end|..]);
  }

  lemma PairedTail(s: string, n: nat)
    requires PairedReturns(s) && n <= |s|
    ensures PairedReturns(s[n..])
  {
    forall i | 0 <= i < |s[n..]| && s[n..][i] == '\r' ensures i + 1 < |s[n..]| && s[n..][i + 1] == '\n' {
      assert s[i + n] == '\r';
    }
  }

  lemma {:induction false} SplitNormal(s: string)
    requires PairedReturns(s)
    ensures Split(Normal(s), '\n') == Trimmed(Split(s, '\n'))
    decreases |s|
  {
    if s != "" {
      var end := if s[0] == '\r' then ['\r', '\n'] else [s[0]];
      PairedTail(s, |end|);
      SplitNormal(s[|end|..]);
      if s[0] == '\n' || s[0] == '\r' {
        SplitAtEnd(s, end);
      } else {
        SplitInLine(s);
      }
      assert Normal(s)[1..] == Normal(s[|end|..]);
    }
  }

  // ----- where the two part --------------------------------------------------

  /** The lines up to and with the last empty one. */
  function ClosedPart(lines: seq<string>): (n: nat)
    ensures n <= |lines|
    ensures forall k :: n <= k < |lines| ==> lines[k] != ""
  {
    if lines == [] then 0
    else if lines[|lines| - 1] == "" then |lines| else ClosedPart(lines[..|lines| - 1])
  }

  /** No event that is dispatched has a data field without a colon. */
  predicate NoBareData(body: string) {
    var lines := Lines(body);
    BARE !in lines[..ClosedPart(lines)]
  }

  /** Nothing after the last empty line is data, not even a last piece that no line end follows. */
  predicate EndsClosed(body: string) {
    var pieces := Split(Normal(Unmarked(body)), '\n');
    forall l :: l in pieces[ClosedPart(Lines(body))..] ==> !IsData(l)
  }

  function Bares(lines: seq<string>): nat {
    if lines == [] then 0 else Bares(lines[..|lines| - 1]) + if lines[|lines| - 1] == BARE then 1 else 0
  }

  function Size(texts: seq<string>): nat {
    if texts == [] then 0 else Size(texts[..|texts| - 1]) + |texts[|texts| - 1]| + 1
  }

  lemma SizeSnoc(texts: seq<string>, t: string)
    ensures Size(texts + [t]) == Size(texts) + |t| + 1
  {
    assert (texts + [t])[..|texts|] == texts;
  }

  lemma {:induction false} SizeOfJoin(texts: seq<string>)
    requires texts != []
    ensures |Join(texts, '\n')| + 1 == Size(texts)
  {
    if |texts| > 1 {
      var init, t := texts[..|texts| - 1], texts[|texts| - 1];
      assert texts == init + [t];
      SizeOfJoin(init);
      JoinConcat(init, [t], '\n');
    } else {
      assert texts[..0] == [];
    }
  }

  lemma SizeOfFlush(data: seq<string>, payloads: seq<string>)
    ensures Size(Flush(data, payloads)) == Size(data) + Size(payloads)
  {
    if data != [] {
      SizeOfJoin(data);
      SizeSnoc(payloads, Join(data, '\n'));
    }
  }

  function Total(r: Reader): nat {
    Size(r.data) + Size(r.payloads)
  }

  /** What one line adds to what a reader holds. */
  lemma TurnAdds(r: Reader, line: string, bare: bool)
    ensures Total(Turn(r, line, bare)) == Total(r)
              + (if IsData(line) then |DataOf(line)| + 1 else if bare && line == BARE then 1 else 0)
  {
    if line == "" {
      SizeOfFlush(r.data, r.payloads);
    } else if IsData(line) {
      SizeSnoc(r.data, DataOf(line));
    } else if bare && line == BARE {
      SizeSnoc(r.data, "");
    }
  }

  /** Each bare field makes the standard's data one character longer, or one payload more. */
  lemma {:induction false} BaresCount(lines: seq<string>)
    ensures Total(Read(lines, true)) == Total(Read(lines, false)) + Bares(lines)
    ensures Bares(lines) == 0 ==> Read(lines, true) == Read(lines, false)
    ensures Bares(lines) == 0 <==> BARE !in lines
  {
    if lines != [] {
      var init, line := lines[..|lines| - 1], lines[|lines| - 1];
      BaresCount(init);
      TurnAdds(Read(init, false), line, false);
      TurnAdds(Read(init, true), line, true);
      assert lines == init + [line];
      assert !IsData(BARE);
    }
  }

  /** After the last empty line nothing is dispatched, and the reader holds what data came. */
  lemma {:induction false} OpenPart(lines: seq<string>, bare: bool)
    ensures Read(lines, bare).payloads == Read(lines[..ClosedPart(lines)], bare).payloads
    ensures Read(lines[..ClosedPart(lines)], bare).data == []
    ensures Read(lines, false).data == [] <==> forall l :: l in lines[ClosedPart(lines)..] ==> !IsData(l)
  {
    if lines != [] && lines[|lines| - 1] != "" {
      var init, line, n := lines[..|lines| - 1], lines[|lines| - 1], ClosedPart(lines);
      OpenPart(init, bare);
      assert init[..n] == lines[..n];
      assert lines[n..] == init[n..] + [line];
    } else {
      assert lines[..|lines|] == lines;
    }
  }

  /** On the dispatched events alone the two agree exactly if no bare field is among them. */
  lemma DispatchedAlike(lines: seq<string>)
    ensures Read(lines, true).payloads == Read(lines, false).payloads <==> BARE !in lines[..ClosedPart(lines)]
  {
    OpenPart(lines, true);
    OpenPart(lines, false);
    BaresCount(lines[..ClosedPart(lines)]);
  }

  /** The source goes on after the standard's last line: one more piece, and what is open counts. */
  lemma LastPiece(pieces: seq<string>)
    requires pieces != []
    ensures var init := pieces[..|pieces| - 1];
            var r, kept := Read(pieces, false), Read(init, false).payloads;
            var open := forall l :: l in pieces[ClosedPart(init)..] ==> !IsData(l);
            && (open ==> Flush(r.data, r.payloads) == kept)
            && (!open ==> |Flush(r.data, r.payloads)| == |kept| + 1)
  {
    var init, last := pieces[..|pieces| - 1], pieces[|pieces| - 1];
    var n := ClosedPart(init);
    OpenPart(init, false);
    assert pieces[n..] == init[n..] + [last];
  }

  /** When the reader agrees with the standard on an arbitrary stream whose carriage returns all stand
      before line feeds: if the stream ends closed, exactly if no dispatched event has a data field
      without a colon; if none has, exactly if the stream ends closed. */
  lemma AgreesWithStandard(body: string)
    requires Plain(body)
    ensures EndsClosed(body) ==> (Payloads(body) == Standard(body) <==> NoBareData(body))
    ensures NoBareData(body) ==> (Payloads(body) == Standard(body) <==> EndsClosed(body))
  {
    var pieces := Split(Normal(body), '\n');
    SplitNormal(body);
    PayloadsAreRead(body);
    InterpretIsRead(Lines(body));
    DispatchedAlike(Lines(body));
    LastPiece(pieces);
  }

  // ----- a carriage return on its own ----------------------------------------

  lemma {:induction false} NormalWithoutReturns(s: string)
    requires '\r' !in s
    ensures Normal(s) == s
  {
    if s != "" {
      assert s[0] in s;
      NormalWithoutReturns(s[1..]);
    }
  }

  lemma {:induction false} NormalHasNoReturns(s: string)
    ensures '\r' !in Normal(s)
    decreases |s|
  {
    if s != "" {
      NormalHasNoReturns(s[1..]);
      if |s| > 1 {
        NormalHasNoReturns(s[2..]);
      }
    }
  }

  lemma NormalIsPlain(body: string)
    requires Unmarked(body) == body
    ensures Plain(Normal(body)) && Normal(Unmarked(Normal(body))) == Normal(Unmarked(body))
  {
    NormalHasNoReturns(body);
    NormalWithoutReturns(Normal(body));
    FirstStays(body);
  }

  lemma FirstStays(body: string)
    requires body == "" || body[0] != MARK
    ensures Normal(body) == "" || Normal(body)[0] != MARK
  {
  }

  lemma SameText(a: string, b: string)
    requires Normal(Unmarked(a)) == Normal(Unmarked(b))
    ensures Standard(a) == Standard(b) && NoBareData(a) == NoBareData(b) && EndsClosed(a) == EndsClosed(b)
  {
  }

  /** With both faults excluded, the reader agrees with the standard on any stream whatever exactly if
      it reads the stream as it would with every line end made a line feed. */
  lemma AgreesOnAnyStream(body: string)
    requires Unmarked(body) == body && NoBareData(body) && EndsClosed(body)
    ensures Payloads(body) == Standard(body) <==> Payloads(body) == Payloads(Normal(body))
  {
    NormalIsPlain(body);
    SameText(body, Normal(body));
    AgreesWithStandard(Normal(body));
  }

  lemma {:induction false} PiecesFrom(s: string, sep: char, c: char)
    requires c !in s
    ensures forall p :: p in Split(s, sep) ==> c !in p
  {
    if s != "" {
      assert s[0] in s;
      PiecesFrom(s[1..], sep, c);
      var rest := Split(s[1..], sep);
      assert rest[0] in rest && forall p :: p in rest[1..] ==> p in rest;
    }
  }

  ghost predicate NoReturns(texts: seq<string>) {
    forall t :: t in texts ==> '\r' !in t
  }

  lemma FlushHasNoReturns(data: seq<string>, payloads: seq<string>)
    requires NoReturns(data) && NoReturns(payloads)
    ensures NoReturns(Flush(data, payloads))
  {
    if data != [] {
      JoinedHoldsOnly(data, '\n', '\r');
    }
  }

  lemma {:induction false} InterpretHasNoReturns(lines: seq<string>)
    requires NoReturns(lines)
    ensures NoReturns(Interpret(lines).data) && NoReturns(Interpret(lines).payloads)
  {
    if lines != [] {
      var r, line := Interpret(lines[..|lines| - 1]), lines[|lines| - 1];
      InterpretHasNoReturns(lines[..|lines| - 1]);
      FlushHasNoReturns(r.data, r.payloads);
      assert line in lines;
      assert forall c :: c in Field(line).1 ==> c in line;
    }
  }

  /** So it never agrees when it keeps a carriage return in a payload: the standard's have none. */
  lemma ReturnKeptDisagrees(body: string, payload: string)
    requires payload in Payloads(body) && '\r' in payload
    ensures Payloads(body) != Standard(body)
  {
    var text := Normal(Unmarked(body));
    NormalHasNoReturns(Unmarked(body));
    PiecesFrom(text, '\n', '\r');
    InterpretHasNoReturns(Lines(body));
  }

  // ----- both faults at once -------------------------------------------------

  const PIECES: seq<string> := [BARE, "", "data:"]

  lemma PiecesSplit()
    ensures var body := Join(PIECES, '\n');
            Plain(body) && Normal(body) == body && Split(body, '\n') == PIECES == Trimmed(PIECES)
  {
    var body := Join(PIECES, '\n');
    SplitJoin(PIECES, '\n');
    JoinedHoldsOnly(PIECES, '\n', '\r');
    NormalWithoutReturns(body);
    assert body[0] == PIECES[0][0] == 'd';
  }

  lemma PiecesRead()
    ensures Read(PIECES[..2], true) == Reader([], [""])
    ensures Read(PIECES, false) == Reader([""], [])
    ensures ClosedPart(PIECES[..2]) == 2
  {
    var a, b, c := PIECES[..1], PIECES[..2], PIECES;
    assert a[..0] == [] && b[..1] == a && c[..2] == b;
    assert Read([], true) == Read([], false) == Reader([], []);
    assert Read(a, true) == Reader([""], []) && Read(a, false) == Reader([], []);
    assert Join([""], '\n') == "";
    assert Read(b, false) == Reader([], []);
    assert DataOf("data:") == "";
  }

  /** With both faults the two may agree by accident: one bare field dispatched, and an empty event
      left open. */
  lemma FaultsMayCancel()
    ensures var body := Join(PIECES, '\n');
            && Plain(body) && !NoBareData(body) && !EndsClosed(body)
            && Payloads(body) == Standard(body) == [""]
  {
    var body := Join(PIECES, '\n');
    PiecesSplit();
    PiecesRead();
    PayloadsAreRead(body);
    InterpretIsRead(Lines(body));
    assert Flush([""], []) == [""];
    assert Lines(body)[..2][0] == BARE && PIECES[2..][0] == "data:";
  }
}
