/** The event-stream reader that finds the response to charge for: `sseDataPayloads` and
    `responseMessage` (internal/mcpgate/metering.go). */
module Sse {
  import opened Wrappers
  import opened Strings

  predicate EndsInReturn(s: string) {
    s != "" && s[|s| - 1] == '\r'
  }

  /** strings.TrimSuffix(line, "\r") */
  function TrimReturn(s: string): string {
    if EndsInReturn(s) then s[..|s| - 1] else s
  }

  predicate IsData(line: string) {
    "data:" <= line
  }

  /** What follows `data:`, less one leading space. */
  function DataOf(line: string): string
    requires IsData(line)
  {
    var rest := line[5..];
    if rest != "" && rest[0] == ' ' then rest[1..] else rest
  }

  function Flush(data: seq<string>, payloads: seq<string>): seq<string> {
    if data == [] then payloads else payloads + [Join(data, '\n')]
  }

  /** The payloads of the remaining lines, with `data` collected for the open event. */
  function Feed(lines: seq<string>, data: seq<string>, payloads: seq<string>): seq<string>
    decreases |lines|
  {
    if lines == [] then Flush(data, payloads)
    else
      var line := TrimReturn(lines[0]);
      if line == "" then Feed(lines[1..], [], Flush(data, payloads))
      else if IsData(line) then Feed(lines[1..], data + [DataOf(line)], payloads)
      else Feed(lines[1..], data, payloads)
  }

  function Payloads(body: string): seq<string> {
    Feed(Split(body, '\n'), [], [])
  }

  method SseDataPayloads(body: string) returns (payloads: seq<string>)
    ensures payloads == Payloads(body)
  {
    var data: seq<string> := [];
    payloads := [];
    var lines := Split(body, '\n');
    for i := 0 to |lines|
      invariant Payloads(body) == Feed(lines[i..], data, payloads)
    {
      assert lines[i..][0] == lines[i] && lines[i..][1..] == lines[i + 1..];
      var line := if EndsInReturn(lines[i]) then lines[i][..|lines[i]| - 1] else lines[i];
      if line == "" {
        if |data| > 0 {
          payloads, data := payloads + [Join(data, '\n')], [];
        }
      } else if "data:" <= line {
        var rest := line[5..];
        data := data + [if rest != "" && rest[0] == ' ' then rest[1..] else rest];
      }
    }
    if |data| > 0 {
      payloads := payloads + [Join(data, '\n')];
    }
  }

  // ----- a printer, and what reading it back gives ---------------------------

  /** Lines end in a line feed, in a carriage return and a line feed, or in a carriage return. */
  datatype LineEnd = LF | CRLF | CR

  function Terminator(end: LineEnd): char {
    if end.CR? then '\r' else '\n'
  }

  function Ended(line: string, end: LineEnd): string {
    if end.CRLF? then line + "\r" else line
  }

  function DataLines(lines: seq<string>, end: LineEnd): (out: seq<string>)
    ensures |out| == |lines|
  {
    if lines == [] then [] else [Ended("data: " + lines[0], end)] + DataLines(lines[1..], end)
  }

  /** The lines of the stream: an event's data lines and the empty line that ends it. */
  function StreamLines(payloads: seq<string>, end: LineEnd): seq<string> {
    if payloads == [] then []
    else DataLines(Split(payloads[0], '\n'), end) + [Ended("", end)] + StreamLines(payloads[1..], end)
  }

  function Print(payloads: seq<string>, end: LineEnd): string {
    Join(StreamLines(payloads, end) + [""], Terminator(end))
  }

  /** A payload as the reader returns it. */
  function Survives(line: string, end: LineEnd): string {
    if !end.LF? then line else TrimReturn(line)
  }

  function SurvivingLines(lines: seq<string>, end: LineEnd): (out: seq<string>)
    ensures |out| == |lines|
  {
    if lines == [] then [] else [Survives(lines[0], end)] + SurvivingLines(lines[1..], end)
  }

  function Survivor(payload: string, end: LineEnd): string {
    Join(SurvivingLines(Split(payload, '\n'), end), '\n')
  }

  function Survivors(payloads: seq<string>, end: LineEnd): (out: seq<string>)
    ensures |out| == |payloads|
    ensures forall k :: 0 <= k < |out| ==> out[k] == Survivor(payloads[k], end)
  {
    if payloads == [] then [] else [Survivor(payloads[0], end)] + Survivors(payloads[1..], end)
  }

  lemma DataLineReads(line: string, end: LineEnd)
    requires !end.CR?
    ensures var got := TrimReturn(Ended("data: " + line, end));
            got != "" && IsData(got) && DataOf(got) == Survives(line, end)
  {
    var printed := "data: " + line;
    var got := TrimReturn(Ended(printed, end));
    if end.CRLF? {
      assert got == printed;
      assert printed[5..] == [' '] + line;
    } else if EndsInReturn(line) {
      assert got == "data: " + line[..|line| - 1];
      assert got[5..] == [' '] + line[..|line| - 1];
    } else {
      assert line != "" ==> printed[|printed| - 1] == line[|line| - 1];
      assert got == printed;
      assert printed[5..] == [' '] + line;
    }
  }

  lemma FeedDataLine(line: string, end: LineEnd, rest: seq<string>, data: seq<string>, payloads: seq<string>)
    requires !end.CR?
    ensures Feed([Ended("data: " + line, end)] + rest, data, payloads)
         == Feed(rest, data + [Survives(line, end)], payloads)
  {
    DataLineReads(line, end);
    var all := [Ended("data: " + line, end)] + rest;
    assert all[0] == Ended("data: " + line, end) && all[1..] == rest;
  }

  lemma {:induction false} FeedDataLines(
      lines: seq<string>, end: LineEnd, rest: seq<string>, data: seq<string>, payloads: seq<string>)
    requires !end.CR?
    ensures Feed(DataLines(lines, end) + rest, data, payloads)
         == Feed(rest, data + SurvivingLines(lines, end), payloads)
    decreases |lines|
  {
    if lines == [] {
      assert DataLines(lines, end) + rest == rest;
      assert data + SurvivingLines(lines, end) == data;
    } else {
      var first, tail := [Ended("data: " + lines[0], end)], DataLines(lines[1..], end);
      Regroup(first, tail, rest, []);
      FeedDataLine(lines[0], end, tail + rest, data, payloads);
      FeedDataLines(lines[1..], end, rest, data + [Survives(lines[0], end)], payloads);
      Regroup(data, [Survives(lines[0], end)], SurvivingLines(lines[1..], end), []);
    }
  }

  lemma FeedEventEnd(end: LineEnd, tail: seq<string>, data: seq<string>, payloads: seq<string>)
    requires data != []
    ensures Feed([Ended("", end)] + tail, data, payloads) == Feed(tail, [], payloads + [Join(data, '\n')])
  {
    var lines := [Ended("", end)] + tail;
    assert TrimReturn(Ended("", end)) == "";
    assert lines[0] == Ended("", end) && lines[1..] == tail;
  }

  lemma Regroup(a: seq<string>, b: seq<string>, c: seq<string>, d: seq<string>)
    ensures a + b + c + d == a + (b + (c + d))
    ensures a + b + c == a + (b + c)
  {
  }

  lemma FeedEvent(p: string, end: LineEnd, tail: seq<string>, payloads: seq<string>)
    requires !end.CR?
    ensures Feed(DataLines(Split(p, '\n'), end) + ([Ended("", end)] + tail), [], payloads)
         == Feed(tail, [], payloads + [Survivor(p, end)])
  {
    var lines := Split(p, '\n');
    FeedDataLines(lines, end, [Ended("", end)] + tail, [], payloads);
    assert [] + SurvivingLines(lines, end) == SurvivingLines(lines, end);
    FeedEventEnd(end, tail, SurvivingLines(lines, end), payloads);
  }

  lemma {:induction false} FeedStream(ps: seq<string>, end: LineEnd, payloads: seq<string>)
    requires !end.CR?
    ensures Feed(StreamLines(ps, end) + [""], [], payloads) == payloads + Survivors(ps, end)
    decreases |ps|
  {
    if ps == [] {
      var lines := [""];
      assert StreamLines(ps, end) + [""] == lines;
      assert Feed(lines[1..], [], payloads) == payloads;
      assert payloads + Survivors(ps, end) == payloads;
    } else {
      var tail := StreamLines(ps[1..], end) + [""];
      Regroup(DataLines(Split(ps[0], '\n'), end), [Ended("", end)], StreamLines(ps[1..], end), [""]);
      FeedEvent(ps[0], end, tail, payloads);
      FeedStream(ps[1..], end, payloads + [Survivor(ps[0], end)]);
      Regroup(payloads, [Survivor(ps[0], end)], Survivors(ps[1..], end), []);
    }
  }

  lemma {:induction false} DataLinesAreLines(lines: seq<string>, end: LineEnd)
    requires forall l :: l in lines ==> '\n' !in l
    ensures forall l :: l in DataLines(lines, end) ==> '\n' !in l
  {
    if lines != [] {
      assert lines[0] in lines;
      assert forall l :: l in lines[1..] ==> l in lines;
      DataLinesAreLines(lines[1..], end);
    }
  }

  lemma {:induction false} StreamLinesAreLines(ps: seq<string>, end: LineEnd)
    ensures forall l :: l in StreamLines(ps, end) ==> '\n' !in l
  {
    if ps != [] {
      DataLinesAreLines(Split(ps[0], '\n'), end);
      StreamLinesAreLines(ps[1..], end);
    }
  }

  /** What reading back a printed stream gives, for all payloads and lines that end in a line feed. */
  lemma PrintedStream(ps: seq<string>, end: LineEnd)
    requires !end.CR?
    ensures Payloads(Print(ps, end)) == Survivors(ps, end)
  {
    StreamLinesAreLines(ps, end);
    var lines := StreamLines(ps, end) + [""];
    assert forall l :: l in lines ==> '\n' !in l;
    SplitJoin(lines, '\n');
    FeedStream(ps, end, []);
    assert [] + Survivors(ps, end) == Survivors(ps, end);
  }

  // ----- when the reader inverts the printer ---------------------------------

  predicate SomeLineEndsInReturn(payload: string) {
    exists l :: l in Split(payload, '\n') && EndsInReturn(l)
  }

  lemma {:induction false} SurvivingLinesAt(lines: seq<string>, end: LineEnd)
    ensures forall k :: 0 <= k < |lines| ==> SurvivingLines(lines, end)[k] == Survives(lines[k], end)
    ensures (forall l :: l in lines ==> '\n' !in l) ==> forall l :: l in SurvivingLines(lines, end) ==> '\n' !in l
  {
    if lines != [] {
      SurvivingLinesAt(lines[1..], end);
      assert forall l :: l in lines[1..] ==> l in lines;
      assert lines[0] in lines;
      assert forall c :: c in Survives(lines[0], end) ==> c in lines[0];
    }
  }

  lemma SurvivesWhole(payload: string, end: LineEnd)
    requires !end.CR?
    ensures Survivor(payload, end) == payload <==> end.CRLF? || !SomeLineEndsInReturn(payload)
  {
    var lines := Split(payload, '\n');
    var kept := SurvivingLines(lines, end);
    SurvivingLinesAt(lines, end);
    if Survivor(payload, end) == payload {
      SplitJoin(kept, '\n');
      assert kept == lines;
      forall l | l in lines && EndsInReturn(l) ensures end.CRLF? {
        var k :| 0 <= k < |lines| && lines[k] == l;
        assert kept[k] == Survives(lines[k], end);
        assert |TrimReturn(l)| < |l|;
      }
    }
    if end.CRLF? || !SomeLineEndsInReturn(payload) {
      forall k | 0 <= k < |lines| ensures kept[k] == lines[k] {
        assert lines[k] in lines;
      }
      assert kept == lines;
    }
  }

  lemma ReadsBackUnless(ps: seq<string>, end: LineEnd)
    requires !end.CR?
    ensures Payloads(Print(ps, end)) == ps
       <==> end.CRLF? || forall p :: p in ps ==> !SomeLineEndsInReturn(p)
  {
    PrintedStream(ps, end);
    forall k | 0 <= k < |ps|
      ensures Survivors(ps, end)[k] == ps[k] <==> end.CRLF? || !SomeLineEndsInReturn(ps[k])
    {
      SurvivesWhole(ps[k], end);
    }
    if Survivors(ps, end) == ps && end.LF? {
      forall p | p in ps ensures !SomeLineEndsInReturn(p) {
        var k :| 0 <= k < |ps| && ps[k] == p;
        assert Survivors(ps, end)[k] == ps[k];
      }
    }
    if end.CRLF? || forall p :: p in ps ==> !SomeLineEndsInReturn(p) {
      forall k | 0 <= k < |ps| ensures Survivors(ps, end)[k] == ps[k] {
        assert ps[k] in ps;
      }
    }
  }

  // ----- lines that end in a carriage return alone ---------------------------

  lemma {:induction false} JoinedHoldsOnly(pieces: seq<string>, sep: char, c: char)
    requires |pieces| > 0 && c != sep && forall p :: p in pieces ==> c !in p
    ensures c !in Join(pieces, sep)
  {
    assert pieces[0] in pieces;
    if |pieces| > 1 {
      assert forall p :: p in pieces[1..] ==> p in pieces;
      JoinedHoldsOnly(pieces[1..], sep, c);
    }
  }

  lemma {:induction false} JoinedLength(pieces: seq<string>, sep: char)
    requires |pieces| > 0
    ensures |Join(pieces, sep)| >= |pieces[0]| + |pieces| - 1
  {
    if |pieces| > 1 {
      JoinedLength(pieces[1..], sep);
    }
  }

  /** A printed payload is longer by six characters a line. */
  lemma {:induction false} DataLinesLength(lines: seq<string>)
    requires |lines| > 0
    ensures |Join(DataLines(lines, CR), '\r')| == |Join(lines, '\n')| + 6 * |lines|
  {
    if |lines| > 1 {
      DataLinesLength(lines[1..]);
      assert DataLines(lines, CR)[1..] == DataLines(lines[1..], CR);
    }
  }

  /** The reader takes a stream of such lines for a single line, and so for at most one payload,
      longer than the first that was printed. */
  lemma PrintedWithReturns(ps: seq<string>)
    requires ps != []
    ensures var got := Payloads(Print(ps, CR));
            |got| == 1 && |got[0]| > |ps[0]|
  {
    var body := Print(ps, CR);
    var lines := StreamLines(ps, CR) + [""];
    StreamLinesAreLines(ps, CR);
    assert forall l :: l in lines ==> '\n' !in l;
    JoinedHoldsOnly(lines, '\r', '\n');
    SplitSingle(body, '\n');
    var data, rest := DataLines(Split(ps[0], '\n'), CR), StreamLines(ps[1..], CR) + [""];
    Regroup(data, [""], StreamLines(ps[1..], CR), [""]);
    assert lines == data + ([""] + rest);
    JoinConcat(data, [""] + rest, '\r');
    DataLinesLength(Split(ps[0], '\n'));
    JoinedLength([""] + rest, '\r');
    StartsWithData(ps[0], Join([""] + rest, '\r'), body);
    OneLineFed(body);
  }

  lemma StartsWithData(p: string, tail: string, body: string)
    requires body == Join(DataLines(Split(p, '\n'), CR), '\r') + "\r" + tail
    ensures "data: " <= body
  {
    var lines := Split(p, '\n');
    assert DataLines(lines, CR)[0] == "data: " + lines[0];
    assert "data: " <= DataLines(lines, CR)[0] <= Join(DataLines(lines, CR), '\r');
  }

  lemma OneLineFed(body: string)
    requires "data: " <= body && Split(body, '\n') == [body] && |body| > 6
    ensures Payloads(body) == [TrimReturn(body)[6..]]
  {
    var line := TrimReturn(body);
    assert IsData(line) && line[5] == ' ';
    assert DataOf(line) == line[6..];
    assert [body][1..] == [];
    assert Feed([], [] + [DataOf(line)], []) == [Join([DataOf(line)], '\n')];
  }

  /** When reading inverts printing, exactly: always if lines end in both characters; if no payload
      line ends in a carriage return, where lines end in a line feed; and for no payloads at all but
      the empty stream, where they end in a carriage return. */
  lemma ReadsBackExactly(ps: seq<string>, end: LineEnd)
    ensures Payloads(Print(ps, end)) == ps <==>
              match end
              case CRLF => true
              case LF => forall p :: p in ps ==> !SomeLineEndsInReturn(p)
              case CR => ps == []
  {
    if !end.CR? {
      ReadsBackUnless(ps, end);
    } else if ps == [] {
      assert Print(ps, end) == "";
      assert Payloads("") == [];
    } else {
      PrintedWithReturns(ps);
    }
  }

  // ----- the message to charge for -------------------------------------------

  /** A payload as a JSON-RPC message: its id, and whether it carries a result or an error. */
  datatype Message<Id> = Message(id: Id, answers: bool)

  predicate Answers<Id>(read: string -> Option<Message<Id>>, data: string) {
    read(data).Some? && read(data).value.answers
  }

  predicate Matches<Id>(read: string -> Option<Message<Id>>, same: (Id, Id) -> bool, want: Id, data: string) {
    Answers(read, data) && same(read(data).value.id, want)
  }

  function Responses<Id>(read: string -> Option<Message<Id>>, payloads: seq<string>): seq<string> {
    if payloads == [] then []
    else
      var n := |payloads| - 1;
      Responses(read, payloads[..n]) + if Answers(read, payloads[n]) then [payloads[n]] else []
  }

  /** A response to the request with this id. */
  predicate Wanted<Id>(message: Option<Message<Id>>, same: (Id, Id) -> bool, want: Id) {
    message.Some? && message.value.answers && same(message.value.id, want)
  }

  lemma {:induction false} ResponsesAre<Id>(read: string -> Option<Message<Id>>, payloads: seq<string>)
    ensures Responses(read, payloads) == [] <==> forall p :: p in payloads ==> !Answers(read, p)
    ensures forall k :: 0 <= k < |payloads| && Answers(read, payloads[k])
                        && (forall j :: 0 <= j < |payloads| && j != k ==> !Answers(read, payloads[j]))
              ==> Responses(read, payloads) == [payloads[k]]
    ensures forall j, k :: 0 <= j < k < |payloads| && Answers(read, payloads[j]) && Answers(read, payloads[k])
              ==> |Responses(read, payloads)| >= 2
  {
    if payloads != [] {
      var n := |payloads| - 1;
      ResponsesAre(read, payloads[..n]);
      assert payloads == payloads[..n] + [payloads[n]];
      forall j | 0 <= j < n ensures payloads[..n][j] == payloads[j] && payloads[j] in payloads[..n] {}
    }
  }

  datatype NoMessage = EmptyBody | NoResponse | CannotAttribute

  /** What is charged for: the first response whose id matches, whatever else the stream carries;
      else the only response there is; else nothing, and the run fails closed. */
  ghost predicate Picked<Id>(read: string -> Option<Message<Id>>, same: (Id, Id) -> bool, want: Id,
                             payloads: seq<string>, r: Result<string, NoMessage>) {
    && (r.Ok? ==> r.value in payloads && Answers(read, r.value))
    && (forall k :: 0 <= k < |payloads| && Matches(read, same, want, payloads[k])
                    && (forall j :: 0 <= j < k ==> !Matches(read, same, want, payloads[j]))
          ==> r == Ok(payloads[k]))
    && ((forall p :: p in payloads ==> !Matches(read, same, want, p)) ==>
          r == var all := Responses(read, payloads);
               if |all| == 1 then Ok(all[0]) else if |all| == 0 then Err(NoResponse) else Err(CannotAttribute))
  }

  /** By place: the first response to the request is picked. */
  lemma FirstWantedIsPicked<Id>(read: string -> Option<Message<Id>>, same: (Id, Id) -> bool, want: Id,
                                payloads: seq<string>, r: Result<string, NoMessage>, k: nat)
    requires Picked(read, same, want, payloads, r) && k < |payloads| && Wanted(read(payloads[k]), same, want)
    requires forall j :: 0 <= j < k ==> !Wanted(read(payloads[j]), same, want)
    ensures r == Ok(payloads[k])
  {
    forall j | 0 <= j < |payloads|
      ensures Matches(read, same, want, payloads[j]) <==> Wanted(read(payloads[j]), same, want) {}
  }

  /** A message that answers some request. */
  predicate IsAnswer<Id>(message: Option<Message<Id>>) {
    message.Some? && message.value.answers
  }

  /** When none answers the request: the only response there is, or an error that says which. */
  lemma OtherwisePicked<Id>(read: string -> Option<Message<Id>>, same: (Id, Id) -> bool, want: Id,
                            payloads: seq<string>, r: Result<string, NoMessage>)
    requires Picked(read, same, want, payloads, r)
    requires forall p :: p in payloads ==> !Wanted(read(p), same, want)
    ensures r == Err(NoResponse) <==> forall p :: p in payloads ==> !IsAnswer(read(p))
    ensures r == Err(CannotAttribute) <==>
              exists j, k :: 0 <= j < k < |payloads| && IsAnswer(read(payloads[j])) && IsAnswer(read(payloads[k]))
    ensures r.Ok? ==> r.value in payloads && IsAnswer(read(r.value))
    ensures r.Ok? || r.error in {NoResponse, CannotAttribute}
  {
    forall p | p in payloads ensures !Matches(read, same, want, p) {}
    forall p: string ensures Answers(read, p) <==> IsAnswer(read(p)) {}
    ResponsesAre(read, payloads);
    if forall j, k :: 0 <= j < k < |payloads| && IsAnswer(read(payloads[j])) ==> !IsAnswer(read(payloads[k])) {
      OneResponse(read, payloads);
    }
  }

  lemma OneResponse<Id>(read: string -> Option<Message<Id>>, payloads: seq<string>)
    requires forall j, k :: 0 <= j < k < |payloads| && IsAnswer(read(payloads[j])) ==> !IsAnswer(read(payloads[k]))
    ensures |Responses(read, payloads)| <= 1
  {
    ResponsesAre(read, payloads);
    if k :| 0 <= k < |payloads| && Answers(read, payloads[k]) {
      assert forall j :: 0 <= j < |payloads| && j != k ==> !Answers(read, payloads[j]);
    }
  }

  method PickResponse<Id>(read: string -> Option<Message<Id>>, same: (Id, Id) -> bool, want: Id, payloads: seq<string>)
    returns (r: Result<string, NoMessage>)
    ensures Picked(read, same, want, payloads, r)
  {
    var candidates: seq<string> := [];
    for i := 0 to |payloads|
      invariant forall j :: 0 <= j < i ==> !Matches(read, same, want, payloads[j])
      invariant candidates == Responses(read, payloads[..i])
      invariant forall c :: c in candidates ==> c in payloads && Answers(read, c)
    {
      assert payloads[..i + 1][..i] == payloads[..i];
      var data := payloads[i];
      if Answers(read, data) {
        if same(read(data).value.id, want) {
          return Ok(data);
        }
        candidates := candidates + [data];
      }
    }
    assert payloads[..|payloads|] == payloads;
    r := if |candidates| == 1 then Ok(candidates[0])
         else if |candidates| == 0 then Err(NoResponse) else Err(CannotAttribute);
  }

  predicate Blank(space: char -> bool, body: string) {
    forall c :: c in body ==> space(c)
  }

  /** The media type of the header: what mime.ParseMediaType makes of it, or the header itself. */
  function MediaType(parse: string -> Option<string>, contentType: string): string {
    if parse(contentType).Some? then parse(contentType).value else contentType
  }

  /** `fold` stands for strings.EqualFold. */
  method ResponseMessage<Id>(read: string -> Option<Message<Id>>, same: (Id, Id) -> bool, space: char -> bool,
                             parse: string -> Option<string>, fold: (string, string) -> bool,
                             want: Id, body: string, contentType: string)
    returns (r: Result<string, NoMessage>)
    ensures !fold(MediaType(parse, contentType), "text/event-stream") ==>
              r == if Blank(space, body) then Err(EmptyBody) else Ok(body)
    ensures fold(MediaType(parse, contentType), "text/event-stream") ==>
              Picked(read, same, want, Payloads(body), r)
    ensures var streamed := match parse(contentType)
                            case Some(mediaType) => fold(mediaType, "text/event-stream")
                            case None => fold(contentType, "text/event-stream");
            && (streamed ==> Picked(read, same, want, Payloads(body), r))
            && (!streamed && (forall c :: c in body ==> space(c)) ==> r == Err(EmptyBody))
            && (!streamed && (exists c :: c in body && !space(c)) ==> r == Ok(body))
  {
    var mediaType, parsed := contentType, parse(contentType);
    if parsed.Some? {
      mediaType := parsed.value;
    }
    if !fold(mediaType, "text/event-stream") {
      return if Blank(space, body) then Err(EmptyBody) else Ok(body);
    }
    var payloads := SseDataPayloads(body);
    r := PickResponse(read, same, want, payloads);
  }
}
