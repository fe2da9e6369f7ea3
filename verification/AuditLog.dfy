/** The signed, hash-chained audit log: the logger that writes and resumes a chain
    (internal/audit/logger.go) and the verifier that walks it (internal/audit/verify.go).
    A file is its sequence of lines. */
module AuditLog {
  import opened Wrappers
  import opened SignedJson

  /** An entry without its signature. `content` stands for every member but the two that
      make the chain. */
  datatype Entry = Entry(content: string, did: string, prevHash: string)

  const GENESIS: string :=
    "0000000000000000" + "0000000000000000" + "0000000000000000" + "0000000000000000"

  /** SHA-256 taken as an injective function that never yields the genesis value. */
  ghost predicate GoodHash(w: World<Entry>) {
    && (forall a, b :: w.hash(a) == w.hash(b) ==> a == b)
    && (forall a :: w.hash(a) != GENESIS && w.hash(a) != "")
  }

  ghost predicate Trusted(w: World<Entry>, signer: Signer) {
    Faithful(w) && GoodHash(w) && Honest(w, signer)
  }

  /** What the entry on line `i` must name as its predecessor. */
  function Prev(w: World<Entry>, lines: seq<string>, i: nat): string
    requires i <= |lines|
  {
    if i == 0 then GENESIS else w.hash(lines[i - 1])
  }

  // ----- writing -------------------------------------------------------------

  function SignedLine(w: World<Entry>, signer: Signer, content: string, prev: string): Option<string> {
    SignedText(w, signer, Entry(content, signer.did, prev))
  }

  predicate IsNext(w: World<Entry>, signer: Signer, content: string, lines: seq<string>, i: nat)
    requires i < |lines|
  {
    SignedLine(w, signer, content, Prev(w, lines, i)) == Some(lines[i])
  }

  /** The lines are the chain `signer` writes for these contents, from the genesis value on. */
  ghost predicate Chain(w: World<Entry>, signer: Signer, contents: seq<string>, lines: seq<string>) {
    && |lines| == |contents|
    && forall i :: 0 <= i < |lines| ==> IsNext(w, signer, contents[i], lines, i)
  }

  /** One call of Write: what it is given, and whether the file accepts the bytes. */
  datatype Attempt = Attempt(content: string, fileOk: bool)

  predicate Lands(w: World<Entry>, signer: Signer, last: string, a: Attempt) {
    SignedLine(w, signer, a.content, last).Some? && a.fileOk
  }

  /** The file and the logger's hash after one attempt: both move, or neither. */
  function WriteStep(w: World<Entry>, signer: Signer, lines: seq<string>, last: string, a: Attempt)
    : (seq<string>, string)
  {
    if Lands(w, signer, last, a)
    then
      var line := SignedLine(w, signer, a.content, last).value;
      (lines + [line], w.hash(line))
    else (lines, last)
  }

  class LogFile {
    var lines: seq<string>

    constructor ()
      ensures lines == []
    {
      lines := [];
    }
  }

  method LastLineHash(w: World<Entry>, lines: seq<string>) returns (h: string)
    ensures h == Prev(w, lines, |lines|)
  {
    var last: Option<string> := None;
    for i := 0 to |lines|
      invariant last == if i == 0 then None else Some(lines[i - 1])
    {
      last := Some(lines[i]);
    }
    h := if last.None? then GENESIS else w.hash(last.value);
  }

  datatype WriteError = CannotMarshal | CannotAppend

  /** The error of one attempt. */
  function WriteFailure(w: World<Entry>, signer: Signer, last: string, a: Attempt): Option<WriteError> {
    if SignedLine(w, signer, a.content, last).None? then Some(CannotMarshal)
    else if !a.fileOk then Some(CannotAppend)
    else None
  }

  class Logger {
    const w: World<Entry>
    const signer: Signer
    const file: LogFile
    var lastHash: string
    var writeErr: Option<WriteError>

    constructor NewSigned(w: World<Entry>, signer: Signer, file: LogFile)
      ensures this.w == w && this.signer == signer && this.file == file
      ensures lastHash == Prev(w, file.lines, |file.lines|) && writeErr.None?
    {
      var h := LastLineHash(w, file.lines);
      this.w, this.signer, this.file := w, signer, file;
      lastHash, writeErr := h, None;
    }

    method WriteLocked(a: Attempt) returns (err: Option<WriteError>)
      modifies this`lastHash, file
      ensures (file.lines, lastHash) == WriteStep(w, signer, old(file.lines), old(lastHash), a)
      ensures err == WriteFailure(w, signer, old(lastHash), a)
      ensures var u := w.marshal(Entry(a.content, signer.did, old(lastHash)));
              var encoded := u.Some? && u.value != "";
              if encoded && a.fileOk then
                var line := u.value[..|u.value| - 1] + ",\"sig\":\"" + w.encode64(signer.sign(u.value)) + "\"}";
                err.None? && file.lines == old(file.lines) + [line] && lastHash == w.hash(line)
              else
                && file.lines == old(file.lines) && lastHash == old(lastHash)
                && err == Some(if encoded then CannotAppend else CannotMarshal)
    {
      var entry := Entry(a.content, signer.did, lastHash);
      var data := SignedText(w, signer, entry);
      if data.None? {
        return Some(CannotMarshal);
      }
      if !a.fileOk {
        return Some(CannotAppend);
      }
      AttachIs(w.marshal(entry).value, w.encode64(signer.sign(w.marshal(entry).value)));
      file.lines := file.lines + [data.value];
      lastHash := w.hash(data.value);
      err := None;
    }

    /** The first failure is kept: the log is known to be incomplete from then on. */
    method Write(a: Attempt) returns (err: Option<WriteError>)
      modifies this`lastHash, this`writeErr, file
      ensures (file.lines, lastHash) == WriteStep(w, signer, old(file.lines), old(lastHash), a)
      ensures err == WriteFailure(w, signer, old(lastHash), a)
      ensures writeErr == if old(writeErr).Some? then old(writeErr) else err
    {
      err := WriteLocked(a);
      if err.Some? && writeErr.None? {
        writeErr := err;
      }
    }
  }

  /** A run of writes by one logger. */
  function Session(w: World<Entry>, signer: Signer, lines: seq<string>, last: string, writes: seq<Attempt>): seq<string>
    decreases |writes|
  {
    if writes == [] then lines
    else
      var (lines', last') := WriteStep(w, signer, lines, last, writes[0]);
      Session(w, signer, lines', last', writes[1..])
  }

  /** Sessions one after the other on the same file, each resuming from its last line. */
  function Sessions(w: World<Entry>, signer: Signer, lines: seq<string>, sessions: seq<seq<Attempt>>): seq<string>
    decreases |sessions|
  {
    if sessions == [] then lines
    else Sessions(w, signer, Session(w, signer, lines, Prev(w, lines, |lines|), sessions[0]), sessions[1..])
  }

  /** The contents of the attempts that landed. */
  function Landed(w: World<Entry>, signer: Signer, last: string, writes: seq<Attempt>): seq<string>
    decreases |writes|
  {
    if writes == [] then []
    else if Lands(w, signer, last, writes[0])
    then [writes[0].content]
       + Landed(w, signer, w.hash(SignedLine(w, signer, writes[0].content, last).value), writes[1..])
    else Landed(w, signer, last, writes[1..])
  }

  lemma WriteExtendsChain(
      w: World<Entry>, signer: Signer, contents: seq<string>, lines: seq<string>, content: string, line: string)
    requires Chain(w, signer, contents, lines)
    requires SignedLine(w, signer, content, Prev(w, lines, |lines|)) == Some(line)
    ensures Chain(w, signer, contents + [content], lines + [line])
  {
    var lines' := lines + [line];
    forall i | 0 <= i < |lines'|
      ensures IsNext(w, signer, (contents + [content])[i], lines', i)
    {
      assert Prev(w, lines', i) == Prev(w, lines, i);
      if i < |lines| {
        assert IsNext(w, signer, contents[i], lines, i);
      }
    }
  }

  lemma {:induction false} SessionExtendsChain(
      w: World<Entry>, signer: Signer, contents: seq<string>, lines: seq<string>, writes: seq<Attempt>)
    requires Chain(w, signer, contents, lines)
    ensures var last := Prev(w, lines, |lines|);
            Chain(w, signer, contents + Landed(w, signer, last, writes), Session(w, signer, lines, last, writes))
    decreases |writes|
  {
    var last := Prev(w, lines, |lines|);
    if writes == [] {
      assert contents + [] == contents;
    } else if Lands(w, signer, last, writes[0]) {
      var content := writes[0].content;
      var line := SignedLine(w, signer, content, last).value;
      WriteExtendsChain(w, signer, contents, lines, content, line);
      SessionExtendsChain(w, signer, contents + [content], lines + [line], writes[1..]);
      var later := Landed(w, signer, w.hash(line), writes[1..]);
      assert contents + ([content] + later) == (contents + [content]) + later;
    } else {
      SessionExtendsChain(w, signer, contents, lines, writes[1..]);
    }
  }

  /** When every entry can be encoded and the file takes every write, every attempt lands, in order. */
  lemma {:induction false} AllAttemptsLand(w: World<Entry>, signer: Signer, last: string, writes: seq<Attempt>)
    requires forall e: Entry :: w.marshal(e).Some? && w.marshal(e).value != ""
    requires forall a :: a in writes ==> a.fileOk
    ensures |Landed(w, signer, last, writes)| == |writes|
    ensures forall i :: 0 <= i < |writes| ==> Landed(w, signer, last, writes)[i] == writes[i].content
    decreases |writes|
  {
    if writes != [] {
      assert writes[0] in writes && forall a :: a in writes[1..] ==> a in writes;
      var line := SignedLine(w, signer, writes[0].content, last).value;
      AllAttemptsLand(w, signer, w.hash(line), writes[1..]);
    }
  }

  /** An attempt that the file refuses leaves no trace, wherever it stands among the others. */
  lemma {:induction false} RefusedAttemptVanishes(w: World<Entry>, signer: Signer, lines: seq<string>, last: string,
                                                  p: seq<Attempt>, a: Attempt, q: seq<Attempt>)
    requires !a.fileOk
    ensures Session(w, signer, lines, last, p + [a] + q) == Session(w, signer, lines, last, p + q)
    ensures Landed(w, signer, last, p + [a] + q) == Landed(w, signer, last, p + q)
    decreases |p|
  {
    if p == [] {
      assert p + [a] + q == [a] + q && p + q == q;
      assert ([a] + q)[1..] == q;
    } else {
      assert (p + [a] + q)[1..] == p[1..] + [a] + q && (p + q)[1..] == p[1..] + q;
      var (lines', last') := WriteStep(w, signer, lines, last, p[0]);
      RefusedAttemptVanishes(w, signer, lines', last', p[1..], a, q);
    }
  }

  /** The contents of the attempts that landed, over all the sessions. */
  function AllLanded(w: World<Entry>, signer: Signer, lines: seq<string>, sessions: seq<seq<Attempt>>): seq<string>
    decreases |sessions|
  {
    if sessions == [] then []
    else
      var last := Prev(w, lines, |lines|);
      Landed(w, signer, last, sessions[0])
      + AllLanded(w, signer, Session(w, signer, lines, last, sessions[0]), sessions[1..])
  }

  lemma {:induction false} SessionsExtendChain(
      w: World<Entry>, signer: Signer, contents: seq<string>, lines: seq<string>, sessions: seq<seq<Attempt>>)
    requires Chain(w, signer, contents, lines)
    ensures Chain(w, signer, contents + AllLanded(w, signer, lines, sessions), Sessions(w, signer, lines, sessions))
    decreases |sessions|
  {
    if sessions == [] {
      assert contents + [] == contents;
    } else {
      SessionExtendsChain(w, signer, contents, lines, sessions[0]);
      var last := Prev(w, lines, |lines|);
      var landed, next := Landed(w, signer, last, sessions[0]), Session(w, signer, lines, last, sessions[0]);
      SessionsExtendChain(w, signer, contents + landed, next, sessions[1..]);
      var later := AllLanded(w, signer, next, sessions[1..]);
      assert contents + (landed + later) == contents + landed + later;
    }
  }

  /** A logger's session, on real objects: complete exactly when every entry reached the file. */
  method RunSession(w: World<Entry>, signer: Signer, file: LogFile, writes: seq<Attempt>) returns (complete: bool)
    modifies file
    ensures file.lines == Session(w, signer, old(file.lines), Prev(w, old(file.lines), |old(file.lines)|), writes)
    ensures complete <==> |file.lines| == |old(file.lines)| + |writes|
  {
    var logger := new Logger.NewSigned(w, signer, file);
    ghost var start, last := file.lines, logger.lastHash;
    for i := 0 to |writes|
      invariant Session(w, signer, start, last, writes)
             == Session(w, signer, file.lines, logger.lastHash, writes[i..])
      invariant |file.lines| <= |start| + i
      invariant logger.writeErr.None? <==> |file.lines| == |start| + i
    {
      assert writes[i..][0] == writes[i] && writes[i..][1..] == writes[i + 1..];
      var _ := logger.Write(writes[i]);
    }
    complete := logger.writeErr.None?;
  }

  // ----- verifying -----------------------------------------------------------

  datatype Tamper = Malformed | InvalidSignature | MissingEntry | Reordered | DidMismatch

  datatype Failure = NoEntries | BadPin | Tampered(line: nat, kind: Tamper)

  datatype Report = Report(entries: nat, did: string, parsed: seq<Entry>)

  /** Whether line `i` is at fault, and how, when the log must be signed by `did`; "" when no line
      has fixed the identity yet. */
  function Fault(w: World<Entry>, lines: seq<string>, i: nat, did: string): Option<Tamper>
    requires i < |lines|
  {
    match w.parse(lines[i])
    case None => Some(Malformed)
    case Some((entry, sig)) =>
      if entry.did == "" || entry.prevHash == "" || sig == "" then Some(Malformed)
      else if did != "" && entry.did != did then Some(DidMismatch)
      else
        match w.publicKey(entry.did)
        case None => Some(Malformed)
        case Some(pub) =>
          match CheckSignature(w, pub, lines[i], sig)
          case Unreadable => Some(Malformed)
          case Forged => Some(InvalidSignature)
          case Genuine(_) => Break(w, lines, i, entry.prevHash)
  }

  /** Whether the chain breaks at line `i`, and how, when that line names `prevHash`. */
  function Break(w: World<Entry>, lines: seq<string>, i: nat, prevHash: string): Option<Tamper>
    requires i < |lines|
  {
    if prevHash == Prev(w, lines, i) then None
    else if exists j :: 0 <= j < |lines| && w.hash(lines[j]) == prevHash then Some(Reordered)
    else Some(MissingEntry)
  }

  /** The identity line `i` is held to: the pinned one, or the one the first line names. */
  function LogDid(w: World<Entry>, lines: seq<string>, i: nat, expected: string): string
    requires i <= |lines|
  {
    if expected != "" || i == 0 || w.parse(lines[0]).None? then expected else w.parse(lines[0]).value.0.did
  }

  function FaultAt(w: World<Entry>, lines: seq<string>, i: nat, expected: string): Option<Tamper>
    requires i < |lines|
  {
    Fault(w, lines, i, LogDid(w, lines, i, expected))
  }

  /** The verdict: the first line at fault and its fault, or a report of all that the file says. */
  ghost predicate Verdict(w: World<Entry>, lines: seq<string>, expected: string, r: Result<Report, Failure>) {
    if lines == [] then r == Err(NoEntries)
    else if expected != "" && w.publicKey(expected).None? then r == Err(BadPin)
    else
      match r
      case Ok(report) =>
        && (forall i :: 0 <= i < |lines| ==> FaultAt(w, lines, i, expected) == None)
        && report == Report(|lines|, LogDid(w, lines, |lines|, expected), Read(w, lines))
      case Err(Tampered(line, kind)) =>
        && 0 < line <= |lines|
        && (forall i :: 0 <= i < line - 1 ==> FaultAt(w, lines, i, expected) == None)
        && FaultAt(w, lines, line - 1, expected) == Some(kind)
      case _ => false
  }

  /** The entries the lines hold, for lines that hold one. */
  function Read(w: World<Entry>, lines: seq<string>): seq<Entry> {
    if lines == [] then []
    else
      var init := Read(w, lines[..|lines| - 1]);
      match w.parse(lines[|lines| - 1])
      case None => init
      case Some((entry, _)) => init + [entry]
  }

  /** Where each line hash was last seen. */
  ghost predicate Indexed(w: World<Entry>, lines: seq<string>, hashToLine: map<string, nat>) {
    && (forall h :: h in hashToLine ==> hashToLine[h] < |lines| && w.hash(lines[hashToLine[h]]) == h)
    && (forall j :: 0 <= j < |lines| ==> w.hash(lines[j]) in hashToLine)
  }

  method IndexLines(w: World<Entry>, lines: seq<string>) returns (hashToLine: map<string, nat>)
    ensures Indexed(w, lines, hashToLine)
  {
    hashToLine := map[];
    for i := 0 to |lines|
      invariant forall h :: h in hashToLine ==> hashToLine[h] < i && w.hash(lines[hashToLine[h]]) == h
      invariant forall j :: 0 <= j < i ==> w.hash(lines[j]) in hashToLine
    {
      hashToLine := hashToLine[w.hash(lines[i]) := i];
    }
  }

  /** The chain check of one line, against the index of all of them. */
  method CheckLink(w: World<Entry>, lines: seq<string>, i: nat, prevHash: string, entry: Entry,
                   hashToLine: map<string, nat>)
      returns (fault: Option<Tamper>)
    requires i < |lines| && Indexed(w, lines, hashToLine) && prevHash == Prev(w, lines, i)
    ensures fault == Break(w, lines, i, entry.prevHash)
  {
    if entry.prevHash != prevHash {
      if entry.prevHash in hashToLine && hashToLine[entry.prevHash] != i - 1 {
        return Some(Reordered);
      }
      return Some(MissingEntry);
    }
    fault := None;
  }

  /** One turn of the verifier's loop: the checks of line `i`, in order. The identity is fixed by
      the first line when nothing pinned it. */
  method CheckLine(w: World<Entry>, lines: seq<string>, i: nat, did: string, key: Option<string>,
                   prevHash: string, hashToLine: map<string, nat>)
      returns (r: Result<Entry, Tamper>, logDid: string, pub: Option<string>)
    requires i < |lines| && Indexed(w, lines, hashToLine) && prevHash == Prev(w, lines, i)
    requires did != "" ==> key.Some? && key == w.publicKey(did)
    ensures r.Err? ==> Fault(w, lines, i, did) == Some(r.error)
    ensures r.Ok? ==> Fault(w, lines, i, did) == None && w.parse(lines[i]).Some? && r.value == w.parse(lines[i]).value.0
    ensures r.Ok? ==> logDid == r.value.did && logDid != "" && pub.Some? && pub == w.publicKey(logDid)
    ensures did != "" ==> logDid == did
  {
    logDid, pub := did, key;
    var line := lines[i];
    var read := w.parse(line);
    if read.None? {
      r := Err(Malformed);
      return;
    }
    var (entry, sig) := read.value;
    if entry.did == "" || entry.prevHash == "" || sig == "" {
      r := Err(Malformed);
      return;
    }
    if logDid == "" {
      logDid := entry.did;
      pub := w.publicKey(logDid);
      if pub.None? {
        r := Err(Malformed);
        return;
      }
    } else if entry.did != logDid {
      r := Err(DidMismatch);
      return;
    }
    var bytes := w.decode64(sig);
    if bytes.None? {
      r := Err(Malformed);
      return;
    }
    var signed := Detach(line, sig);
    if signed.None? {
      r := Err(Malformed);
      return;
    }
    if !w.verify(pub.value, signed.value, bytes.value) {
      r := Err(InvalidSignature);
      return;
    }
    var fault := CheckLink(w, lines, i, prevHash, entry, hashToLine);
    r := if fault.Some? then Err(fault.value) else Ok(entry);
  }

  /** What the verifier's loop has established when it comes to line `i`. */
  ghost predicate Walked(w: World<Entry>, lines: seq<string>, expected: string, i: nat,
                         logDid: string, pub: Option<string>, prevHash: string, parsed: seq<Entry>)
    requires i <= |lines|
  {
    && (forall k :: 0 <= k < i ==> FaultAt(w, lines, k, expected) == None)
    && logDid == LogDid(w, lines, i, expected) && (i > 0 ==> logDid != "")
    && (logDid != "" ==> pub.Some? && pub == w.publicKey(logDid))
    && prevHash == Prev(w, lines, i)
    && parsed == Read(w, lines[..i])
  }

  lemma WalksOn(w: World<Entry>, lines: seq<string>, expected: string, i: nat, did: string, key: Option<string>,
                parsed: seq<Entry>, entry: Entry, logDid: string, pub: Option<string>)
    requires i < |lines| && Walked(w, lines, expected, i, did, key, Prev(w, lines, i), parsed)
    requires Fault(w, lines, i, did) == None && w.parse(lines[i]).Some? && entry == w.parse(lines[i]).value.0
    requires logDid == entry.did && logDid != "" && pub.Some? && pub == w.publicKey(logDid)
    requires did != "" ==> logDid == did
    ensures Walked(w, lines, expected, i + 1, logDid, pub, w.hash(lines[i]), parsed + [entry])
  {
    assert lines[..i + 1][..i] == lines[..i];
  }

  method VerifyFile(w: World<Entry>, lines: seq<string>, expected: string) returns (r: Result<Report, Failure>)
    ensures Verdict(w, lines, expected, r)
  {
    if |lines| == 0 {
      return Err(NoEntries);
    }
    var hashToLine := IndexLines(w, lines);
    var logDid, pub := expected, None;
    if logDid != "" {
      pub := w.publicKey(logDid);
      if pub.None? {
        return Err(BadPin);
      }
    }
    var prevHash, parsed := GENESIS, [];
    for i := 0 to |lines|
      invariant Walked(w, lines, expected, i, logDid, pub, prevHash, parsed)
    {
      ghost var did, key := logDid, pub;
      var entry;
      entry, logDid, pub := CheckLine(w, lines, i, logDid, pub, prevHash, hashToLine);
      if entry.Err? {
        return Err(Tampered(i + 1, entry.error));
      }
      WalksOn(w, lines, expected, i, did, key, parsed, entry.value, logDid, pub);
      prevHash := w.hash(lines[i]);
      parsed := parsed + [entry.value];
    }
    assert lines[..|lines|] == lines;
    r := Ok(Report(|lines|, logDid, parsed));
  }

  /** The verdict is a function of the file and the pin. */
  lemma VerdictIsUnique(w: World<Entry>, lines: seq<string>, expected: string, r: Result<Report, Failure>,
                        s: Result<Report, Failure>)
    requires Verdict(w, lines, expected, r) && Verdict(w, lines, expected, s)
    ensures r == s
  {
    if r.Err? && r.error.Tampered? {
      assert FaultAt(w, lines, r.error.line - 1, expected).Some?;
    }
    if s.Err? && s.error.Tampered? {
      assert FaultAt(w, lines, s.error.line - 1, expected).Some?;
    }
  }

  // ----- what a verdict says of the lines ------------------------------------

  /** Line `i` is an entry of `did`, under a signature of the key that DID names over the line's own
      bytes, and names the line before it. */
  ghost predicate Holds(w: World<Entry>, lines: seq<string>, i: nat, did: string)
    requires i < |lines|
  {
    && w.parse(lines[i]).Some? && did != "" && w.publicKey(did).Some?
    && var (e, sig) := w.parse(lines[i]).value;
       && e.did == did && e.prevHash != "" && sig != ""
       && w.decode64(sig).Some? && Detach(lines[i], sig).Some?
       && w.verify(w.publicKey(did).value, Detach(lines[i], sig).value, w.decode64(sig).value)
       && e.prevHash == if i == 0 then GENESIS else w.hash(lines[i - 1])
  }

  ghost predicate AllHold(w: World<Entry>, lines: seq<string>, did: string) {
    forall i :: 0 <= i < |lines| ==> Holds(w, lines, i, did)
  }

  lemma HoldsIsNoFault(w: World<Entry>, lines: seq<string>, i: nat, did: string)
    requires i < |lines| && did != ""
    ensures Fault(w, lines, i, did) == None <==> Holds(w, lines, i, did)
  {
  }

  lemma FirstLineFixes(w: World<Entry>, lines: seq<string>, i: nat, expected: string, did: string)
    requires i < |lines| && did != "" && (expected == "" || expected == did)
    requires expected == "" ==> w.parse(lines[0]).Some? && w.parse(lines[0]).value.0.did == did
    ensures FaultAt(w, lines, i, expected) == None <==> Holds(w, lines, i, did)
  {
    HoldsIsNoFault(w, lines, i, did);
  }

  lemma {:induction false} ReadAll(w: World<Entry>, lines: seq<string>)
    requires forall i :: 0 <= i < |lines| ==> w.parse(lines[i]).Some?
    ensures |Read(w, lines)| == |lines|
    ensures forall i :: 0 <= i < |lines| ==> Read(w, lines)[i] == w.parse(lines[i]).value.0
  {
    if lines != [] {
      ReadAll(w, lines[..|lines| - 1]);
    }
  }

  lemma AcceptedHolds(w: World<Entry>, lines: seq<string>, expected: string, r: Result<Report, Failure>)
    requires Verdict(w, lines, expected, r) && r.Ok?
    ensures lines != [] && (expected == "" || expected == r.value.did)
    ensures AllHold(w, lines, r.value.did)
  {
    assert FaultAt(w, lines, 0, expected) == None;
    var did := w.parse(lines[0]).value.0.did;
    forall i | 0 <= i < |lines| ensures Holds(w, lines, i, did) {
      assert FaultAt(w, lines, i, expected) == None;
      FirstLineFixes(w, lines, i, expected, did);
    }
  }

  lemma HoldingIsAccepted(w: World<Entry>, lines: seq<string>, expected: string, r: Result<Report, Failure>,
                          did: string)
    requires Verdict(w, lines, expected, r) && lines != [] && did != "" && (expected == "" || expected == did)
    requires AllHold(w, lines, did)
    ensures r.Ok? && r.value.did == did
  {
    assert Holds(w, lines, 0, did);
    forall i | 0 <= i < |lines| ensures FaultAt(w, lines, i, expected) == None {
      FirstLineFixes(w, lines, i, expected, did);
    }
  }

  /** Acceptance, exactly, pinned or not: one identity, the pinned one if there is one, holds every
      line; and then the report names it and holds every line's entry in order. */
  lemma AcceptedIff(w: World<Entry>, lines: seq<string>, expected: string, r: Result<Report, Failure>)
    requires Verdict(w, lines, expected, r)
    ensures r.Ok? <==>
              lines != [] && exists did :: (expected == "" || expected == did) && AllHold(w, lines, did)
    ensures r.Ok? ==>
              && (expected == "" || expected == r.value.did) && AllHold(w, lines, r.value.did)
              && r.value.entries == |r.value.parsed| == |lines|
              && forall i :: 0 <= i < |lines| ==>
                   w.parse(lines[i]).Some? && r.value.parsed[i] == w.parse(lines[i]).value.0
  {
    if r.Ok? {
      AcceptedHolds(w, lines, expected, r);
      forall i | 0 <= i < |lines| ensures w.parse(lines[i]).Some? {
        assert Holds(w, lines, i, r.value.did);
      }
      ReadAll(w, lines);
    } else if did :| lines != [] && (expected == "" || expected == did) && AllHold(w, lines, did) {
      assert Holds(w, lines, 0, did);
      HoldingIsAccepted(w, lines, expected, r, did);
    }
  }

  lemma FaultSays(w: World<Entry>, lines: seq<string>, k: nat, did: string)
    requires k < |lines| && w.parse(lines[k]).Some?
    ensures var (e, sig) := w.parse(lines[k]).value;
            var missing := e.did == "" || e.prevHash == "" || sig == "";
            var other := did != "" && e.did != did;
            var unreadable := w.publicKey(e.did).None? || w.decode64(sig).None? || Detach(lines[k], sig).None?;
            var fault := Fault(w, lines, k, did);
            && (missing || (!other && unreadable) ==> fault == Some(Malformed))
            && (!missing && other ==> fault == Some(DidMismatch))
            && (!missing && !other && !unreadable ==>
                  var genuine := w.verify(w.publicKey(e.did).value, Detach(lines[k], sig).value, w.decode64(sig).value);
                  var above := if k == 0 then GENESIS else w.hash(lines[k - 1]);
                  && (!genuine ==> fault == Some(InvalidSignature))
                  && (genuine && e.prevHash == above ==> fault == None)
                  && (genuine && e.prevHash != above ==>
                        fault == Some(if exists j :: 0 <= j < |lines| && w.hash(lines[j]) == e.prevHash
                                      then Reordered else MissingEntry)))
  {
  }

  /** After lines that hold under one identity, the first that names another is reported as such, and
      so is the first when it names another than the pinned one. */
  lemma MismatchIsReported(w: World<Entry>, lines: seq<string>, expected: string, r: Result<Report, Failure>,
                           did: string, k: nat)
    requires Verdict(w, lines, expected, r) && did != "" && (expected == "" || expected == did)
    requires k < |lines| && (k == 0 ==> expected != "") && w.publicKey(did).Some?
    requires forall i :: 0 <= i < k ==> Holds(w, lines, i, did)
    requires w.parse(lines[k]).Some?
    requires var (e, sig) := w.parse(lines[k]).value;
             e.did != "" && e.did != did && e.prevHash != "" && sig != ""
    ensures r == Err(Tampered(k + 1, DidMismatch))
  {
    assert k > 0 ==> Holds(w, lines, 0, did);
    FaultSays(w, lines, k, did);
    FirstFaultIsTold(w, lines, expected, r, did, k, DidMismatch);
  }

  lemma FirstFaultIsTold(w: World<Entry>, lines: seq<string>, expected: string, r: Result<Report, Failure>,
                         did: string, k: nat, kind: Tamper)
    requires Verdict(w, lines, expected, r) && k < |lines|
    requires did == LogDid(w, lines, k, expected) && (did != "" ==> w.publicKey(did).Some?)
    requires (k > 0 ==> did != "") && (expected == "" || expected == did)
    requires forall i :: 0 <= i < k ==> Holds(w, lines, i, did)
    requires Fault(w, lines, k, did) == Some(kind)
    ensures r == Err(Tampered(k + 1, kind))
  {
    forall i | 0 <= i < k ensures FaultAt(w, lines, i, expected) == None {
      assert Holds(w, lines, 0, did) && Holds(w, lines, i, did);
      FirstLineFixes(w, lines, i, expected, did);
    }
    assert FaultAt(w, lines, k, expected) == Some(kind);
    VerdictIsUnique(w, lines, expected, r, Err(Tampered(k + 1, kind)));
  }
}
