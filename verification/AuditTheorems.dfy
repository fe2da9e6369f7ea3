/** What a signed log proves: a genuine chain is accepted, an accepted file is a prefix of a
    genuine chain, and rearranged or cut chains are told apart at the exact line. */
module AuditTheorems {
  import opened Wrappers
  import opened SignedJson
  import opened AuditLog

  /** A chain its signer wrote, with what each line says. */
  datatype Log = Log(contents: seq<string>, lines: seq<string>)


  /** The entry line `k` of a log was encoded from. */
  function EntryAt(w: World<Entry>, signer: Signer, log: Log, k: nat): Entry
    requires |log.contents| == |log.lines| && k < |log.lines|
  {
    Entry(log.contents[k], signer.did, Prev(w, log.lines, k))
  }

  /** The signer signs every line. */
  ghost predicate SignsAll(w: World<Entry>, signer: Signer, log: Log) {
    && |log.contents| == |log.lines|
    && forall k {:trigger EntryAt(w, signer, log, k)} :: 0 <= k < |log.lines| ==>
         Signs(w, signer, EntryAt(w, signer, log, k))
  }

  ghost predicate Written(w: World<Entry>, signer: Signer, log: Log) {
    Chain(w, signer, log.contents, log.lines) && SignsAll(w, signer, log)
  }

  /** The entries of the log. */
  function Entries(w: World<Entry>, signer: Signer, log: Log, n: nat): seq<Entry>
    requires |log.contents| == |log.lines| && n <= |log.lines|
  {
    seq(n, k requires 0 <= k < n => EntryAt(w, signer, log, k))
  }

  /** How the verifier reads a line its signer signed, wherever it stands in some file. */
  lemma SignedLineReads(w: World<Entry>, signer: Signer, e: Entry, lines: seq<string>, i: nat, did: string)
    requires Trusted(w, signer) && Signs(w, signer, e) && e.did == signer.did && e.prevHash != ""
    requires i < |lines| && SignedText(w, signer, e) == Some(lines[i])
    requires did == "" || did == signer.did
    ensures w.parse(lines[i]).Some? && w.parse(lines[i]).value.0 == e
    ensures Fault(w, lines, i, did) == Break(w, lines, i, e.prevHash)
  {
    SignedTextChecks(w, signer, e);
  }

  /** How the verifier reads a genuine line that stands at position `i` of some file. */
  lemma GenuineLine(w: World<Entry>, signer: Signer, log: Log, k: nat, lines: seq<string>, i: nat, did: string)
    requires Trusted(w, signer) && Written(w, signer, log) && k < |log.lines|
    requires i < |lines| && lines[i] == log.lines[k]
    requires did == "" || did == signer.did
    ensures w.parse(lines[i]).Some? && w.parse(lines[i]).value.0 == EntryAt(w, signer, log, k)
    ensures Fault(w, lines, i, did) == Break(w, lines, i, Prev(w, log.lines, k))
  {
    var e := EntryAt(w, signer, log, k);
    assert IsNext(w, signer, log.contents[k], log.lines, k);
    assert e.prevHash != "";
    SignedLineReads(w, signer, e, lines, i, did);
  }

  // ----- completeness --------------------------------------------------------

  /** A genuine chain, pinned or not, is accepted with exactly the entries written. */
  lemma GenuineChainVerifies(w: World<Entry>, signer: Signer, log: Log, expected: string, r: Result<Report, Failure>)
    requires Trusted(w, signer) && Written(w, signer, log) && log.lines != []
    requires expected == "" || expected == signer.did
    requires Verdict(w, log.lines, expected, r)
    ensures r == Ok(Report(|log.lines|, signer.did, Entries(w, signer, log, |log.lines|)))
  {
    var lines := log.lines;
    GenuineLine(w, signer, log, 0, lines, 0, "");
    forall i | 0 <= i < |lines| ensures FaultAt(w, lines, i, expected) == None {
      GenuineLine(w, signer, log, i, lines, i, LogDid(w, lines, i, expected));
    }
    ReadGenuine(w, signer, log, |lines|);
    assert lines[..|lines|] == lines;
  }

  lemma {:induction false} ReadGenuine(w: World<Entry>, signer: Signer, log: Log, n: nat)
    requires Trusted(w, signer) && Written(w, signer, log) && n <= |log.lines|
    ensures Read(w, log.lines[..n]) == Entries(w, signer, log, n)
  {
    if n > 0 {
      assert log.lines[..n][..n - 1] == log.lines[..n - 1];
      ReadGenuine(w, signer, log, n - 1);
      GenuineLine(w, signer, log, n - 1, log.lines, n - 1, "");
    }
  }

  /** Whatever sessions ran on a fresh file, one after the other, with whatever failures, the
      file verifies and reports exactly the entries of the attempts that landed, in order. */
  lemma SessionsVerify(w: World<Entry>, signer: Signer, sessions: seq<seq<Attempt>>, log: Log,
                       r: Result<Report, Failure>)
    requires Trusted(w, signer) && SignsAll(w, signer, log)
    requires log == Log(AllLanded(w, signer, [], sessions), Sessions(w, signer, [], sessions))
    requires Verdict(w, log.lines, signer.did, r)
    ensures Written(w, signer, log)
    ensures r == if log.lines == [] then Err(NoEntries)
                 else Ok(Report(|log.contents|, signer.did, Entries(w, signer, log, |log.contents|)))
  {
    SessionsExtendChain(w, signer, [], [], sessions);
    assert [] + log.contents == log.contents;
    if log.lines != [] {
      GenuineChainVerifies(w, signer, log, signer.did, r);
    }
  }

  /** A genuine line in its place, after nothing but the lines before it, is not at fault. */
  lemma FrontLine(w: World<Entry>, signer: Signer, log: Log, lines: seq<string>, i: nat)
    requires Trusted(w, signer) && Written(w, signer, log)
    requires i < |lines| && i < |log.lines| && lines[..i + 1] == log.lines[..i + 1]
    ensures FaultAt(w, lines, i, signer.did) == None
  {
    assert lines[i] == lines[..i + 1][i] == log.lines[i];
    assert i > 0 ==> lines[i - 1] == lines[..i + 1][i - 1] == log.lines[i - 1];
    GenuineLine(w, signer, log, i, lines, i, signer.did);
  }

  // ----- soundness -----------------------------------------------------------

  /** What verifies under the signer's key is what it signed, and it signed the entries of its logs
      and messages of other kinds: the same key signs envelopes, which no base64 text in the
      place of the signature turns into an entry. */
  ghost predicate Unforgeable(w: World<Entry>, signer: Signer, logs: seq<Log>) {
    && (forall log :: log in logs ==> Written(w, signer, log))
    && OnlySigned(w, signer)
    && forall m :: signer.signed(m) ==> Foreign(w, m) || InLogs(w, signer, logs, m)
  }

  ghost predicate InLogs(w: World<Entry>, signer: Signer, logs: seq<Log>, m: string) {
    exists c, k :: 0 <= c < |logs| && 0 <= k < |logs[c].lines| && SignedBytes(w, signer, logs[c], k, m)
  }

  ghost predicate Foreign(w: World<Entry>, m: string) {
    m != "" ==> forall sig :: w.decode64(sig).Some? && w.parse(Attach(m, sig)).Some? ==>
                  w.parse(Attach(m, sig)).value.0.did == "" || w.parse(Attach(m, sig)).value.0.prevHash == ""
  }

  ghost predicate SignedBytes(w: World<Entry>, signer: Signer, log: Log, k: nat, m: string) {
    Written(w, signer, log) && k < |log.lines| && w.marshal(EntryAt(w, signer, log, k)) == Some(m)
  }

  /** Every line names the one before it. */
  ghost predicate Linked(w: World<Entry>, lines: seq<string>) {
    forall i :: 0 <= i < |lines| ==> Names(w, lines, i)
  }

  predicate Names(w: World<Entry>, lines: seq<string>, i: nat)
    requires i < |lines|
  {
    w.parse(lines[i]).Some? && w.parse(lines[i]).value.0.prevHash == Prev(w, lines, i)
  }

  /** A linked file is determined by its last line. */
  lemma {:induction false} LastLineDetermines(w: World<Entry>, a: seq<string>, b: seq<string>)
    requires GoodHash(w) && Linked(w, a) && Linked(w, b)
    requires a != [] && b != [] && a[|a| - 1] == b[|b| - 1]
    ensures a == b
    decreases |a|
  {
    var m, n := |a| - 1, |b| - 1;
    assert Names(w, a, m) && Names(w, b, n);
    if m > 0 && n > 0 {
      forall i | 0 <= i < m ensures Names(w, a[..m], i) { assert Names(w, a, i); }
      forall i | 0 <= i < n ensures Names(w, b[..n], i) { assert Names(w, b, i); }
      LastLineDetermines(w, a[..m], b[..n]);
    }
    assert a == a[..m] + [a[m]] && b == b[..n] + [b[n]];
  }

  lemma WrittenIsLinked(w: World<Entry>, signer: Signer, log: Log)
    requires Trusted(w, signer) && Written(w, signer, log)
    ensures Linked(w, log.lines)
  {
    forall i | 0 <= i < |log.lines| ensures Names(w, log.lines, i) {
      GenuineLine(w, signer, log, i, log.lines, i, "");
    }
  }

  lemma AcceptedLine(w: World<Entry>, lines: seq<string>, i: nat, did: string)
    requires i < |lines| && Fault(w, lines, i, did) == None
    ensures Names(w, lines, i)
    ensures var (e, sig) := w.parse(lines[i]).value;
            (did != "" ==> e.did == did) && w.publicKey(e.did).Some?
            && e.did != "" && e.prevHash != ""
            && CheckSignature(w, w.publicKey(e.did).value, lines[i], sig).Genuine?
  {
  }

  ghost predicate Says(w: World<Entry>, signer: Signer, log: Log, i: nat, line: string) {
    && |log.contents| == |log.lines| && i < |log.lines|
    && w.parse(line).Some?
    && w.parse(line).value.0 == EntryAt(w, signer, log, i)
  }

  /** The bytes under the line's signature are those of the log's line `i`. */
  ghost predicate Covers(w: World<Entry>, signer: Signer, log: Log, i: nat, line: string)
    requires Says(w, signer, log, i, line)
  {
    Detach(line, w.parse(line).value.1) == w.marshal(EntryAt(w, signer, log, i))
  }

  /** The last line of an accepted file says what some line of some log says. */
  lemma LastLineIsSigned(w: World<Entry>, signer: Signer, logs: seq<Log>, lines: seq<string>, n: nat)
      returns (c: nat, k: nat)
    requires Trusted(w, signer) && Unforgeable(w, signer, logs)
    requires n < |lines| && Fault(w, lines, n, signer.did) == None
    ensures c < |logs| && logs[c] in logs && Written(w, signer, logs[c])
    ensures Says(w, signer, logs[c], k, lines[n]) && Covers(w, signer, logs[c], k, lines[n])
  {
    AcceptedLine(w, lines, n, signer.did);
    var (e, sig) := w.parse(lines[n]).value;
    var m := CheckSignature(w, signer.key, lines[n], sig).signed;
    AttachDetach(lines[n], sig);
    assert !Foreign(w, m);
    c, k :| 0 <= c < |logs| && 0 <= k < |logs[c].lines| && SignedBytes(w, signer, logs[c], k, m);
    assert logs[c] in logs;
    CheckedTextReads(w, signer.key, lines[n], sig, EntryAt(w, signer, logs[c], k));
  }

  lemma LinkedPrefix(w: World<Entry>, lines: seq<string>, n: nat)
    requires Linked(w, lines) && n <= |lines|
    ensures Linked(w, lines[..n])
  {
    forall i | 0 <= i < n ensures Names(w, lines[..n], i) { assert Names(w, lines, i); }
  }

  /** A linked file whose last line says what line `k` of a log says has the log's lines above it. */
  lemma SamePlace(w: World<Entry>, signer: Signer, log: Log, k: nat, lines: seq<string>)
    requires Trusted(w, signer) && Written(w, signer, log)
    requires lines != [] && Linked(w, lines) && Says(w, signer, log, k, lines[|lines| - 1])
    ensures k == |lines| - 1 && lines[..k] == log.lines[..k]
    ensures forall i {:trigger Says(w, signer, log, i, lines[i])} :: 0 <= i < |lines| ==>
            Says(w, signer, log, i, lines[i])
  {
    var n := |lines| - 1;
    assert Names(w, lines, n);
    WrittenIsLinked(w, signer, log);
    SamePrefix(w, lines, n, log.lines, k);
    PrefixSays(w, signer, log, lines, n);
  }

  lemma SamePrefix(w: World<Entry>, a: seq<string>, m: nat, b: seq<string>, n: nat)
    requires GoodHash(w) && Linked(w, a) && Linked(w, b) && m <= |a| && n <= |b| && Prev(w, a, m) == Prev(w, b, n)
    ensures m == n && a[..m] == b[..n]
  {
    if m > 0 && n > 0 {
      LinkedPrefix(w, a, m);
      LinkedPrefix(w, b, n);
      LastLineDetermines(w, a[..m], b[..n]);
    }
  }

  lemma AcceptedIsLinked(w: World<Entry>, lines: seq<string>, did: string, r: Result<Report, Failure>)
    requires Verdict(w, lines, did, r) && r.Ok?
    ensures lines != [] && Linked(w, lines)
  {
    forall i | 0 <= i < |lines| ensures Names(w, lines, i) {
      assert FaultAt(w, lines, i, did) == None;
      AcceptedLine(w, lines, i, LogDid(w, lines, i, did));
    }
  }

  lemma PrefixSays(w: World<Entry>, signer: Signer, log: Log, lines: seq<string>, n: nat)
    requires Trusted(w, signer) && Written(w, signer, log)
    requires n <= |lines| && n <= |log.lines| && lines[..n] == log.lines[..n]
    ensures forall i {:trigger Says(w, signer, log, i, lines[i])} :: 0 <= i < n ==> Says(w, signer, log, i, lines[i])
  {
    forall i | 0 <= i < n ensures Says(w, signer, log, i, lines[i]) {
      assert lines[i] == lines[..n][i] == log.lines[i];
      GenuineLine(w, signer, log, i, lines, i, "");
    }
  }

  /** Line for line the log's, up to the last, which is the log's up to its signature; and every
      line says what the log's line there says. */
  ghost predicate PrefixOf(w: World<Entry>, signer: Signer, log: Log, lines: seq<string>) {
    && 0 < |lines| <= |log.lines|
    && lines[..|lines| - 1] == log.lines[..|lines| - 1]
    && (forall i {:trigger Says(w, signer, log, i, lines[i])} :: 0 <= i < |lines| ==> Says(w, signer, log, i, lines[i]))
    && Covers(w, signer, log, |lines| - 1, lines[|lines| - 1])
  }

  /** A file accepted under a pinned identity is a prefix of one log that identity wrote: line for
      line up to the last, whose signed bytes are those of the log's line there. */
  lemma Soundness(w: World<Entry>, signer: Signer, logs: seq<Log>, lines: seq<string>, r: Result<Report, Failure>)
      returns (c: nat)
    requires Trusted(w, signer) && Unforgeable(w, signer, logs)
    requires Verdict(w, lines, signer.did, r) && r.Ok?
    ensures c < |logs| && PrefixOf(w, signer, logs[c], lines)
  {
    var n := |lines| - 1;
    AcceptedIsLinked(w, lines, signer.did, r);
    assert FaultAt(w, lines, n, signer.did) == None;
    var k;
    c, k := LastLineIsSigned(w, signer, logs, lines, n);
    SamePlace(w, signer, logs[c], k, lines);
  }

  // ----- classification ------------------------------------------------------

  /** The lines of a chain are pairwise distinct. */
  lemma {:induction false} LinesDistinct(w: World<Entry>, lines: seq<string>, i: nat, j: nat)
    requires GoodHash(w) && Linked(w, lines) && i < j < |lines|
    ensures lines[i] != lines[j]
  {
    if lines[i] == lines[j] {
      var a, b := lines[..i + 1], lines[..j + 1];
      forall k | 0 <= k <= i ensures Names(w, a, k) { assert Names(w, lines, k); }
      forall k | 0 <= k <= j ensures Names(w, b, k) { assert Names(w, lines, k); }
      LastLineDetermines(w, a, b);
    }
  }

  /** The fault of a genuine line that is out of place: its predecessor is elsewhere in the
      file, or gone. The first line of a chain names no line at all. */
  function Displaced(log: Log, lines: seq<string>, k: nat): Tamper
    requires k < |log.lines|
  {
    if k > 0 && log.lines[k - 1] in lines then Reordered else MissingEntry
  }

  lemma DisplacedLine(w: World<Entry>, signer: Signer, log: Log, lines: seq<string>, i: nat, k: nat)
    requires Trusted(w, signer) && Written(w, signer, log)
    requires i < |lines| && k < |log.lines| && i != k && lines[i] == log.lines[k]
    requires i <= |log.lines| && lines[..i] == log.lines[..i]
    ensures Fault(w, lines, i, signer.did) == Some(Displaced(log, lines, k))
  {
    GenuineLine(w, signer, log, k, lines, i, signer.did);
    if i > 0 {
      assert lines[i - 1] == lines[..i][i - 1] == log.lines[i - 1];
    }
    PrevsDiffer(w, signer, log, i, k);
    PrevIsIn(w, log, lines, k);
  }

  /** Different places in a chain name different predecessors. */
  lemma PrevsDiffer(w: World<Entry>, signer: Signer, log: Log, i: nat, k: nat)
    requires Trusted(w, signer) && Written(w, signer, log) && i != k && i <= |log.lines| && k <= |log.lines|
    ensures Prev(w, log.lines, i) != Prev(w, log.lines, k)
  {
    if i > 0 && k > 0 {
      WrittenIsLinked(w, signer, log);
      if i < k { LinesDistinct(w, log.lines, i - 1, k - 1); } else { LinesDistinct(w, log.lines, k - 1, i - 1); }
    }
  }

  /** The predecessor named at place `k` is in the file exactly when its hash is. */
  lemma PrevIsIn(w: World<Entry>, log: Log, lines: seq<string>, k: nat)
    requires GoodHash(w) && k < |log.lines|
    ensures k > 0 && log.lines[k - 1] in lines <==>
              exists j :: 0 <= j < |lines| && w.hash(lines[j]) == Prev(w, log.lines, k)
  {
    if k > 0 && log.lines[k - 1] in lines {
      var j :| 0 <= j < |lines| && lines[j] == log.lines[k - 1];
      assert w.hash(lines[j]) == Prev(w, log.lines, k);
    }
  }

  /** The exact verdict on any file made of lines of one genuine chain, in any order, with any
      of them missing or repeated: accepted exactly when the file is a prefix of the chain;
      otherwise refused at the first line that is out of place. */
  lemma GenuineLinesVerdict(w: World<Entry>, signer: Signer, log: Log, lines: seq<string>, i: nat, k: nat,
                            r: Result<Report, Failure>)
    requires Trusted(w, signer) && Written(w, signer, log)
    requires i < |lines| && i <= |log.lines| && lines[..i] == log.lines[..i]
    requires k < |log.lines| && k != i && lines[i] == log.lines[k]
    requires Verdict(w, lines, signer.did, r)
    ensures r == Err(Tampered(i + 1, Displaced(log, lines, k)))
  {
    forall j | 0 <= j < i ensures FaultAt(w, lines, j, signer.did) == None {
      assert lines[..j + 1] == lines[..i][..j + 1] == log.lines[..j + 1];
      FrontLine(w, signer, log, lines, j);
    }
    DisplacedLine(w, signer, log, lines, i, k);
    assert FaultAt(w, lines, i, signer.did) == Some(Displaced(log, lines, k));
    VerdictIsUnique(w, lines, signer.did, r, Err(Tampered(i + 1, Displaced(log, lines, k))));
  }

  /** The first place where two files of the same length differ. */
  lemma {:induction false} FirstDifference(a: seq<string>, b: seq<string>) returns (i: nat)
    requires |a| == |b| && a != b
    ensures i < |a| && a[..i] == b[..i] && a[i] != b[i]
  {
    if a[0] != b[0] {
      i := 0;
    } else {
      assert a == [a[0]] + a[1..] && b == [b[0]] + b[1..];
      i := FirstDifference(a[1..], b[1..]);
      assert a[..i + 1] == [a[0]] + a[1..][..i] && b[..i + 1] == [b[0]] + b[1..][..i];
      i := i + 1;
    }
  }

  /** A permutation that moves anything is reported as reordered at the first displaced line. */
  lemma PermutationIsReordered(w: World<Entry>, signer: Signer, log: Log, lines: seq<string>,
                               r: Result<Report, Failure>)
      returns (i: nat)
    requires Trusted(w, signer) && Written(w, signer, log)
    requires multiset(lines) == multiset(log.lines) && lines != log.lines
    requires Verdict(w, lines, signer.did, r)
    ensures |lines| == |log.lines| && i < |lines| && lines[..i] == log.lines[..i] && lines[i] != log.lines[i]
    ensures r == Err(Tampered(i + 1, Reordered))
  {
    assert |lines| == |multiset(lines)| == |multiset(log.lines)| == |log.lines|;
    i := FirstDifference(lines, log.lines);
    var k := ComesLater(lines, log.lines, i);
    GenuineLinesVerdict(w, signer, log, lines, i, k, r);
    assert log.lines[k - 1] in multiset(log.lines);
    assert log.lines[k - 1] in lines;
  }

  /** After a common prefix of two permutations, the next line of one comes later in the other. */
  lemma ComesLater(a: seq<string>, b: seq<string>, i: nat) returns (k: nat)
    requires multiset(a) == multiset(b) && i < |a| && i < |b| && a[..i] == b[..i] && a[i] != b[i]
    ensures i < k < |b| && b[k] == a[i]
  {
    SuffixesPermute(a, b, i);
    assert a[i..][0] in multiset(a[i..]);
    assert a[i] in b[i..];
    var d :| 0 <= d < |b[i..]| && b[i..][d] == a[i];
    k := i + d;
  }

  lemma SuffixesPermute(a: seq<string>, b: seq<string>, i: nat)
    requires multiset(a) == multiset(b) && i <= |a| && i <= |b| && a[..i] == b[..i]
    ensures multiset(a[i..]) == multiset(b[i..])
  {
    assert a == a[..i] + a[i..] && b == b[..i] + b[i..];
    assert multiset(a[i..]) == multiset(a) - multiset(a[..i]);
    assert multiset(b[i..]) == multiset(b) - multiset(b[..i]);
  }

  /** Cutting a block that is not a suffix is reported as missing, at the line after the cut. */
  lemma CutIsMissing(w: World<Entry>, signer: Signer, log: Log, a: nat, b: nat, r: Result<Report, Failure>)
    requires Trusted(w, signer) && Written(w, signer, log)
    requires a < b < |log.lines|
    requires Verdict(w, log.lines[..a] + log.lines[b..], signer.did, r)
    ensures r == Err(Tampered(a + 1, MissingEntry))
  {
    var lines := log.lines[..a] + log.lines[b..];
    GenuineLinesVerdict(w, signer, log, lines, a, b, r);
    CutLineIsGone(w, signer, log, a, b);
  }

  lemma CutLineIsGone(w: World<Entry>, signer: Signer, log: Log, a: nat, b: nat)
    requires Trusted(w, signer) && Written(w, signer, log)
    requires a < b < |log.lines|
    ensures log.lines[b - 1] !in log.lines[..a] + log.lines[b..]
  {
    WrittenIsLinked(w, signer, log);
    forall j | 0 <= j < a ensures log.lines[j] != log.lines[b - 1] {
      if j < b - 1 { LinesDistinct(w, log.lines, j, b - 1); }
    }
    forall j | b <= j < |log.lines| ensures log.lines[j] != log.lines[b - 1] {
      LinesDistinct(w, log.lines, b - 1, j);
    }
  }

  /** Cutting a suffix is what the chain cannot show: every nonempty prefix is accepted. */
  lemma PrefixIsAccepted(w: World<Entry>, signer: Signer, log: Log, n: nat, r: Result<Report, Failure>)
    requires Trusted(w, signer) && Written(w, signer, log)
    requires 0 < n <= |log.lines|
    requires Verdict(w, log.lines[..n], signer.did, r)
    ensures r.Ok? && r.value.entries == n
  {
    PrefixIsWritten(w, signer, log, n);
    GenuineChainVerifies(w, signer, Log(log.contents[..n], log.lines[..n]), signer.did, r);
  }

  lemma PrefixIsWritten(w: World<Entry>, signer: Signer, log: Log, n: nat)
    requires Written(w, signer, log) && n <= |log.lines|
    ensures Written(w, signer, Log(log.contents[..n], log.lines[..n]))
  {
    var prefix := Log(log.contents[..n], log.lines[..n]);
    forall i | 0 <= i < n ensures IsNext(w, signer, prefix.contents[i], prefix.lines, i) {
      assert IsNext(w, signer, log.contents[i], log.lines, i);
    }
    forall i | 0 <= i < n ensures Signs(w, signer, EntryAt(w, signer, prefix, i)) {
      assert EntryAt(w, signer, prefix, i) == EntryAt(w, signer, log, i);
    }
  }
}
