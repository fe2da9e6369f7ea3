/** The path rules of the MCP gate: `pathReason`, `withinEndpoint` and the rewrite in `ServeHTTP`
    (internal/mcpgate/gate.go). A byte is a character. */
module PathRules {
  import opened Strings
  import opened Wrappers

  predicate Unreserved(b: char) {
    || 'a' <= b <= 'z' || 'A' <= b <= 'Z' || '0' <= b <= '9'
    || b == '-' || b == '.' || b == '_' || b == '~'
  }

  predicate EndpointByte(b: char) {
    Unreserved(b) || b == '@' || b == ':'
  }

  /** The endpoint's wider set, or the sub-path's. */
  datatype Kind = Endpoint | SubPath

  predicate Allowed(kind: Kind, b: char) {
    if kind.Endpoint? then EndpointByte(b) else Unreserved(b)
  }

  datatype Reason = DotSegment | PercentEncoding | PathParameter | Backslash | UnlistedCharacter

  predicate IsDotSegment(segment: string) {
    segment == "." || segment == ".."
  }

  function SegmentReason(kind: Kind, segment: string, last: bool): Option<Reason> {
    if IsDotSegment(segment) then Some(DotSegment)
    else if segment == "" && !last then Some(DotSegment)
    else if '%' in segment then Some(PercentEncoding)
    else if ';' in segment then Some(PathParameter)
    else if '\\' in segment then Some(Backslash)
    else if exists b :: b in segment && !Allowed(kind, b) then Some(UnlistedCharacter)
    else None
  }

  /** Which reason a segment gets, in terms of what is in it. */
  lemma ReasonSays(kind: Kind, segment: string, last: bool)
    ensures var r := SegmentReason(kind, segment, last);
            var dots := segment == "." || segment == ".." || (segment == "" && !last);
            && (r == Some(DotSegment) <==> dots)
            && (r == Some(PercentEncoding) <==> '%' in segment)
            && (r == Some(PathParameter) <==> ';' in segment && '%' !in segment)
            && (r == Some(Backslash) <==> '\\' in segment && '%' !in segment && ';' !in segment)
            && (r == Some(UnlistedCharacter) <==>
                  && !dots && '%' !in segment && ';' !in segment && '\\' !in segment
                  && exists b :: b in segment && !('a' <= b <= 'z') && !('A' <= b <= 'Z') && !('0' <= b <= '9')
                                 && b !in "-._~" && !(kind.Endpoint? && b in "@:"))
  {
  }

  method AllBytes(kind: Kind, segment: string) returns (all: bool)
    ensures all <==> forall b :: b in segment ==> Allowed(kind, b)
  {
    for i := 0 to |segment|
      invariant forall k :: 0 <= k < i ==> Allowed(kind, segment[k])
    {
      if !Allowed(kind, segment[i]) {
        return false;
      }
    }
    return true;
  }

  /** What an accepted path looks like, segment by segment. */
  predicate CleanSegments(kind: Kind, segments: seq<string>) {
    forall i :: 0 <= i < |segments| ==>
      && !IsDotSegment(segments[i])
      && (segments[i] == "" ==> i == |segments| - 1)
      && forall b :: b in segments[i] ==> Allowed(kind, b)
  }

  /** Clean, byte by byte: no dot segment, none empty but the last, and only the bytes listed. */
  lemma CleanSays(kind: Kind, segments: seq<string>)
    ensures CleanSegments(kind, segments) <==>
              forall i :: 0 <= i < |segments| ==>
                && segments[i] != "." && segments[i] != ".." && (segments[i] == "" ==> i == |segments| - 1)
                && forall b :: b in segments[i] ==>
                     || 'a' <= b <= 'z' || 'A' <= b <= 'Z' || '0' <= b <= '9'
                     || b in "-._~" || (kind.Endpoint? && b in "@:")
  {
    assert forall b: char :: b in "-._~" <==> b == '-' || b == '.' || b == '_' || b == '~';
    assert forall b: char :: b in "@:" <==> b == '@' || b == ':';
  }

  /** Refuses exactly the paths that are not clean, for the first segment that has a reason. */
  method PathReason(kind: Kind, p: string) returns (r: Option<Reason>)
    ensures r.None? <==> CleanSegments(kind, Split(p, '/'))
    ensures r.Some? ==> exists i :: 0 <= i < |Split(p, '/')|
                                    && r == SegmentReason(kind, Split(p, '/')[i], i == |Split(p, '/')| - 1)
                                    && forall j :: 0 <= j < i ==> SegmentReason(kind, Split(p, '/')[j], false).None?
  {
    var segments := Split(p, '/');
    for i := 0 to |segments|
      invariant forall j :: 0 <= j < i ==> SegmentReason(kind, segments[j], j == |segments| - 1).None?
    {
      var segment := segments[i];
      var all := AllBytes(kind, segment);
      if segment == "." || segment == ".." {
        return Some(DotSegment);
      } else if segment == "" && i != |segments| - 1 {
        return Some(DotSegment);
      } else if '%' in segment {
        return Some(PercentEncoding);
      } else if ';' in segment {
        return Some(PathParameter);
      } else if '\\' in segment {
        return Some(Backslash);
      } else if !all {
        return Some(UnlistedCharacter);
      }
    }
    r := None;
  }

  // ----- the rewrite ---------------------------------------------------------

  function TrimSlash(s: string): string {
    if s != "" && s[|s| - 1] == '/' then s[..|s| - 1] else s
  }

  predicate WithinEndpoint(endpoint: string, forwarded: string) {
    forwarded == TrimSlash(endpoint) || TrimSlash(endpoint) + "/" <= forwarded
  }

  /** An endpoint path as the gate accepts it: the path of an http URL is empty or starts with a
      slash, and the rest was checked. */
  predicate GoodEndpoint(endpoint: string) {
    endpoint == "" || (endpoint[0] == '/' && CleanSegments(Endpoint, Split(endpoint[1..], '/')))
  }

  /** The check when the gate is built: of the endpoint less its leading slash. */
  method CheckEndpoint(path: string) returns (r: Option<Reason>)
    requires path == "" || path[0] == '/'
    ensures r.None? <==> GoodEndpoint(path)
    ensures r.None? <==> path == "" || CleanSegments(Endpoint, Split(path[1..], '/'))
  {
    r := PathReason(Endpoint, if path == "" then path else path[1..]);
  }

  predicate GoodSubPath(remainder: string) {
    CleanSegments(SubPath, Split(remainder, '/'))
  }

  function Rewritten(endpoint: string, remainder: string): string {
    if remainder != "" then TrimSlash(endpoint) + "/" + remainder else endpoint
  }

  datatype Refusal = Ambiguous(reason: Reason) | ProtocolUpgrade | EscapedEndpoint

  /** `upgrade` says whether the request asks to switch protocols. The last refusal never happens. */
  method Forward(endpoint: string, remainder: string, upgrade: bool) returns (r: Result<string, Refusal>)
    requires GoodEndpoint(endpoint)
    ensures r.Ok? <==> GoodSubPath(remainder) && !upgrade
    ensures r.Ok? <==> CleanSegments(SubPath, Split(remainder, '/')) && !upgrade
    ensures r.Ok? ==> r.value == Rewritten(endpoint, remainder)
    ensures r.Ok? ==>
              var slashed := endpoint != "" && endpoint[|endpoint| - 1] == '/';
              r.value == endpoint + if remainder == "" then "" else if slashed then remainder else "/" + remainder
    ensures r.Err? && r.error.Ambiguous? <==> !GoodSubPath(remainder)
    ensures r != Err(EscapedEndpoint)
  {
    RewriteAppends(endpoint, remainder);
    var reason := PathReason(SubPath, remainder);
    if reason.Some? {
      return Err(Ambiguous(reason.value));
    }
    if upgrade {
      return Err(ProtocolUpgrade);
    }
    var path := endpoint;
    if remainder != "" {
      path := TrimSlash(endpoint) + "/" + remainder;
    }
    RewriteStaysWithin(endpoint, remainder);
    if !WithinEndpoint(endpoint, path) {
      return Err(EscapedEndpoint);
    }
    r := Ok(path);
  }

  lemma PrefixWithSlash(base: string, path: string)
    ensures base + "/" <= path <==> |path| > |base| && path[..|base|] == base && path[|base|] == '/'
  {
    if |path| > |base| {
      assert path[..|base| + 1] == path[..|base|] + [path[|base|]];
    }
    if base + "/" <= path {
      assert (base + "/")[..|base|] == base;
    }
  }

  lemma RewriteAppends(endpoint: string, remainder: string)
    ensures var slashed := endpoint != "" && endpoint[|endpoint| - 1] == '/';
            Rewritten(endpoint, remainder)
            == endpoint + if remainder == "" then "" else if slashed then remainder else "/" + remainder
  {
    if remainder != "" && endpoint != "" && endpoint[|endpoint| - 1] == '/' {
      assert endpoint == endpoint[..|endpoint| - 1] + "/";
    }
  }

  /** The forwarded path has the segments of the endpoint, less an empty last one, and then exactly
      those of the sub-path. */
  lemma ForwardedSegments(endpoint: string, remainder: string)
    requires remainder != ""
    ensures var own, all := Split(endpoint, '/'), Split(Rewritten(endpoint, remainder), '/');
            var slashed := endpoint != "" && endpoint[|endpoint| - 1] == '/';
            all == (if slashed then own[..|own| - 1] else own) + Split(remainder, '/')
  {
    SplitConcat(TrimSlash(endpoint), '/', remainder);
    if endpoint != "" && endpoint[|endpoint| - 1] == '/' {
      assert endpoint == TrimSlash(endpoint) + ['/'] + "";
      SplitConcat(TrimSlash(endpoint), '/', "");
    }
  }

  lemma RewriteStaysWithin(endpoint: string, remainder: string)
    ensures WithinEndpoint(endpoint, Rewritten(endpoint, remainder))
    ensures forall path :: WithinEndpoint(endpoint, path) <==>
              var base := if endpoint != "" && endpoint[|endpoint| - 1] == '/' then endpoint[..|endpoint| - 1]
                          else endpoint;
              path == base || (|path| > |base| && path[..|base|] == base && path[|base|] == '/')
  {
    forall path: string
      ensures TrimSlash(endpoint) + "/" <= path <==>
                var n := |TrimSlash(endpoint)|;
                |path| > n && path[..n] == TrimSlash(endpoint) && path[n] == '/'
    {
      PrefixWithSlash(TrimSlash(endpoint), path);
    }
    if remainder == "" && endpoint != "" && endpoint[|endpoint| - 1] == '/' {
      assert TrimSlash(endpoint) + "/" == endpoint;
    }
  }

  // ----- the segments of the forwarded path ----------------------------------

  /** The leading slash apart, no segment is empty unless it is the last, none is a dot segment,
      and every byte is listed. */
  predicate Settled(path: string) {
    path == "" || (path[0] == '/' && CleanSegments(Endpoint, Split(path[1..], '/')))
  }

  lemma CleanJoined(a: seq<string>, b: seq<string>)
    requires CleanSegments(Endpoint, a) && CleanSegments(SubPath, b)
    requires a != [] ==> a[|a| - 1] != ""
    ensures CleanSegments(Endpoint, a + b)
  {
    forall i | 0 <= i < |a + b|
      ensures !IsDotSegment((a + b)[i]) && ((a + b)[i] == "" ==> i == |a + b| - 1)
      ensures forall c :: c in (a + b)[i] ==> Allowed(Endpoint, c)
    {
      if i < |a| {
        assert (a + b)[i] == a[i];
      } else {
        assert (a + b)[i] == b[i - |a|];
      }
    }
  }

  /** The last piece of a string that does not end in the separator is not empty. */
  lemma {:induction false} LastPiece(s: string, sep: char)
    ensures s != "" && s[|s| - 1] != sep ==> Split(s, sep)[|Split(s, sep)| - 1] != ""
  {
    if |s| > 1 {
      LastPiece(s[1..], sep);
    }
  }

  /** A settled path less its final slash, which is all segments and no empty one. */
  lemma BaseSegments(endpoint: string)
    requires GoodEndpoint(endpoint) && TrimSlash(endpoint) != ""
    ensures var base := TrimSlash(endpoint);
            && base[0] == '/' && CleanSegments(Endpoint, Split(base[1..], '/'))
            && Split(base[1..], '/')[|Split(base[1..], '/')| - 1] != ""
  {
    var base := TrimSlash(endpoint);
    var whole := Split(endpoint[1..], '/');
    if base == endpoint {
      assert |endpoint| > 1;
      LastPiece(endpoint[1..], '/');
    } else {
      SplitConcat(base[1..], '/', "");
      assert endpoint[1..] == base[1..] + "/" + "";
      var segments := Split(base[1..], '/');
      assert whole == segments + [""];
      forall i | 0 <= i < |segments|
        ensures !IsDotSegment(segments[i]) && segments[i] != "" && forall c :: c in segments[i] ==> Allowed(Endpoint, c)
      {
        assert whole[i] == segments[i];
      }
    }
  }

  /** What the gate forwards has only settled segments. */
  lemma RewriteIsSettled(endpoint: string, remainder: string)
    requires GoodEndpoint(endpoint) && GoodSubPath(remainder)
    ensures Settled(Rewritten(endpoint, remainder))
  {
    if remainder != "" {
      var base := TrimSlash(endpoint);
      var path := base + "/" + remainder;
      if base == "" {
        assert path[1..] == remainder;
        CleanJoined([], Split(remainder, '/'));
        assert [] + Split(remainder, '/') == Split(remainder, '/');
      } else {
        BaseSegments(endpoint);
        assert path[1..] == base[1..] + "/" + remainder;
        SplitConcat(base[1..], '/', remainder);
        CleanJoined(Split(base[1..], '/'), Split(remainder, '/'));
      }
    }
  }

  // ----- removing dot segments (RFC 3986, section 5.2.4) ---------------------

  /** The output less its last segment and the slash before it, if any. */
  function DropLastSegment(output: string): string {
    if output == "" then "" else if output[|output| - 1] == '/' then output[..|output| - 1]
    else DropLastSegment(output[..|output| - 1])
  }

  lemma {:induction false} DropLastShortens(output: string)
    ensures |DropLastSegment(output)| <= |output|
  {
    if output != "" {
      DropLastShortens(output[..|output| - 1]);
    }
  }

  /** The length of the first segment, with its slash if it starts with one. */
  function FirstSegment(input: string): (n: nat)
    requires input != ""
    ensures 0 < n <= |input|
  {
    1 + Position(input[1..], '/')
  }

  /** The algorithm of the section, its steps A to E in order. */
  function RemoveDotSegments(input: string, output: string): string
    decreases |input|
  {
    if input == "" then output
    else if "../" <= input then RemoveDotSegments(input[3..], output)
    else if "./" <= input then RemoveDotSegments(input[2..], output)
    else if "/./" <= input then RemoveDotSegments(input[2..], output)
    else if input == "/." then RemoveDotSegments("/", output)
    else if "/../" <= input then RemoveDotSegments(input[3..], DropLastSegment(output))
    else if input == "/.." then RemoveDotSegments("/", DropLastSegment(output))
    else if IsDotSegment(input) then RemoveDotSegments("", output)
    else RemoveDotSegments(input[FirstSegment(input)..], output + input[..FirstSegment(input)])
  }

  predicate NoDotSegments(segments: seq<string>) {
    forall s :: s in segments ==> !IsDotSegment(s)
  }

  lemma {:induction false} NeverLonger(input: string, output: string)
    ensures |RemoveDotSegments(input, output)| <= |input| + |output|
    decreases |input|
  {
    DropLastShortens(output);
    if input == "" {
    } else if "../" <= input {
      NeverLonger(input[3..], output);
    } else if "./" <= input {
      NeverLonger(input[2..], output);
    } else if "/./" <= input {
      NeverLonger(input[2..], output);
    } else if input == "/." {
      NeverLonger("/", output);
    } else if "/../" <= input {
      NeverLonger(input[3..], DropLastSegment(output));
    } else if input == "/.." {
      NeverLonger("/", DropLastSegment(output));
    } else if IsDotSegment(input) {
      NeverLonger("", output);
    } else {
      NeverLonger(input[FirstSegment(input)..], output + input[..FirstSegment(input)]);
    }
  }

  lemma {:induction false} NoneBefore(s: string, c: char)
    ensures c !in s[..Position(s, c)] && (Position(s, c) < |s| ==> s[Position(s, c)] == c)
  {
    if s != "" && s[0] != c {
      NoneBefore(s[1..], c);
      assert s[..Position(s, c)] == [s[0]] + s[1..][..Position(s[1..], c)];
    }
  }

  /** The first piece of a split, and the rest. */
  lemma SplitFirst(s: string, sep: char)
    ensures var k := Position(s, sep);
            && (k < |s| ==> s[k] == sep && Split(s, sep) == [s[..k]] + Split(s[k + 1..], sep))
            && (k == |s| ==> Split(s, sep) == [s])
  {
    var k := Position(s, sep);
    NoneBefore(s, sep);
    SplitSingle(s[..k], sep);
    CutAt(s, k);
    if k < |s| {
      SplitConcat(s[..k], sep, s[k + 1..]);
    }
  }

  lemma CutAt(s: string, k: nat)
    requires k <= |s|
    ensures k < |s| ==> s == s[..k] + [s[k]] + s[k + 1..]
    ensures k == |s| ==> s[..k] == s
  {
  }

  /** The first segment of an absolute path. */
  function Head(input: string): string
    requires input != ""
  {
    input[1..][..Position(input[1..], '/')]
  }

  lemma DotSegmentAhead(input: string)
    requires "/./" <= input || "/../" <= input || input == "/." || input == "/.."
    ensures IsDotSegment(Head(input))
  {
    var t := input[1..];
    if "/./" <= input {
      PositionAt(".", '/', input[3..]);
      assert t == "." + "/" + input[3..];
    } else if "/../" <= input {
      PositionAt("..", '/', input[4..]);
      assert t == ".." + "/" + input[4..];
    } else if input == "/." {
      PositionAt(".", '/', "");
      assert t == ".";
    } else {
      PositionAt("..", '/', "");
      assert t == "..";
    }
  }

  /** A first segment that is not one moves to the output. */
  lemma KeepStep(input: string, output: string)
    requires input != "" && input[0] == '/' && !IsDotSegment(Head(input))
    ensures var n := FirstSegment(input);
            RemoveDotSegments(input, output) == RemoveDotSegments(input[n..], output + input[..n])
  {
    if "/./" <= input || "/../" <= input || input == "/." || input == "/.." {
      DotSegmentAhead(input);
    }
  }

  lemma RestOfSegments(input: string)
    requires input != "" && input[0] == '/'
    ensures var n := FirstSegment(input);
            && 0 < n <= |input| && (n < |input| ==> input[n] == '/')
            && Split(input[1..], '/') == [Head(input)] + if n < |input| then Split(input[n..][1..], '/') else []
  {
    SplitFirst(input[1..], '/');
    var n := FirstSegment(input);
    if n < |input| {
      assert input[1..][n - 1] == input[n];
      assert input[n..][1..] == input[1..][n..];
    } else {
      assert Head(input) == input[1..];
    }
  }

  /** Whether there are dot segments, by the first segment and the rest. */
  lemma DotsAhead(input: string)
    requires input != "" && input[0] == '/'
    ensures var n := FirstSegment(input);
            && 0 < n <= |input| && (n < |input| ==> input[n] == '/')
            && (NoDotSegments(Split(input[1..], '/')) <==>
                  !IsDotSegment(Head(input)) && (n < |input| ==> NoDotSegments(Split(input[n..][1..], '/'))))
  {
    RestOfSegments(input);
    var n := FirstSegment(input);
    var rest := if n < |input| then Split(input[n..][1..], '/') else [];
    NoDotsInBoth(Head(input), rest);
  }

  lemma NoDotsInBoth(head: string, rest: seq<string>)
    ensures NoDotSegments([head] + rest) <==> !IsDotSegment(head) && NoDotSegments(rest)
  {
    assert head in [head] + rest;
    assert forall s :: s in rest ==> s in [head] + rest;
  }

  /** A first segment that is a dot segment is lost. */
  lemma DotStep(input: string, output: string)
    requires input != "" && input[0] == '/' && IsDotSegment(Head(input))
    ensures |RemoveDotSegments(input, output)| < |output| + |input|
  {
    var t := input[1..];
    var k := Position(t, '/');
    SplitFirst(t, '/');
    DropLastShortens(output);
    if t[..k] == "." {
      if k < |t| {
        assert input[0] == '/' && input[1] == t[0] == '.' && input[2] == t[1] == '/';
        assert "/./" <= input;
        NeverLonger(input[2..], output);
      } else {
        assert input == "/.";
        NeverLonger("/", output);
      }
    } else {
      if k < |t| {
        assert input[1] == t[0] == '.' && input[2] == t[1] == '.' && input[3] == t[2] == '/';
        assert "/../" <= input;
        NeverLonger(input[3..], DropLastSegment(output));
      } else {
        assert input == "/..";
        NeverLonger("/", DropLastSegment(output));
      }
    }
  }

  /** The algorithm leaves the path as it is, whatever it has output before. */
  ghost predicate LeftAlone(input: string) {
    forall output :: RemoveDotSegments(input, output) == output + input
  }

  /** It loses some of the path. */
  ghost predicate Shortened(input: string) {
    forall output :: |RemoveDotSegments(input, output)| < |output| + |input|
  }

  lemma DotShortens(input: string)
    requires input != "" && input[0] == '/' && IsDotSegment(Head(input))
    ensures Shortened(input)
  {
    forall output ensures |RemoveDotSegments(input, output)| < |output| + |input| {
      DotStep(input, output);
    }
  }

  lemma KeptSegment(input: string)
    requires input != "" && input[0] == '/' && !IsDotSegment(Head(input))
    ensures LeftAlone(input[FirstSegment(input)..]) ==> LeftAlone(input)
    ensures Shortened(input[FirstSegment(input)..]) ==> Shortened(input)
  {
    var n := FirstSegment(input);
    forall output
      ensures RemoveDotSegments(input, output) == RemoveDotSegments(input[n..], output + input[..n])
    {
      KeepStep(input, output);
    }
    forall output: string ensures output + input[..n] + input[n..] == output + input {
      assert input[..n] + input[n..] == input;
    }
  }

  /** An absolute path is left as it is if it has no dot segment, and loses some of it otherwise. */
  lemma {:induction false} AbsoluteCases(input: string)
    requires input == "" || input[0] == '/'
    ensures input == "" || NoDotSegments(Split(input[1..], '/')) ==> LeftAlone(input)
    ensures !(input == "" || NoDotSegments(Split(input[1..], '/'))) ==> Shortened(input)
    decreases |input|
  {
    if input == "" {
      assert forall output: string :: output + "" == output;
    } else {
      DotsAhead(input);
      if IsDotSegment(Head(input)) {
        DotShortens(input);
      } else {
        AbsoluteCases(input[FirstSegment(input)..]);
        KeptSegment(input);
      }
    }
  }

  /** An absolute path is left as it is exactly when it has no dot segment. */
  lemma AbsoluteUnchangedIff(input: string, output: string)
    requires input == "" || input[0] == '/'
    ensures RemoveDotSegments(input, output) == output + input
       <==> input == "" || NoDotSegments(Split(input[1..], '/'))
  {
    AbsoluteCases(input);
  }

  // ----- percent-decoding (RFC 3986, section 2.1) ----------------------------

  /** One pass of a decoder that knows how to read two hexadecimal digits. */
  function PercentDecode(hex: (char, char) -> Option<char>, p: string): string
    decreases |p|
  {
    if p == "" then ""
    else if p[0] == '%' && |p| >= 3 && hex(p[1], p[2]).Some? then
      [hex(p[1], p[2]).value] + PercentDecode(hex, p[3..])
    else [p[0]] + PercentDecode(hex, p[1..])
  }

  function DecodeTimes(hex: (char, char) -> Option<char>, p: string, n: nat): string
    decreases n
  {
    if n == 0 then p else DecodeTimes(hex, PercentDecode(hex, p), n - 1)
  }

  lemma {:induction false} DecodeUnchanged(hex: (char, char) -> Option<char>, p: string)
    requires '%' !in p
    ensures PercentDecode(hex, p) == p
  {
    if p != "" {
      assert p[0] in p;
      DecodeUnchanged(hex, p[1..]);
    }
  }

  lemma {:induction false} DecodeTimesUnchanged(hex: (char, char) -> Option<char>, p: string, n: nat)
    requires '%' !in p
    ensures DecodeTimes(hex, p, n) == p
  {
    if n > 0 {
      DecodeUnchanged(hex, p);
      DecodeTimesUnchanged(hex, p, n - 1);
    }
  }

  lemma {:induction false} JoinedBytes(pieces: seq<string>, sep: char, c: char)
    requires |pieces| > 0 && c in Join(pieces, sep) && c != sep
    ensures exists p :: p in pieces && c in p
  {
    if |pieces| > 1 && c !in pieces[0] {
      JoinedBytes(pieces[1..], sep, c);
      var p :| p in pieces[1..] && c in p;
      assert p in pieces;
    } else {
      assert pieces[0] in pieces;
    }
  }

  // ----- one reading of the forwarded path -----------------------------------

  lemma SettledMeansNoDots(path: string)
    requires Settled(path) && path != ""
    ensures NoDotSegments(Split(path[1..], '/')) && '%' !in path
  {
    var segments := Split(path[1..], '/');
    forall s | s in segments ensures !IsDotSegment(s) && '%' !in s {
      var i :| 0 <= i < |segments| && segments[i] == s;
      assert '%' in s ==> Allowed(Endpoint, '%');
    }
    if '%' in path {
      assert path == ['/'] + path[1..];
      JoinedBytes(segments, '/', '%');
    }
  }

  /** For every accepted endpoint and sub-path, the forwarded path is at or beneath the endpoint
      and reads the same to an origin that removes dot segments, to one that decodes any number of
      times, and to one that does both in either order. */
  lemma OneReading(hex: (char, char) -> Option<char>, endpoint: string, remainder: string, n: nat)
    requires GoodEndpoint(endpoint) && GoodSubPath(remainder)
    ensures var path := Rewritten(endpoint, remainder);
            && WithinEndpoint(endpoint, path)
            && Settled(path)
            && RemoveDotSegments(path, "") == path
            && DecodeTimes(hex, path, n) == path
            && RemoveDotSegments(DecodeTimes(hex, path, n), "") == path
            && DecodeTimes(hex, RemoveDotSegments(path, ""), n) == path
  {
    var path := Rewritten(endpoint, remainder);
    RewriteStaysWithin(endpoint, remainder);
    RewriteIsSettled(endpoint, remainder);
    if path != "" {
      SettledMeansNoDots(path);
    }
    AbsoluteUnchangedIff(path, "");
    assert "" + path == path;
    DecodeTimesUnchanged(hex, path, n);
  }
}
