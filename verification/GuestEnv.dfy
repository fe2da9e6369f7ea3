/** The environment and command line handed to the guest (internal/sandbox/firecracker.go,
    pkg/manifest/credentials.go). */
module GuestEnv {
  import opened Strings
  import opened Wrappers

  // ----- names ---------------------------------------------------------------

  predicate Letter(c: char) {
    'A' <= c <= 'Z' || 'a' <= c <= 'z' || c == '_'
  }

  predicate Numeral(c: char) {
    '0' <= c <= '9'
  }

  /** POSIX's portable variable names. */
  predicate ValidName(name: string) {
    name != "" && Letter(name[0]) && forall c :: c in name ==> Letter(c) || Numeral(c)
  }

  datatype NameError = EmptyName | LeadingDigit | BadCharacter

  method ValidateCredentialName(name: string) returns (r: Option<NameError>)
    ensures r.None? <==> ValidName(name)
    ensures r == Some(EmptyName) <==> name == ""
    ensures r == Some(LeadingDigit) <==> name != "" && Numeral(name[0])
    ensures r.None? <==>
              && name != "" && !('0' <= name[0] <= '9')
              && forall c :: c in name ==> 'A' <= c <= 'Z' || 'a' <= c <= 'z' || c == '_' || '0' <= c <= '9'
  {
    if name == "" {
      return Some(EmptyName);
    }
    for i := 0 to |name|
      invariant forall k :: 0 <= k < i ==> Letter(name[k]) || Numeral(name[k])
      invariant i > 0 ==> !Numeral(name[0])
    {
      if !Letter(name[i]) {
        if !Numeral(name[i]) {
          return Some(BadCharacter);
        }
        if i == 0 {
          return Some(LeadingDigit);
        }
      }
    }
    r := None;
  }

  // ----- guestEnv ------------------------------------------------------------

  type Env = map<string, string>

  /** The proxy listens on the gateway's address. */
  function ProxyURL(gatewayIP: string): string {
    "http://" + gatewayIP + ":3128"
  }

  function Infrastructure(guestIP: string, gatewayIP: string): Env {
    var proxyURL := ProxyURL(gatewayIP);
    map["HTTP_PROXY" := proxyURL, "HTTPS_PROXY" := proxyURL, "http_proxy" := proxyURL, "https_proxy" := proxyURL,
        "ALL_PROXY" := proxyURL, "all_proxy" := proxyURL, "FTP_PROXY" := proxyURL, "ftp_proxy" := proxyURL,
        "NO_PROXY" := "", "no_proxy" := "",
        "CONSTLE_GUEST_CIDR" := guestIP + "/30", "CONSTLE_GATEWAY_IP" := gatewayIP]
  }

  /** One of the three loops: every variable of `from` overwrites, in any order. */
  method Overwrite(env: Env, from: Env) returns (out: Env)
    ensures forall k :: k in out <==> k in env || k in from
    ensures forall k :: k in out ==> out[k] == if k in from then from[k] else env[k]
  {
    out := env;
    var left := from.Keys;
    while left != {}
      invariant left <= from.Keys
      invariant forall k :: k in out <==> k in env || (k in from && k !in left)
      invariant forall k :: k in out ==> out[k] == if k in from && k !in left then from[k] else env[k]
      decreases |left|
    {
      var k :| k in left;
      out := out[k := from[k]];
      left := left - {k};
    }
  }

  /** What the run builds always wins: the gate's variables over the infrastructure's, and both
      over a credential of the same name. */
  ghost predicate Composed(infra: Env, credEnv: Env, gateEnv: Env, env: Env) {
    && (forall k :: k in env <==> k in credEnv || k in infra || k in gateEnv)
    && (forall k :: k in env ==>
          env[k] == if k in gateEnv then gateEnv[k] else if k in infra then infra[k] else credEnv[k])
  }

  /** Name by name: the gate's variables as they are, the proxy names with the address of the proxy on
      the gateway, the exemption empty, the guest and the gateway by their addresses, and the
      credentials under every other name. */
  lemma ComposedSays(guestIP: string, gatewayIP: string, credEnv: Env, gateEnv: Env, env: Env)
    requires Composed(Infrastructure(guestIP, gatewayIP), credEnv, gateEnv, env)
    ensures forall k :: k in gateEnv ==> k in env && env[k] == gateEnv[k]
    ensures forall k :: k in env && k !in gateEnv ==>
              if k in {"HTTP_PROXY", "HTTPS_PROXY", "http_proxy", "https_proxy", "ALL_PROXY", "all_proxy", "FTP_PROXY",
                       "ftp_proxy"} then env[k] == "http://" + gatewayIP + ":3128"
              else if k in {"NO_PROXY", "no_proxy"} then env[k] == ""
              else if k == "CONSTLE_GUEST_CIDR" then env[k] == guestIP + "/30"
              else if k == "CONSTLE_GATEWAY_IP" then env[k] == gatewayIP
              else k in credEnv && env[k] == credEnv[k]
    ensures forall k :: k in credEnv || k in gateEnv || k in Infrastructure(guestIP, gatewayIP) ==> k in env
  {
  }

  method BuildGuestEnv(guestIP: string, gatewayIP: string, credEnv: Env, gateEnv: Env)
    returns (env: Env)
    ensures Composed(Infrastructure(guestIP, gatewayIP), credEnv, gateEnv, env)
  {
    env := Overwrite(map[], credEnv);
    env := Overwrite(env, Infrastructure(guestIP, gatewayIP));
    env := Overwrite(env, gateEnv);
  }

  // ----- reserved names ------------------------------------------------------

  function Upper(s: string): (u: string)
    ensures |u| == |s|
  {
    seq(|s|, i requires 0 <= i < |s| => if 'a' <= s[i] <= 'z' then s[i] - 'a' + 'A' else s[i])
  }

  predicate ReservedCredentialName(name: string) {
    "CONSTLE_" <= Upper(name) || Upper(name) in {"HTTP_PROXY", "HTTPS_PROXY", "FTP_PROXY", "ALL_PROXY", "NO_PROXY"}
  }

  /** The two characters are the same letter, case apart, or the same character. */
  predicate SameLetter(c: char, d: char) {
    c == d || ('a' <= c <= 'z' && d as int == c as int - 32) || ('A' <= c <= 'Z' && d as int == c as int + 32)
  }

  predicate SameIgnoringCase(a: string, b: string) {
    |a| == |b| && forall i :: 0 <= i < |a| ==> SameLetter(a[i], b[i])
  }

  predicate NoSmall(s: string) {
    forall i :: 0 <= i < |s| ==> !('a' <= s[i] <= 'z')
  }

  lemma UpperIsCaseBlind(name: string, capital: string)
    requires NoSmall(capital)
    ensures Upper(name) == capital <==> SameIgnoringCase(name, capital)
    ensures capital <= Upper(name) <==> |name| >= |capital| && SameIgnoringCase(name[..|capital|], capital)
  {
    if Upper(name) == capital {
      forall i | 0 <= i < |name| ensures SameLetter(name[i], capital[i]) {
        assert Upper(name)[i] == capital[i];
      }
    }
    if capital <= Upper(name) {
      forall i | 0 <= i < |capital| ensures SameLetter(name[i], capital[i]) {
        assert Upper(name)[i] == capital[i];
      }
    }
  }

  lemma CapitalsHaveNoSmall()
    ensures NoSmall("CONSTLE_") && NoSmall("HTTP_PROXY") && NoSmall("HTTPS_PROXY")
    ensures NoSmall("FTP_PROXY") && NoSmall("ALL_PROXY") && NoSmall("NO_PROXY")
  {
  }

  /** A name is reserved exactly if it is one of the proxy names, or starts with the prefix, case apart. */
  lemma ReservedIff(name: string)
    ensures ReservedCredentialName(name) <==>
              || (|name| >= 8 && SameIgnoringCase(name[..8], "CONSTLE_"))
              || SameIgnoringCase(name, "HTTP_PROXY") || SameIgnoringCase(name, "HTTPS_PROXY")
              || SameIgnoringCase(name, "FTP_PROXY") || SameIgnoringCase(name, "ALL_PROXY")
              || SameIgnoringCase(name, "NO_PROXY")
  {
    CapitalsHaveNoSmall();
    UpperIsCaseBlind(name, "CONSTLE_");
    UpperIsCaseBlind(name, "HTTP_PROXY");
    UpperIsCaseBlind(name, "HTTPS_PROXY");
    UpperIsCaseBlind(name, "FTP_PROXY");
    UpperIsCaseBlind(name, "ALL_PROXY");
    UpperIsCaseBlind(name, "NO_PROXY");
  }

  lemma SmallIsReserved()
    ensures Upper("http_proxy") == "HTTP_PROXY" && Upper("https_proxy") == "HTTPS_PROXY"
    ensures Upper("ftp_proxy") == "FTP_PROXY" && Upper("all_proxy") == "ALL_PROXY" && Upper("no_proxy") == "NO_PROXY"
  {
  }

  lemma CapitalIsReserved()
    ensures Upper("HTTP_PROXY") == "HTTP_PROXY" && Upper("HTTPS_PROXY") == "HTTPS_PROXY"
    ensures Upper("FTP_PROXY") == "FTP_PROXY" && Upper("ALL_PROXY") == "ALL_PROXY" && Upper("NO_PROXY") == "NO_PROXY"
    ensures "CONSTLE_" <= Upper("CONSTLE_GUEST_CIDR") && "CONSTLE_" <= Upper("CONSTLE_GATEWAY_IP")
  {
  }

  /** Every name the runtime writes of its own is reserved. */
  lemma WrittenIsReserved(guestIP: string, gatewayIP: string, name: string)
    requires name in Infrastructure(guestIP, gatewayIP)
    ensures ReservedCredentialName(name)
  {
    SmallIsReserved();
    CapitalIsReserved();
  }

  predicate NoCapital(name: string) {
    forall c :: c in name ==> !('A' <= c <= 'Z')
  }

  /** And of every reserved proxy name the runtime writes both spellings that have one case. */
  lemma ReservedIsWritten(guestIP: string, gatewayIP: string, name: string)
    requires Upper(name) in {"HTTP_PROXY", "HTTPS_PROXY", "FTP_PROXY", "ALL_PROXY", "NO_PROXY"}
    requires NoCapital(name) || name == Upper(name)
    ensures name in Infrastructure(guestIP, gatewayIP)
  {
    SmallIsReserved();
    if NoCapital(name) {
      NoneIsCapital();
      UpperIsInjective(name, "http_proxy");
      UpperIsInjective(name, "https_proxy");
      UpperIsInjective(name, "ftp_proxy");
      UpperIsInjective(name, "all_proxy");
      UpperIsInjective(name, "no_proxy");
    }
  }

  lemma NoneIsCapital()
    ensures NoCapital("http_proxy") && NoCapital("https_proxy") && NoCapital("ftp_proxy")
    ensures NoCapital("all_proxy") && NoCapital("no_proxy")
  {
  }

  lemma UpperIsInjective(a: string, b: string)
    requires NoCapital(a) && NoCapital(b)
    ensures Upper(a) == Upper(b) ==> a == b
  {
    if Upper(a) == Upper(b) {
      forall i | 0 <= i < |a| ensures a[i] == b[i] {
        assert a[i] in a && b[i] in b;
        assert Upper(a)[i] == Upper(b)[i];
      }
    }
  }

  /** A credential whose name is not reserved reaches the guest with its own value, as long as the
      gate's names are reserved ones; and no credential changes what the run builds. */
  lemma CredentialsSurvive(infra: Env, guestIP: string, gatewayIP: string,
                           credEnv: Env, gateEnv: Env, env: Env, name: string)
    requires infra == Infrastructure(guestIP, gatewayIP) && Composed(infra, credEnv, gateEnv, env)
    requires forall k :: k in gateEnv ==> ReservedCredentialName(k)
    ensures name in credEnv && !ReservedCredentialName(name) ==> name in env && env[name] == credEnv[name]
    ensures name in infra && name !in gateEnv ==> name in env && env[name] == infra[name]
    ensures name in gateEnv ==> name in env && env[name] == gateEnv[name]
  {
    if name in infra {
      WrittenIsReserved(guestIP, gatewayIP, name);
    }
  }

  // ----- the sorted keys -----------------------------------------------------

  predicate Ascending(order: seq<string>) {
    forall i, j :: 0 <= i < j < |order| ==> Less(order[i], order[j])
  }

  ghost predicate SortedKeys(env: Env, order: seq<string>) {
    Ascending(order) && forall k :: k in order <==> k in env
  }

  /** One order only: the same environment renders to the same bytes every time. */
  lemma {:induction false} OneOrder(p: seq<string>, q: seq<string>)
    requires Ascending(p) && Ascending(q) && forall k :: k in p <==> k in q
    ensures p == q
    decreases |p|
  {
    assert q != [] ==> q[0] in q && q[0] in p;
    if p != [] {
      assert p[0] in q;
      assert q[0] in p;
      LessTrichotomy(p[0], q[0]);
      var i :| 0 <= i < |q| && q[i] == p[0];
      var j :| 0 <= j < |p| && p[j] == q[0];
      assert p[0] == q[0];
      forall k ensures k in p[1..] <==> k in q[1..] {
        Tail(p, k);
        Tail(q, k);
      }
      OneOrder(p[1..], q[1..]);
      assert p == [p[0]] + p[1..] && q == [q[0]] + q[1..];
    }
  }

  lemma Tail(p: seq<string>, k: string)
    requires Ascending(p) && p != []
    ensures k in p[1..] <==> k in p && k != p[0]
  {
    LessTrichotomy(k, k);
    if k in p && k != p[0] {
      var i :| 0 <= i < |p| && p[i] == k;
      assert p[1..][i - 1] == k;
    }
    if k in p[1..] {
      var i :| 0 <= i < |p| - 1 && p[1..][i] == k;
      assert Less(p[0], p[i + 1]);
    }
  }

  method SortKeys(env: Env) returns (order: seq<string>)
    ensures SortedKeys(env, order)
  {
    order := [];
    var left := env.Keys;
    while left != {}
      invariant left <= env.Keys && Ascending(order)
      invariant forall k :: k in order <==> k in env && k !in left
      decreases |left|
    {
      var k :| k in left;
      order := Insert(order, k);
      left := left - {k};
    }
  }

  method Insert(order: seq<string>, k: string) returns (r: seq<string>)
    requires Ascending(order) && k !in order
    ensures Ascending(r) && forall x :: x in r <==> x in order || x == k
  {
    var i := 0;
    while i < |order| && Less(order[i], k)
      invariant 0 <= i <= |order| && forall j :: 0 <= j < i ==> Less(order[j], k)
    {
      i := i + 1;
    }
    r := order[..i] + [k] + order[i..];
    InsertKeepsOrder(order, i, k);
    InsertAddsOne(order, i, k);
  }

  lemma InsertKeepsOrder(order: seq<string>, i: nat, k: string)
    requires Ascending(order) && i <= |order| && k !in order
    requires (forall j :: 0 <= j < i ==> Less(order[j], k)) && (i < |order| ==> !Less(order[i], k))
    ensures Ascending(order[..i] + [k] + order[i..])
  {
    forall j | i <= j < |order| ensures Less(k, order[j]) {
      LessTrichotomy(order[i], k);
      if j > i { LessTransitive(k, order[i], order[j]); }
    }
  }

  lemma InsertAddsOne(order: seq<string>, i: nat, k: string)
    requires i <= |order|
    ensures forall x :: x in order[..i] + [k] + order[i..] <==> x in order || x == k
  {
    assert order == order[..i] + order[i..];
  }

  // ----- rendering -----------------------------------------------------------

  /** strings.ReplaceAll(s, "'", `'\''`) */
  function Quoted(s: string): string {
    if s == "" then "" else (if s[0] == '\'' then "'\\''" else [s[0]]) + Quoted(s[1..])
  }

  function ExportLine(k: string, v: string): string {
    "export " + k + "='" + Quoted(v) + "'\n"
  }

  function Exports(env: Env, order: seq<string>): string
    requires forall k :: k in order ==> k in env
  {
    if order == [] then ""
    else
      var n := |order| - 1;
      assert order[n] in order;
      assert forall k :: k in order[..n] ==> k in order;
      Exports(env, order[..n]) + ExportLine(order[n], env[order[n]])
  }

  method RenderGuestEnvFile(env: Env) returns (r: Option<string>)
    ensures r.Some? <==> forall k :: k in env ==> ValidName(k)
    ensures r.Some? ==> exists order :: SortedKeys(env, order) && r.value == Exports(env, order)
  {
    var order := SortKeys(env);
    var out := "";
    for i := 0 to |order|
      invariant forall j :: 0 <= j < i ==> ValidName(order[j])
      invariant forall k :: k in order[..i] ==> k in env
      invariant out == Exports(env, order[..i])
    {
      var k := order[i];
      assert k in order;
      var bad := ValidateCredentialName(k);
      if bad.Some? {
        return None;
      }
      assert order[..i + 1][..i] == order[..i];
      out := out + ExportLine(k, env[k]);
    }
    assert order[..|order|] == order;
    r := Some(out);
  }

  function QuotedArgs(argv: seq<string>): string {
    if argv == [] then "" else QuotedArgs(argv[..|argv| - 1]) + " '" + Quoted(argv[|argv| - 1]) + "'"
  }

  /** The command script of a declared command. */
  function CommandScript(argv: seq<string>): string {
    "#!/bin/sh\nexec" + QuotedArgs(argv) + "\n"
  }

  /** The quoting loop, and the join with single spaces; no declared command runs the image's own. */
  method RenderCommand(argv: seq<string>) returns (script: string)
    ensures script == if argv == [] then "#!/bin/sh\nexec sh /constle/default-cmd\n" else CommandScript(argv)
  {
    if argv == [] {
      return "#!/bin/sh\nexec sh /constle/default-cmd\n";
    }
    var line := "";
    for i := 0 to |argv|
      invariant line == QuotedArgs(argv[..i])
    {
      assert argv[..i + 1][..i] == argv[..i];
      line := line + " '" + Quoted(argv[i]) + "'";
    }
    assert argv[..|argv|] == argv;
    script := "#!/bin/sh\nexec" + line + "\n";
  }
}
