/** Request-line parsing of the proxy: authority-form CONNECT targets and absolute-form URLs. */
module Proxy {
  import opened Text

  datatype ProxyError = MalformedLine | NotConnect | NotAbsolute | BadIpv6 | BadPort | MissingPort | EmptyHost

  datatype Result<T> = Ok(value: T) | Err(error: ProxyError)

  datatype Target = Target(host: string, port: nat)

  datatype HttpRequest = HttpRequest(verb: string, host: string, port: nat, path: string)

  function AsciiUpper(c: char): char {
    if 'a' <= c <= 'z' then ((c as int) - 32) as char else c
  }

  predicate EqIgnoreCase(a: string, b: string) {
    |a| == |b| && forall i :: 0 <= i < |a| ==> AsciiUpper(a[i]) == AsciiUpper(b[i])
  }

  /** `[host]:port` or `[host]`. */
  function ParseIpv6Authority(authority: string, defaultPort: nat): Result<Target>
    requires StartsWith(authority, "[")
  {
    match Find(authority, ']')
    case None => Err(BadIpv6)
    case Some(closing) =>
      var host := authority[1..closing];
      var remainder := authority[closing + 1..];
      var port := if StartsWith(remainder, ":") then ParseUnsigned(remainder[1..], MAX_U16) else Some(defaultPort);
      if port.None? then Err(BadPort)
      else if host == "" then Err(EmptyHost)
      else Ok(Target(host, port.value))
  }

  /** `host:port`, split at the last colon. */
  function ParseHostPort(authority: string): Result<Target> {
    if StartsWith(authority, "[") then
      match ParseIpv6Authority(authority, 0)
      case Err(e) => Err(e)
      case Ok(t) => if t.port == 0 then Err(MissingPort) else Ok(t)
    else
      match RFind(authority, ':')
      case None => Err(MissingPort)
      case Some(i) =>
        var port := ParseUnsigned(authority[i + 1..], MAX_U16);
        if port.None? then Err(BadPort)
        else if i == 0 then Err(EmptyHost)
        else Ok(Target(authority[..i], port.value))
  }

  function ParseConnect(line: string): Result<Target> {
    var parts := SplitWhitespace(line);
    if |parts| < 2 then Err(MalformedLine)
    else if !EqIgnoreCase(parts[0], "CONNECT") then Err(NotConnect)
    else ParseHostPort(parts[1])
  }

  /** Scheme stripped, with the port it implies. */
  function StripScheme(url: string): Option<(string, nat)> {
    if StartsWith(url, "https://") then Some((url[8..], 443))
    else if StartsWith(url, "http://") then Some((url[7..], 80))
    else None
  }

  /** Authority and path; the path is "/" when the URL has none. */
  function SplitPath(rest: string): (string, string) {
    match Find(rest, '/')
    case Some(i) => (rest[..i], rest[i..])
    case None => (rest, "/")
  }

  function ParseUrlAuthority(authority: string, defaultPort: nat): Result<Target> {
    if StartsWith(authority, "[") then ParseIpv6Authority(authority, defaultPort)
    else
      match RFind(authority, ':')
      case None => Ok(Target(authority, defaultPort))
      case Some(i) =>
        var port := ParseUnsigned(authority[i + 1..], MAX_U16);
        if port.None? then Err(BadPort) else Ok(Target(authority[..i], port.value))
  }

  function ParseUrl(url: string): Result<(Target, string)> {
    match StripScheme(url)
    case None => Err(NotAbsolute)
    case Some((rest, defaultPort)) =>
      var (authority, path) := SplitPath(rest);
      match ParseUrlAuthority(authority, defaultPort)
      case Err(e) => Err(e)
      case Ok(t) => if t.host == "" then Err(EmptyHost) else Ok((t, path))
  }

  function ParseHttpRequest(line: string): Result<HttpRequest> {
    var parts := SplitWhitespace(line);
    if |parts| < 2 then Err(MalformedLine)
    else
      match ParseUrl(parts[1])
      case Err(e) => Err(e)
      case Ok((t, path)) => Ok(HttpRequest(parts[0], t.host, t.port, path))
  }

  /** The origin-form request line sent into the tunnel, without its CRLF. */
  function RewrittenLine(r: HttpRequest): string {
    r.verb + " " + r.path + " " + "HTTP/1.1"
  }

  // ---------------------------------------------------------------- printing targets

  function Authority(t: Target): string {
    t.host + ":" + Decimal(t.port)
  }

  /** The request line the CONNECT transport sends to an upstream proxy. */
  function ConnectLine(t: Target): string {
    "CONNECT" + " " + Authority(t) + " " + "HTTP/1.1"
  }

  /** A request for the same resource in absolute form, port written out. */
  function AbsoluteLine(r: HttpRequest): string {
    r.verb + " " + AbsoluteUrl(r) + " " + "HTTP/1.1"
  }

  function AbsoluteUrl(r: HttpRequest): string {
    "http://" + (Authority(Target(r.host, r.port)) + r.path)
  }

  /** What both parsers can tell apart: a host that is not mistaken for a bracketed address. */
  predicate PlainHost(host: string) {
    host != "" && host[0] != '['
  }

  // ---------------------------------------------------------------- authority

  lemma {:induction false} AuthorityLastColon(t: Target)
    ensures RFind(Authority(t), ':') == Some(|t.host|)
    ensures Authority(t)[..|t.host|] == t.host && Authority(t)[|t.host| + 1..] == Decimal(t.port)
  {
    DigitsAreNotSpaces(Decimal(t.port));
    RFindAt(Authority(t), ':', |t.host|);
  }

  /**
   * Both parsers read a printed authority back exactly when the host is plain. A host starting
   * with `[` is taken for an address literal and loses at least its first character.
   */
  lemma {:induction false} HostPortRoundTrip(t: Target)
    requires t.port <= MAX_U16
    ensures ParseHostPort(Authority(t)) == Ok(t) <==> PlainHost(t.host)
  {
    AuthorityLastColon(t);
    ParseOfDecimal(t.port, MAX_U16);
    if t.host != "" && t.host[0] == '[' {
      BracketHostShrinks(t, 0);
    }
  }

  lemma {:induction false} UrlAuthorityRoundTrip(t: Target, defaultPort: nat)
    requires t.port <= MAX_U16 && t.host != ""
    ensures ParseUrlAuthority(Authority(t), defaultPort) == Ok(t) <==> PlainHost(t.host)
  {
    AuthorityLastColon(t);
    ParseOfDecimal(t.port, MAX_U16);
    if t.host[0] == '[' {
      BracketHostShrinks(t, defaultPort);
    }
  }

  lemma BracketHostShrinks(t: Target, defaultPort: nat)
    requires StartsWith(t.host, "[")
    ensures var r := ParseIpv6Authority(Authority(t), defaultPort);
            r.Ok? ==> |r.value.host| < |t.host|
  {
    var tail := ":" + Decimal(t.port);
    DigitsAreNotSpaces(Decimal(t.port));
    assert Authority(t) == t.host + tail;
    assert forall k :: |t.host| <= k < |Authority(t)| ==> Authority(t)[k] == tail[k - |t.host|] != ']';
  }

  /** A piece of a text has no spaces, and no slash, if the text has none. */
  lemma PieceWithin(s: string, i: nat, j: nat)
    requires i <= j <= |s|
    ensures NoSpace(s) ==> NoSpace(s[i..j])
    ensures '/' !in s ==> '/' !in s[i..j]
  {
  }

  lemma Ipv6HostWithin(authority: string, defaultPort: nat)
    requires NoSpace(authority) && StartsWith(authority, "[")
    ensures var r := ParseIpv6Authority(authority, defaultPort);
            r.Ok? ==>
              && r.value.host != "" && NoSpace(r.value.host) && (defaultPort <= MAX_U16 ==> r.value.port <= MAX_U16)
              && ('/' !in authority ==> '/' !in r.value.host)
  {
    match Find(authority, ']') {
      case None =>
      case Some(closing) =>
        if closing > 0 {
          PieceWithin(authority, 1, closing);
        }
    }
  }

  /** Parsed hosts are substrings of the authority: no spaces appear, and no slash. */
  lemma HostWithinAuthority(authority: string, defaultPort: nat)
    requires NoSpace(authority)
    ensures var r := ParseHostPort(authority);
            r.Ok? ==> r.value.host != "" && NoSpace(r.value.host) && r.value.port <= MAX_U16
    ensures var r := ParseUrlAuthority(authority, defaultPort);
            r.Ok? ==>
              && NoSpace(r.value.host) && (defaultPort <= MAX_U16 ==> r.value.port <= MAX_U16)
              && ('/' !in authority ==> '/' !in r.value.host)
  {
    if StartsWith(authority, "[") {
      Ipv6HostWithin(authority, 0);
      Ipv6HostWithin(authority, defaultPort);
    } else {
      match RFind(authority, ':') {
        case None =>
        case Some(i) =>
          PieceWithin(authority, 0, i);
          assert authority[0..i] == authority[..i];
      }
    }
  }

  /** A parsed host starts with `[` exactly when the authority starts with `[[`. */
  lemma BracketHostIff(authority: string, defaultPort: nat)
    ensures var r := ParseHostPort(authority);
            r.Ok? ==> (PlainHost(r.value.host) <==> !StartsWith(authority, "[["))
    ensures var r := ParseUrlAuthority(authority, defaultPort);
            r.Ok? && r.value.host != "" ==> (PlainHost(r.value.host) <==> !StartsWith(authority, "[["))
  {
    if StartsWith(authority, "[") {
      match Find(authority, ']') {
        case None =>
        case Some(closing) =>
          assert closing > 1 ==> authority[1..closing][0] == authority[1];
      }
    }
  }

  // ---------------------------------------------------------------- CONNECT

  /** Whatever target a CONNECT line is accepted for has a non-empty host without spaces. */
  lemma {:induction false} AcceptedConnectTarget(line: string)
    ensures var r := ParseConnect(line);
            r.Ok? ==> r.value.host != "" && NoSpace(r.value.host) && r.value.port <= MAX_U16
  {
    var parts := SplitWhitespace(line);
    if |parts| >= 2 {
      HostWithinAuthority(parts[1], 0);
    }
  }

  /**
   * CONNECT print/parse inversion, for every host and port: the printed line parses back to the
   * same target exactly when the host is non-empty, free of white space and not bracketed.
   */
  lemma ConnectRoundTrip(t: Target)
    requires t.port <= MAX_U16
    ensures ParseConnect(ConnectLine(t)) == Ok(t) <==> PlainHost(t.host) && NoSpace(t.host)
  {
    if NoSpace(t.host) {
      DigitsAreNotSpaces(Decimal(t.port));
      SplitThree("CONNECT", Authority(t), "HTTP/1.1");
      HostPortRoundTrip(t);
    } else {
      AcceptedConnectTarget(ConnectLine(t));
    }
  }

  lemma LettersAreNotSpaces(verb: string)
    requires EqIgnoreCase(verb, "CONNECT")
    ensures NoSpace(verb)
  {
    forall i | 0 <= i < |verb|
      ensures !IsSpace(verb[i])
    {
      assert AsciiUpper(verb[i]) == AsciiUpper("CONNECT"[i]) == "CONNECT"[i];
    }
  }

  /** Either case of each letter, and nothing else, is the method CONNECT. */
  lemma ConnectInAnyCase(verb: string)
    ensures EqIgnoreCase(verb, "CONNECT") <==>
              |verb| == 7 && forall i :: 0 <= i < 7 ==> verb[i] == "CONNECT"[i] || verb[i] == "connect"[i]
  {
  }

  /** The method name is matched in any ASCII case. */
  lemma AnyCaseConnect(verb: string, t: Target)
    requires EqIgnoreCase(verb, "CONNECT")
    requires PlainHost(t.host) && NoSpace(t.host) && t.port <= MAX_U16
    ensures ParseConnect(verb + " " + Authority(t) + " " + "HTTP/1.1") == Ok(t)
  {
    DigitsAreNotSpaces(Decimal(t.port));
    LettersAreNotSpaces(verb);
    SplitThree(verb, Authority(t), "HTTP/1.1");
    HostPortRoundTrip(t);
  }

  /**
   * Bracketed addresses: the brackets are stripped and the port read, in both parsers. Port 0,
   * although written, counts as missing in a CONNECT target; a URL without port gets the default.
   */
  lemma {:induction false} BracketedAddress(address: string, port: nat, defaultPort: nat)
    requires address != "" && ']' !in address && port <= MAX_U16
    ensures var literal := "[" + address + "]";
            && ParseUrlAuthority(literal, defaultPort) == Ok(Target(address, defaultPort))
            && ParseUrlAuthority(literal + ":" + Decimal(port), defaultPort) == Ok(Target(address, port))
            && ParseHostPort(literal) == Err(MissingPort)
            && ParseHostPort(literal + ":" + Decimal(port)) == (if port == 0 then Err(MissingPort) else Ok(Target(address, port)))
  {
    BracketedAlone(address, defaultPort);
    BracketedWithPort(address, port, defaultPort);
    BracketedWithPort(address, port, 0);
  }

  lemma BracketedAlone(address: string, defaultPort: nat)
    requires address != "" && ']' !in address
    ensures var literal := "[" + address + "]";
            ParseUrlAuthority(literal, defaultPort) == Ok(Target(address, defaultPort)) && ParseHostPort(literal) == Err(MissingPort)
  {
    BracketsStrip(address, "", defaultPort);
    BracketsStrip(address, "", 0);
    assert "[" + address + "]" + "" == "[" + address + "]";
  }

  lemma BracketedWithPort(address: string, port: nat, defaultPort: nat)
    requires address != "" && ']' !in address && port <= MAX_U16
    ensures var authority := "[" + address + "]" + ":" + Decimal(port);
            StartsWith(authority, "[") && ParseIpv6Authority(authority, defaultPort) == Ok(Target(address, port))
  {
    var remainder := ":" + Decimal(port);
    BracketsStrip(address, remainder, defaultPort);
    ParseOfDecimal(port, MAX_U16);
    ColonThen("[" + address + "]", Decimal(port));
  }

  lemma ColonThen(front: string, digits: string)
    ensures StartsWith(":" + digits, ":") && (":" + digits)[1..] == digits
    ensures front + (":" + digits) == front + ":" + digits
  {
  }

  lemma BracketsStrip(address: string, remainder: string, defaultPort: nat)
    requires address != "" && ']' !in address
    ensures var authority := "[" + address + "]" + remainder;
            var port := if StartsWith(remainder, ":") then ParseUnsigned(remainder[1..], MAX_U16) else Some(defaultPort);
            && StartsWith(authority, "[")
            && ParseIpv6Authority(authority, defaultPort) == (if port.None? then Err(BadPort) else Ok(Target(address, port.value)))
  {
    var authority := "[" + address + "]" + remainder;
    var n := |address| + 1;
    assert authority[..n] == "[" + address && authority[1..n] == address && authority[n + 1..] == remainder;
    FindAt(authority, ']', n);
  }

  /** What the next proxy makes of a target: it is printed there and parsed. */
  function Hop(t: Target): Result<Target> {
    ParseConnect(ConnectLine(t))
  }

  /** `f` applied `n` times in a row, stopping at the first error. */
  function Iterate<T>(f: T -> Result<T>, r: Result<T>, n: nat): Result<T>
    decreases n
  {
    if n == 0 || r.Err? then r else Iterate(f, f(r.value), n - 1)
  }

  lemma {:induction false} FixedPointSurvives<T>(f: T -> Result<T>, x: T, n: nat)
    requires f(x) == Ok(x)
    ensures Iterate(f, Ok(x), n) == Ok(x)
    decreases n
  {
    if n > 0 {
      FixedPointSurvives(f, x, n - 1);
    }
  }

  /** A target passed on `hops` times. */
  function Chain(r: Result<Target>, hops: nat): Result<Target> {
    Iterate(Hop, r, hops)
  }

  /**
   * Every accepted CONNECT request keeps its destination through any chain of proxies, IPv6
   * addresses with their brackets stripped included, unless its authority starts with `[[`.
   */
  lemma {:induction false} ChainKeepsTarget(line: string, hops: nat)
    requires ParseConnect(line).Ok?
    requires !StartsWith(SplitWhitespace(line)[1], "[[")
    ensures Chain(ParseConnect(line), hops) == ParseConnect(line)
  {
    AcceptedConnectTarget(line);
    BracketHostIff(SplitWhitespace(line)[1], 0);
    ConnectRoundTrip(ParseConnect(line).value);
    FixedPointSurvives(Hop, ParseConnect(line).value, hops);
  }

  /** A host that starts with a bracket and never closes it is refused by the next proxy. */
  lemma {:induction false} OpenBracketRefused(t: Target)
    requires StartsWith(t.host, "[") && ']' !in t.host && NoSpace(t.host)
    ensures Hop(t) == Err(BadIpv6)
  {
    DigitsAreNotSpaces(Decimal(t.port));
    SplitThree("CONNECT", Authority(t), "HTTP/1.1");
    assert ']' !in Authority(t);
  }

  lemma BracketsLeaveNoBracket(authority: string)
    requires StartsWith(authority, "[[") && ParseHostPort(authority).Ok?
    ensures StartsWith(ParseHostPort(authority).value.host, "[") && ']' !in ParseHostPort(authority).value.host
  {
    var closing := Find(authority, ']').value;
    assert forall k :: 1 <= k < closing ==> authority[..closing][k] == authority[1..closing][k - 1];
    assert authority[1..closing][0] == authority[1];
  }

  /** The excluded requests, once accepted, are refused by the next proxy. */
  lemma {:induction false} DoubleBracketLosesTarget(line: string)
    requires ParseConnect(line).Ok? && StartsWith(SplitWhitespace(line)[1], "[[")
    ensures Chain(ParseConnect(line), 1) == Err(BadIpv6)
  {
    AcceptedConnectTarget(line);
    BracketsLeaveNoBracket(SplitWhitespace(line)[1]);
    OpenBracketRefused(ParseConnect(line).value);
  }

  /** There are such requests. */
  lemma {:induction false} DoubleBracketExample()
    ensures var line := "CONNECT" + " " + "[[a]:1" + " " + "HTTP/1.1";
            ParseConnect(line) == Ok(Target("[a", 1)) && Chain(ParseConnect(line), 1) == Err(BadIpv6)
  {
    assert Decimal(1) == "1";
    BracketedAddress("[a", 1, 0);
    DoubleBracketText(Decimal(1));
    ExampleTokens("[[a]:1");
    DoubleBracketLosesTarget("CONNECT" + " " + "[[a]:1" + " " + "HTTP/1.1");
  }

  lemma DoubleBracketText(port: string)
    requires port == "1"
    ensures "[" + "[a" + "]" + ":" + port == "[[a]:1"
  {
  }

  lemma ExampleTokens(authority: string)
    requires authority == "[[a]:1"
    ensures SplitWhitespace("CONNECT" + " " + authority + " " + "HTTP/1.1") == ["CONNECT", authority, "HTTP/1.1"]
  {
    SplitThree("CONNECT", authority, "HTTP/1.1");
  }

  // ---------------------------------------------------------------- absolute form

  lemma SchemeParts(url: string)
    requires StripScheme(url).Some?
    ensures var (rest, port) := StripScheme(url).value;
            (url == "http://" + rest && port == 80) || (url == "https://" + rest && port == 443 && url[4] == 's')
  {
  }

  lemma PathParts(rest: string)
    ensures var (authority, path) := SplitPath(rest);
            && '/' !in authority
            && ((rest == authority + path && StartsWith(path, "/")) || (rest == authority && path == "/"))
  {
  }

  /** An accepted URL is scheme, authority and tail; the path is the tail, or "/" if there is none. */
  lemma UrlParts(url: string) returns (scheme: string, authority: string, tail: string)
    requires ParseUrl(url).Ok?
    ensures IsUrl(url, scheme, authority, tail)
    ensures ParseUrl(url).value.1 == if tail == "" then "/" else tail
    ensures ParseUrlAuthority(authority, if scheme == "http://" then 80 else 443) == Ok(ParseUrl(url).value.0)
  {
    SchemeParts(url);
    var rest := StripScheme(url).value.0;
    PathParts(rest);
    var path := SplitPath(rest).1;
    assert ParseUrl(url).value.1 == path;
    authority := SplitPath(rest).0;
    scheme := if StripScheme(url).value.1 == 80 then "http://" else "https://";
    tail := if rest == authority then "" else path;
    UrlAssembled(url, scheme, rest, authority, tail);
  }

  lemma UrlAssembled(url: string, scheme: string, rest: string, authority: string, tail: string)
    requires url == scheme + rest && rest == authority + tail
    ensures url == scheme + authority + tail
  {
    assert scheme + (authority + tail) == scheme + authority + tail;
  }

  ghost predicate IsUrl(url: string, scheme: string, authority: string, tail: string) {
    && (scheme == "http://" || scheme == "https://")
    && url == scheme + authority + tail
    && '/' !in authority
    && (tail == "" || tail[0] == '/')
  }

  /** What every accepted absolute-form request line yields. */
  lemma {:induction false} AcceptedRequest(line: string)
    requires ParseHttpRequest(line).Ok?
    ensures var r := ParseHttpRequest(line).value;
            && r.verb != "" && NoSpace(r.verb)
            && r.host != "" && NoSpace(r.host) && '/' !in r.host && r.port <= MAX_U16
            && StartsWith(r.path, "/") && NoSpace(r.path)
  {
    var parts := SplitWhitespace(line);
    var (rest, defaultPort) := StripScheme(parts[1]).value;
    assert NoSpace(rest);
    var (authority, path) := SplitPath(rest);
    HostWithinAuthority(authority, defaultPort);
  }

  /** The rewritten request line tokenises to exactly method, path and version. */
  lemma {:induction false} RewrittenLineTokens(line: string)
    requires ParseHttpRequest(line).Ok?
    ensures var r := ParseHttpRequest(line).value;
            SplitWhitespace(RewrittenLine(r)) == [r.verb, r.path, "HTTP/1.1"]
  {
    AcceptedRequest(line);
    TokensOf(ParseHttpRequest(line).value);
  }

  lemma TokensOf(r: HttpRequest)
    requires r.verb != "" && r.path != "" && NoSpace(r.verb) && NoSpace(r.path)
    ensures SplitWhitespace(RewrittenLine(r)) == [r.verb, r.path, "HTTP/1.1"]
  {
    SplitThree(r.verb, r.path, "HTTP/1.1");
  }

  /** How a URL parses once its parts are known. */
  lemma ParseUrlOfParts(url: string, rest: string, port: nat, authority: string, path: string)
    requires StripScheme(url) == Some((rest, port)) && SplitPath(rest) == (authority, path)
    ensures var t := ParseUrlAuthority(authority, port);
            ParseUrl(url) == if t.Err? then Err(t.error) else if t.value.host == "" then Err(EmptyHost) else Ok((t.value, path))
  {
  }

  lemma {:induction false} AbsoluteUrlParses(r: HttpRequest)
    requires r.host != "" && '/' !in r.host && r.port <= MAX_U16 && StartsWith(r.path, "/")
    ensures ParseUrl(AbsoluteUrl(r)) == Ok((Target(r.host, r.port), r.path)) <==> PlainHost(r.host)
  {
    var t := Target(r.host, r.port);
    HttpSchemeStrips(Authority(t) + r.path);
    NoSlashInAuthority(t);
    PathSplitsOff(Authority(t), r.path);
    ParseUrlOfParts(AbsoluteUrl(r), Authority(t) + r.path, 80, Authority(t), r.path);
    UrlAuthorityRoundTrip(t, 80);
  }

  lemma NoSlashInAuthority(t: Target)
    requires '/' !in t.host
    ensures '/' !in Authority(t)
  {
    DigitsAreNotSpaces(Decimal(t.port));
  }

  lemma HttpSchemeStrips(rest: string)
    ensures StripScheme("http://" + rest) == Some((rest, 80))
  {
    var url := "http://" + rest;
    assert url[7..] == rest && url[4] == ':';
  }

  lemma PathSplitsOff(authority: string, path: string)
    requires '/' !in authority && StartsWith(path, "/")
    ensures SplitPath(authority + path) == (authority, path)
  {
    var rest := authority + path;
    assert rest[..|authority|] == authority && rest[|authority|..] == path;
    FindAt(rest, '/', |authority|);
  }

  lemma {:induction false} AbsoluteLineParses(r: HttpRequest)
    requires r.verb != "" && NoSpace(r.verb) && NoSpace(r.host) && NoSpace(r.path)
    requires r.host != "" && '/' !in r.host && r.port <= MAX_U16 && StartsWith(r.path, "/")
    ensures ParseHttpRequest(AbsoluteLine(r)) == Ok(r) <==> PlainHost(r.host)
  {
    DigitsAreNotSpaces(Decimal(r.port));
    SplitThree(r.verb, AbsoluteUrl(r), "HTTP/1.1");
    AbsoluteUrlParses(r);
  }

  /** The authority of a URL with a known scheme. */
  function UrlAuthority(url: string): string
    requires StripScheme(url).Some?
  {
    SplitPath(StripScheme(url).value.0).0
  }

  /**
   * Absolute-form rewriting keeps meaning: printing the accepted request again in absolute form
   * and parsing it gives the same method, host, port and path, exactly when the authority of its
   * URL does not start with `[[`.
   */
  lemma {:induction false} AbsoluteRoundTrip(line: string)
    requires ParseHttpRequest(line).Ok?
    ensures var r := ParseHttpRequest(line).value;
            ParseHttpRequest(AbsoluteLine(r)) == Ok(r) <==> !StartsWith(UrlAuthority(SplitWhitespace(line)[1]), "[[")
  {
    var url := SplitWhitespace(line)[1];
    AcceptedRequest(line);
    AbsoluteLineParses(ParseHttpRequest(line).value);
    BracketHostIff(UrlAuthority(url), StripScheme(url).value.1);
  }

  lemma {:induction false} OpenBracketUrlRefused(r: HttpRequest)
    requires StartsWith(r.host, "[") && ']' !in r.host && '/' !in r.host && StartsWith(r.path, "/")
    ensures ParseUrl(AbsoluteUrl(r)) == Err(BadIpv6)
  {
    var t := Target(r.host, r.port);
    HttpSchemeStrips(Authority(t) + r.path);
    NoSlashInAuthority(t);
    PathSplitsOff(Authority(t), r.path);
    ParseUrlOfParts(AbsoluteUrl(r), Authority(t) + r.path, 80, Authority(t), r.path);
    OpenBracketAuthority(t, 80);
  }

  lemma OpenBracketAuthority(t: Target, defaultPort: nat)
    requires StartsWith(t.host, "[") && ']' !in t.host
    ensures ParseUrlAuthority(Authority(t), defaultPort) == Err(BadIpv6)
  {
    DigitsAreNotSpaces(Decimal(t.port));
    assert ']' !in Authority(t);
  }

  lemma BracketsLeaveNoBracketInUrl(authority: string, defaultPort: nat)
    requires StartsWith(authority, "[[") && ParseUrlAuthority(authority, defaultPort).Ok?
    ensures var host := ParseUrlAuthority(authority, defaultPort).value.host;
            ']' !in host && (host != "" ==> StartsWith(host, "["))
  {
    var closing := Find(authority, ']').value;
    assert forall k :: 1 <= k < closing ==> authority[..closing][k] == authority[1..closing][k - 1];
    assert closing > 1 ==> authority[1..closing][0] == authority[1];
  }

  /** A line of three tokens is read as its URL is. */
  lemma RequestOfTokens(verb: string, url: string)
    requires verb != "" && url != "" && NoSpace(verb) && NoSpace(url)
    ensures var r, t := ParseHttpRequest(verb + " " + url + " " + "HTTP/1.1"), ParseUrl(url);
            r == if t.Err? then Err(t.error) else Ok(HttpRequest(verb, t.value.0.host, t.value.0.port, t.value.1))
  {
    SplitThree(verb, url, "HTTP/1.1");
  }

  lemma NoSpaceInUrl(r: HttpRequest)
    requires NoSpace(r.host) && NoSpace(r.path)
    ensures AbsoluteUrl(r) != "" && NoSpace(AbsoluteUrl(r))
  {
    DigitsAreNotSpaces(Decimal(r.port));
  }

  lemma OpenBracketLineRefused(r: HttpRequest)
    requires r.verb != "" && NoSpace(r.verb) && NoSpace(r.host) && NoSpace(r.path)
    requires StartsWith(r.host, "[") && ']' !in r.host && '/' !in r.host && StartsWith(r.path, "/")
    ensures ParseHttpRequest(AbsoluteLine(r)) == Err(BadIpv6)
  {
    OpenBracketUrlRefused(r);
    NoSpaceInUrl(r);
    RequestOfTokens(r.verb, AbsoluteUrl(r));
  }

  /** Whose host an accepted request has. */
  lemma AcceptedHost(line: string)
    requires ParseHttpRequest(line).Ok?
    ensures var url := SplitWhitespace(line)[1];
            var t := ParseUrlAuthority(UrlAuthority(url), StripScheme(url).value.1);
            t.Ok? && t.value.host == ParseHttpRequest(line).value.host
  {
  }

  /** The excluded URLs, once accepted, are refused when reprinted. */
  lemma {:induction false} DoubleBracketUrlRefused(line: string)
    requires ParseHttpRequest(line).Ok? && StartsWith(UrlAuthority(SplitWhitespace(line)[1]), "[[")
    ensures ParseHttpRequest(AbsoluteLine(ParseHttpRequest(line).value)) == Err(BadIpv6)
  {
    var url := SplitWhitespace(line)[1];
    AcceptedRequest(line);
    AcceptedHost(line);
    BracketsLeaveNoBracketInUrl(UrlAuthority(url), StripScheme(url).value.1);
    OpenBracketLineRefused(ParseHttpRequest(line).value);
  }

  /** A bracketed address in a URL is accepted without its brackets. */
  lemma {:induction false} BracketedUrl(address: string, port: nat, path: string)
    requires address != "" && ']' !in address && '/' !in address && port <= MAX_U16 && StartsWith(path, "/")
    ensures var authority := "[" + address + "]" + ":" + Decimal(port);
            var url := "http://" + (authority + path);
            ParseUrl(url) == Ok((Target(address, port), path))
  {
    var authority := "[" + address + "]" + ":" + Decimal(port);
    BracketedAddress(address, port, 80);
    HttpSchemeStrips(authority + path);
    DigitsAreNotSpaces(Decimal(port));
    PathSplitsOff(authority, path);
    ParseUrlOfParts("http://" + (authority + path), authority + path, 80, authority, path);
  }

  /** There are such requests. */
  lemma {:induction false} DoubleBracketUrlExample(url: string, r: HttpRequest)
    requires url == "http://[[a]:1/" && r == HttpRequest("GET", "[a", 1, "/")
    ensures ParseHttpRequest(r.verb + " " + url + " " + "HTTP/1.1") == Ok(r)
    ensures ParseHttpRequest(AbsoluteLine(r)) == Err(BadIpv6)
  {
    ExampleUrlParses(url);
    ExampleParts(r);
    RequestOfTokens(r.verb, url);
    OpenBracketLineRefused(r);
  }

  lemma ExampleParts(r: HttpRequest)
    requires r == HttpRequest("GET", "[a", 1, "/")
    ensures r.verb != "" && NoSpace(r.verb) && NoSpace(r.host) && NoSpace(r.path)
    ensures StartsWith(r.host, "[") && ']' !in r.host && '/' !in r.host && StartsWith(r.path, "/")
  {
  }

  lemma {:induction false} ExampleUrlParses(url: string)
    requires url == "http://[[a]:1/"
    ensures ParseUrl(url) == Ok((Target("[a", 1), "/")) && NoSpace(url)
  {
    assert Decimal(1) == "1";
    BracketedUrl("[a", 1, "/");
    ExampleUrlText(Decimal(1), url);
  }

  lemma ExampleUrlText(port: string, url: string)
    requires port == "1" && url == "http://[[a]:1/"
    ensures "http://" + ("[" + "[a" + "]" + ":" + port + "/") == url && NoSpace(url)
  {
  }
}
