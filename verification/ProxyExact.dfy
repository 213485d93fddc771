/** Exactly which request lines are accepted, and as what, described without the parsers. */
module ProxyExact {
  import opened Text
  import opened Proxy

  // ---------------------------------------------------------------- authorities

  /** `host:text`, where the colon is the last one. */
  ghost predicate WithPort(authority: string, host: string, text: string) {
    authority == host + ":" + text && ':' !in text
  }

  /** `[host]tail`, where the bracket is the first closing one. */
  ghost predicate Bracketed(authority: string, host: string, tail: string) {
    authority == "[" + host + "]" + tail && ']' !in host
  }

  lemma LastColon(host: string, text: string)
    requires ':' !in text
    ensures var a := host + ":" + text;
            RFind(a, ':') == Some(|host|) && a[..|host|] == host && a[|host| + 1..] == text
  {
    var a := host + ":" + text;
    assert a[|host| + 1..] == text;
    RFindAt(a, ':', |host|);
  }

  lemma ColonSplits(a: string, i: nat)
    requires i < |a| && a[i] == ':' && ':' !in a[i + 1..]
    ensures WithPort(a, a[..i], a[i + 1..])
  {
  }

  lemma BracketSplits(a: string, i: nat)
    requires StartsWith(a, "[") && 0 < i < |a| && a[i] == ']' && ']' !in a[..i]
    ensures Bracketed(a, a[1..i], a[i + 1..])
  {
    assert forall k :: 1 <= k < i ==> a[..i][k] == a[1..i][k - 1];
  }

  lemma BracketFound(host: string, tail: string)
    requires ']' !in host
    ensures var a := "[" + host + "]" + tail;
            && StartsWith(a, "[") && Find(a, ']') == Some(|host| + 1)
            && a[1..|host| + 1] == host && a[|host| + 2..] == tail
  {
    var a, n := "[" + host + "]" + tail, |host| + 1;
    assert a[..n] == "[" + host && a[1..n] == host && a[n + 1..] == tail;
    FindAt(a, ']', n);
  }

  /** The port written after a bracketed or plain host. */
  ghost predicate PortIs(text: string, port: nat) {
    port <= MAX_U16 && Numeral(text, port)
  }

  ghost predicate PlainWithPort(a: string, t: Target) {
    !StartsWith(a, "[") && exists text: string :: WithPort(a, t.host, text) && PortIs(text, t.port)
  }

  ghost predicate BracketedWithPort(a: string, t: Target) {
    exists text: string :: Bracketed(a, t.host, ":" + text) && PortIs(text, t.port)
  }

  ghost predicate BracketedWithoutPort(a: string, host: string) {
    exists tail: string :: Bracketed(a, host, tail) && !StartsWith(tail, ":")
  }

  lemma ColonTail(tail: string)
    requires StartsWith(tail, ":")
    ensures tail == ":" + tail[1..]
  {
  }

  /** What the bracketed form parses to. */
  lemma {:induction false} Ipv6Iff(a: string, defaultPort: nat, t: Target)
    requires StartsWith(a, "[")
    ensures ParseIpv6Authority(a, defaultPort) == Ok(t) <==>
              t.host != "" && (BracketedWithPort(a, t) || (BracketedWithoutPort(a, t.host) && t.port == defaultPort))
  {
    if ParseIpv6Authority(a, defaultPort) == Ok(t) {
      Ipv6Accepted(a, defaultPort, t);
    } else if t.host != "" {
      if text: string :| Bracketed(a, t.host, ":" + text) && PortIs(text, t.port) {
        Ipv6WithPort(a, defaultPort, t, text);
      }
      if tail: string :| Bracketed(a, t.host, tail) && !StartsWith(tail, ":") {
        Ipv6WithoutPort(a, defaultPort, t.host, tail);
      }
    }
  }

  lemma Ipv6WithPort(a: string, defaultPort: nat, t: Target, text: string)
    requires Bracketed(a, t.host, ":" + text) && PortIs(text, t.port) && t.host != ""
    ensures StartsWith(a, "[") && ParseIpv6Authority(a, defaultPort) == Ok(t)
  {
    BracketFound(t.host, ":" + text);
    ParseUnsignedIff(text, MAX_U16, t.port);
    ColonThen("", text);
  }

  lemma Ipv6WithoutPort(a: string, defaultPort: nat, host: string, tail: string)
    requires Bracketed(a, host, tail) && !StartsWith(tail, ":") && host != ""
    ensures StartsWith(a, "[") && ParseIpv6Authority(a, defaultPort) == Ok(Target(host, defaultPort))
  {
    BracketFound(host, tail);
  }

  lemma Ipv6Accepted(a: string, defaultPort: nat, t: Target)
    requires StartsWith(a, "[") && ParseIpv6Authority(a, defaultPort) == Ok(t)
    ensures t.host != "" && (BracketedWithPort(a, t) || (BracketedWithoutPort(a, t.host) && t.port == defaultPort))
  {
    var i := Find(a, ']').value;
    BracketSplits(a, i);
    var tail := a[i + 1..];
    if StartsWith(tail, ":") {
      ColonTail(tail);
      ParseUnsignedIff(tail[1..], MAX_U16, t.port);
    }
  }

  lemma PlainRead(a: string, t: Target, i: nat)
    requires !StartsWith(a, "[") && i < |a| && a[i] == ':' && ':' !in a[i + 1..]
    requires t.host == a[..i] && ParseUnsigned(a[i + 1..], MAX_U16) == Some(t.port)
    ensures PlainWithPort(a, t)
  {
    ColonSplits(a, i);
    ParseUnsignedIff(a[i + 1..], MAX_U16, t.port);
  }

  lemma {:induction false} PlainWritten(a: string, t: Target, text: string)
    requires WithPort(a, t.host, text) && PortIs(text, t.port)
    ensures RFind(a, ':') == Some(|t.host|) && t.host == a[..|t.host|]
    ensures ParseUnsigned(a[|t.host| + 1..], MAX_U16) == Some(t.port)
  {
    LastColon(t.host, text);
    ParseUnsignedIff(text, MAX_U16, t.port);
  }

  /** What the plain form parses to, once its last colon is known. */
  lemma {:induction false} PlainIff(a: string, t: Target)
    requires !StartsWith(a, "[")
    ensures PlainWithPort(a, t) <==>
              var colon := RFind(a, ':');
              colon.Some? && t.host == a[..colon.value] && ParseUnsigned(a[colon.value + 1..], MAX_U16) == Some(t.port)
  {
    match RFind(a, ':') {
      case None =>
      case Some(i) =>
        if t.host == a[..i] && ParseUnsigned(a[i + 1..], MAX_U16) == Some(t.port) {
          PlainRead(a, t, i);
        }
    }
    if text: string :| WithPort(a, t.host, text) && PortIs(text, t.port) {
      PlainWritten(a, t, text);
    }
  }

  /** `host:port` or `[host]:port`, the host not empty; a bracketed host also needs a port other than 0. */
  ghost predicate NamesTarget(a: string, t: Target) {
    t.host != "" && (PlainWithPort(a, t) || (BracketedWithPort(a, t) && t.port != 0))
  }

  lemma PlainIsNotBracketed(a: string, t: Target)
    requires !StartsWith(a, "[")
    ensures !BracketedWithPort(a, t) && !BracketedWithoutPort(a, t.host)
  {
  }

  /** Exactly these authorities are accepted in a CONNECT line, each as its target. */
  lemma HostPortIff(a: string, t: Target)
    ensures ParseHostPort(a) == Ok(t) <==> NamesTarget(a, t)
  {
    if StartsWith(a, "[") {
      BracketedHostPortIff(a, t);
    } else {
      PlainHostPortIff(a, t);
    }
  }

  lemma BracketedHostPortIff(a: string, t: Target)
    requires StartsWith(a, "[")
    ensures ParseHostPort(a) == Ok(t) <==> NamesTarget(a, t)
  {
    Ipv6Iff(a, 0, t);
  }

  lemma {:induction false} PlainAccepted(a: string, t: Target)
    requires !StartsWith(a, "[") && ParseHostPort(a) == Ok(t)
    ensures NamesTarget(a, t)
  {
    PlainRead(a, t, RFind(a, ':').value);
  }

  lemma {:induction false} PlainNamed(a: string, t: Target, text: string)
    requires !StartsWith(a, "[") && WithPort(a, t.host, text) && PortIs(text, t.port) && t.host != ""
    ensures ParseHostPort(a) == Ok(t)
  {
    PlainWritten(a, t, text);
  }

  lemma PlainHostPortIff(a: string, t: Target)
    requires !StartsWith(a, "[")
    ensures ParseHostPort(a) == Ok(t) <==> NamesTarget(a, t)
  {
    if ParseHostPort(a) == Ok(t) {
      PlainAccepted(a, t);
    } else {
      PlainIsNotBracketed(a, t);
      if text: string :| WithPort(a, t.host, text) && PortIs(text, t.port) && t.host != "" {
        PlainNamed(a, t, text);
      }
    }
  }

  /** Exactly these lines are accepted as CONNECT requests, each for its target. */
  lemma {:induction false} ConnectIff(line: string, t: Target)
    ensures var tokens := SplitWhitespace(line);
            ParseConnect(line) == Ok(t) <==>
              |tokens| >= 2 && EqIgnoreCase(tokens[0], "CONNECT") && NamesTarget(tokens[1], t)
  {
    var tokens := SplitWhitespace(line);
    if |tokens| >= 2 {
      HostPortIff(tokens[1], t);
    }
  }

  // ---------------------------------------------------------------- URLs

  function DefaultPort(scheme: string): nat {
    if scheme == "http://" then 80 else 443
  }

  /** A host alone or in brackets, which takes the default port, or either form with a port. */
  ghost predicate NamesOrigin(a: string, defaultPort: nat, t: Target) {
    && t.host != ""
    && (|| (a == t.host && !StartsWith(a, "[") && ':' !in a && t.port == defaultPort)
        || PlainWithPort(a, t)
        || (BracketedWithoutPort(a, t.host) && t.port == defaultPort)
        || BracketedWithPort(a, t))
  }

  lemma UrlAuthorityIff(a: string, defaultPort: nat, t: Target)
    ensures ParseUrlAuthority(a, defaultPort) == Ok(t) && t.host != "" <==> NamesOrigin(a, defaultPort, t)
  {
    if StartsWith(a, "[") {
      Ipv6Iff(a, defaultPort, t);
    } else {
      PlainIsNotBracketed(a, t);
      PlainIff(a, t);
    }
  }

  lemma UrlSplits(url: string, scheme: string, authority: string, tail: string)
    requires IsUrl(url, scheme, authority, tail)
    ensures StripScheme(url) == Some((authority + tail, DefaultPort(scheme)))
    ensures SplitPath(authority + tail) == (authority, if tail == "" then "/" else tail)
  {
    SchemeSplits(scheme, authority + tail);
    assert scheme + (authority + tail) == scheme + authority + tail;
    if tail == "" {
      assert authority + tail == authority;
    } else {
      PathSplitsOff(authority, tail);
    }
  }

  lemma SchemeSplits(scheme: string, rest: string)
    requires scheme == "http://" || scheme == "https://"
    ensures StripScheme(scheme + rest) == Some((rest, DefaultPort(scheme)))
  {
    if scheme == "http://" {
      HttpSchemeStrips(rest);
    } else {
      assert ("https://" + rest)[8..] == rest;
    }
  }

  /** The URL of `t` with this path. */
  ghost predicate UrlOf(url: string, scheme: string, authority: string, tail: string, t: Target, path: string) {
    && IsUrl(url, scheme, authority, tail)
    && path == (if tail == "" then "/" else tail)
    && NamesOrigin(authority, DefaultPort(scheme), t)
  }

  /** Exactly the URLs with one of the two schemes and a good authority are accepted. */
  lemma UrlIff(url: string, t: Target, path: string)
    ensures ParseUrl(url) == Ok((t, path)) <==>
              exists scheme: string, authority: string, tail: string :: UrlOf(url, scheme, authority, tail, t, path)
  {
    if ParseUrl(url) == Ok((t, path)) {
      var scheme, authority, tail := UrlParts(url);
      UrlAuthorityIff(authority, DefaultPort(scheme), t);
      AcceptedUrlHasHost(url);
      assert UrlOf(url, scheme, authority, tail, t, path);
    }
    if scheme: string, authority: string, tail: string :| UrlOf(url, scheme, authority, tail, t, path) {
      UrlSplits(url, scheme, authority, tail);
      UrlAuthorityIff(authority, DefaultPort(scheme), t);
      ParseUrlOfParts(url, authority + tail, DefaultPort(scheme), authority, path);
    }
  }

  lemma AcceptedUrlHasHost(url: string)
    requires ParseUrl(url).Ok?
    ensures ParseUrl(url).value.0.host != ""
  {
  }

  /** Exactly the lines with a method and such a URL are accepted. */
  lemma {:induction false} RequestIff(line: string, r: HttpRequest)
    ensures var tokens := SplitWhitespace(line);
            ParseHttpRequest(line) == Ok(r) <==>
              && |tokens| >= 2 && r.verb == tokens[0]
              && exists scheme: string, authority: string, tail: string ::
                   UrlOf(tokens[1], scheme, authority, tail, Target(r.host, r.port), r.path)
  {
    var tokens := SplitWhitespace(line);
    if |tokens| >= 2 {
      UrlIff(tokens[1], Target(r.host, r.port), r.path);
    }
  }

  // ---------------------------------------------------------------- usual requests

  /** A method, a URL and a version, separated by single spaces. */
  function Line(verb: string, url: string): string {
    verb + " " + url + " " + "HTTP/1.1"
  }

  predicate UsualHost(host: string) {
    PlainHost(host) && NoSpace(host) && '/' !in host && ':' !in host
  }

  predicate UsualTail(tail: string) {
    NoSpace(tail) && (tail == "" || tail[0] == '/')
  }

  /** Without a port the scheme decides it: 80 for http, 443 for https. */
  lemma RequestWithoutPort(verb: string, scheme: string, host: string, tail: string)
    requires verb != "" && NoSpace(verb) && (scheme == "http://" || scheme == "https://")
    requires UsualHost(host) && UsualTail(tail)
    ensures ParseHttpRequest(Line(verb, scheme + host + tail))
         == Ok(HttpRequest(verb, host, if scheme == "http://" then 80 else 443, if tail == "" then "/" else tail))
  {
    var t, path := Target(host, DefaultPort(scheme)), if tail == "" then "/" else tail;
    assert UrlOf(scheme + host + tail, scheme, host, tail, t, path);
    UrlIff(scheme + host + tail, t, path);
    NoSpaceInParts(scheme, host, tail);
    RequestOfTokens(verb, scheme + host + tail);
  }

  lemma NoSpaceInParts(scheme: string, authority: string, tail: string)
    requires (scheme == "http://" || scheme == "https://") && NoSpace(authority) && NoSpace(tail)
    ensures scheme + authority + tail != "" && NoSpace(scheme + authority + tail)
  {
    assert NoSpace(scheme);
  }

  /** A written port is taken, whatever the scheme. */
  lemma RequestWithPort(verb: string, scheme: string, host: string, port: nat, tail: string)
    requires verb != "" && NoSpace(verb) && (scheme == "http://" || scheme == "https://")
    requires UsualHost(host) && port <= MAX_U16 && UsualTail(tail)
    ensures ParseHttpRequest(Line(verb, scheme + Authority(Target(host, port)) + tail))
         == Ok(HttpRequest(verb, host, port, if tail == "" then "/" else tail))
  {
    var t, path := Target(host, port), if tail == "" then "/" else tail;
    var a := Authority(t);
    AuthorityNames(t);
    assert UrlOf(scheme + a + tail, scheme, a, tail, t, path);
    UrlIff(scheme + a + tail, t, path);
    NoSpaceInParts(scheme, a, tail);
    RequestOfTokens(verb, scheme + a + tail);
  }

  lemma AuthorityNames(t: Target)
    requires UsualHost(t.host) && t.port <= MAX_U16
    ensures var a := Authority(t); PlainWithPort(a, t) && '/' !in a && NoSpace(a)
  {
    DecimalNumeral(t.port);
    DigitsAreNotSpaces(Decimal(t.port));
    assert Authority(t)[0] == t.host[0];
    assert WithPort(Authority(t), t.host, Decimal(t.port)) && PortIs(Decimal(t.port), t.port);
  }

  lemma DecimalNumeral(n: nat)
    ensures Numeral(Decimal(n), n)
  {
    assert Zeros(0) + Decimal(n) == Decimal(n);
  }
}
