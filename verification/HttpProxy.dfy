/** The upstream HTTP CONNECT transport: the request it prints and the response head it reads. */
module HttpProxy {
  import opened Bytes
  import opened Text
  import opened Utf8
  import opened Proxy
  import opened Forward

  // ---------------------------------------------------------------- request

  /** The credentials line; `encoded` is the Base64 text of `user:pass`. */
  function AuthHeader(encoded: Option<string>): string {
    match encoded
    case None => ""
    case Some(e) => "Proxy-Authorization: Basic " + e + "\r\n"
  }

  function HostHeader(t: Target): string {
    "Host: " + Authority(t) + "\r\n"
  }

  /** Everything the transport sends before the tunnel payload. */
  function ConnectRequest(t: Target, encoded: Option<string>): string {
    ConnectLine(t) + "\r\n" + (HostHeader(t) + AuthHeader(encoded) + "\r\n")
  }

  /** The request written out, with and without credentials. */
  lemma RequestText(t: Target, credentials: string)
    ensures var target := t.host + ":" + Decimal(t.port);
            var first := "CONNECT" + " " + target + " " + "HTTP/1.1" + "\r\n";
            && ConnectRequest(t, None) == first + ("Host: " + target + "\r\n" + "" + "\r\n")
            && ConnectRequest(t, Some(credentials))
            == first + ("Host: " + target + "\r\n" + ("Proxy-Authorization: Basic " + credentials + "\r\n") + "\r\n")
  {
  }

  /** Header lines of that request. */
  function RequestHeaders(t: Target, encoded: Option<string>): seq<string> {
    [HostHeader(t)] + (if encoded.Some? then [AuthHeader(encoded)] else [])
  }

  lemma HeaderLineOk(name: string, value: string)
    requires name != "" && !IsSpace(name[0]) && '\n' !in name && '\n' !in value
    ensures ProperHeader(name + value + "\r\n")
  {
    CrLfCompletes(name + value);
    assert (name + value + "\r\n")[0] == name[0];
  }

  /** All header lines are complete and none is blank, so the receiver's header loop takes them all. */
  lemma RequestHeadersOk(t: Target, encoded: Option<string>)
    requires NoSpace(t.host) && (encoded.Some? ==> '\n' !in encoded.value)
    ensures forall i :: 0 <= i < |RequestHeaders(t, encoded)| ==> ProperHeader(RequestHeaders(t, encoded)[i])
  {
    DigitsAreNotSpaces(Decimal(t.port));
    NoNewline(Authority(t));
    HeaderLineOk("Host: ", Authority(t));
    if encoded.Some? {
      HeaderLineOk("Proxy-Authorization: Basic ", encoded.value);
    }
  }

  lemma EncodeAllOfOne(line: string)
    ensures EncodeAll([line]) == Encode(line)
  {
  }

  lemma EncodeAllOfTwo(first: string, second: string)
    ensures EncodeAll([first, second]) == Encode(first) + Encode(second)
  {
    assert [first, second][1..] == [second];
    EncodeAllOfOne(second);
  }

  lemma RequestHeadersEncode(t: Target, encoded: Option<string>)
    ensures EncodeAll(RequestHeaders(t, encoded)) == Encode(HostHeader(t) + AuthHeader(encoded))
  {
    EncodeOfTwo(HostHeader(t), AuthHeader(encoded));
    if encoded.Some? {
      EncodeAllOfTwo(HostHeader(t), AuthHeader(encoded));
      assert RequestHeaders(t, encoded) == [HostHeader(t), AuthHeader(encoded)];
    } else {
      EncodeAllOfOne(HostHeader(t));
      assert RequestHeaders(t, encoded) == [HostHeader(t)];
    }
  }

  /**
   * A CONNECT request sent by the transport, followed by any tunnel payload, is received by the
   * proxy's own front door as that target, and reading its head takes no octet of the payload.
   */
  lemma {:induction false} ConnectRequestReceived(t: Target, encoded: Option<string>, payload: seq<byte>)
    requires PlainHost(t.host) && NoSpace(t.host) && t.port <= MAX_U16
    requires encoded.Some? ==> '\n' !in encoded.value
    ensures var request := Classify(Encode(ConnectRequest(t, encoded)) + payload);
            && request.Connect? && request.line == ConnectLine(t) && ParseConnect(request.line) == Ok(t)
            && SplitHead(request.rest) == RequestHead(RequestHeaders(t, encoded), CRLF, payload)
  {
    var line := ConnectLine(t) + "\r\n";
    ConnectRoundTrip(t);
    ConnectLineClean(t);
    CrLfCompletes(ConnectLine(t));
    TrimCrLf(ConnectLine(t));
    EncodedComplete(line);
    DecodeOfEncode(line);
    RequestHeadersOk(t, encoded);
    HeadReadsBack(RequestHeaders(t, encoded), payload);
    RequestEncodes(t, encoded);
    MessageReadsBack(Encode(line), EncodeAll(RequestHeaders(t, encoded)), payload);
  }

  lemma RequestEncodes(t: Target, encoded: Option<string>)
    ensures Encode(ConnectRequest(t, encoded))
         == Encode(ConnectLine(t) + "\r\n") + EncodeAll(RequestHeaders(t, encoded)) + CRLF
  {
    var line, headers := ConnectLine(t) + "\r\n", HostHeader(t) + AuthHeader(encoded);
    RequestHeadersEncode(t, encoded);
    CrLfIsBlank();
    ThreeEncode(line, headers, "\r\n");
  }

  lemma ThreeEncode(a: string, b: string, c: string)
    ensures Encode(a + (b + c)) == Encode(a) + Encode(b) + Encode(c)
  {
    EncodeOfTwo(a, b + c);
    EncodeOfTwo(b, c);
    Joined(Encode(a), Encode(b), Encode(c));
  }

  lemma ConnectLineClean(t: Target)
    requires NoSpace(t.host)
    ensures '\n' !in ConnectLine(t) && ConnectLine(t) != "" && !IsSpace(ConnectLine(t)[|ConnectLine(t)| - 1])
    ensures OpensConnect(ConnectLine(t))
  {
    DigitsAreNotSpaces(Decimal(t.port));
    NoNewline(Authority(t));
    assert ConnectLine(t)[..7] == "CONNECT";
  }

  // ---------------------------------------------------------------- response head

  const END_OF_HEAD: seq<byte> := [13, 10, 13, 10]
  const MAX_HEAD: nat := 8192

  predicate EndsHead(b: seq<byte>) {
    |b| >= 4 && b[|b| - 4..] == END_OF_HEAD
  }

  /** `n` bytes of `stream` are the shortest prefix that ends a head. */
  ghost predicate ShortestHead(stream: seq<byte>, n: nat) {
    n <= |stream| && EndsHead(stream[..n]) && forall k :: 0 <= k < n ==> !EndsHead(stream[..k])
  }

  datatype HeadResult = HeadRead(buf: seq<byte>) | TooLarge | Closed

  /**
   * Reads the response head byte by byte. It consumes exactly the shortest terminated prefix and
   * never a byte behind it, reads at most MAX_HEAD + 1 bytes, and succeeds if and only if the
   * terminator ends by then.
   */
  method ReadHead(stream: seq<byte>) returns (r: HeadResult, consumed: nat)
    ensures consumed <= |stream| && consumed <= MAX_HEAD + 1
    ensures r.HeadRead? ==> r.buf == stream[..consumed] && ShortestHead(stream, consumed)
    ensures r.HeadRead? <==> exists n: nat :: n <= MAX_HEAD + 1 && ShortestHead(stream, n)
    ensures r == TooLarge ==> consumed == MAX_HEAD + 1
    ensures r == Closed ==> consumed == |stream| <= MAX_HEAD
  {
    var buf: seq<byte> := [];
    while true
      invariant |buf| <= MAX_HEAD && buf <= stream
      invariant forall k :: 0 <= k <= |buf| ==> !EndsHead(stream[..k])
      decreases |stream| - |buf|
    {
      if |buf| == |stream| {
        assert forall n: nat :: ShortestHead(stream, n) ==> n <= |buf|;
        return Closed, |buf|;
      }
      buf := buf + [stream[|buf|]];
      assert buf == stream[..|buf|];
      if |buf| >= 4 && buf[|buf| - 4..] == END_OF_HEAD {
        assert ShortestHead(stream, |buf|);
        return HeadRead(buf), |buf|;
      }
      if |buf| > MAX_HEAD {
        return TooLarge, |buf|;
      }
    }
  }

  lemma ShortestHeadUnique(stream: seq<byte>, n: nat)
    requires ShortestHead(stream, n)
    ensures forall m: nat :: ShortestHead(stream, m) ==> m == n
  {
  }

  /** A head is a head whatever follows it: the reader leaves any payload untouched. */
  lemma HeadIndependentOfPayload(head: seq<byte>, payload: seq<byte>)
    requires ShortestHead(head, |head|)
    ensures ShortestHead(head + payload, |head|)
    ensures forall n: nat :: ShortestHead(head + payload, n) ==> n == |head|
  {
    var s := head + payload;
    assert s[..|head|] == head == head[..|head|];
    forall k | 0 <= k < |head|
      ensures !EndsHead(s[..k])
    {
      assert s[..k] == head[..k];
    }
    ShortestHeadUnique(s, |head|);
  }

  // ---------------------------------------------------------------- status line

  /** Second token of the first line, as a number; 0 if there is none. */
  function StatusCode(head: string): nat {
    var tokens := SplitWhitespace(FirstLine(head, '\n'));
    if |tokens| < 2 then 0
    else
      match ParseUnsigned(tokens[1], MAX_U16)
      case None => 0
      case Some(code) => code
  }

  /** A status other than 0 is exactly the number that the second token of the first line writes. */
  lemma {:induction false} StatusIff(head: string, code: nat)
    requires code > 0
    ensures var tokens := SplitWhitespace(FirstLine(head, '\n'));
            StatusCode(head) == code <==> |tokens| >= 2 && code <= MAX_U16 && Numeral(tokens[1], code)
  {
    var tokens := SplitWhitespace(FirstLine(head, '\n'));
    if |tokens| >= 2 {
      ParseUnsignedIff(tokens[1], MAX_U16, code);
    }
  }

  datatype ConnectResult = Established | Refused(status: nat) | BadHead

  /**
   * The handshake after the request was sent. Whatever the answer, exactly its head is consumed;
   * on success the rest of the stream is the tunnel.
   */
  method Handshake(stream: seq<byte>) returns (r: ConnectResult, consumed: nat)
    ensures consumed <= |stream| && consumed <= MAX_HEAD + 1
    ensures r == BadHead <==> !exists n: nat :: n <= MAX_HEAD + 1 && ShortestHead(stream, n)
    ensures r == BadHead ==> consumed == if |stream| <= MAX_HEAD then |stream| else MAX_HEAD + 1
    ensures r != BadHead ==> ShortestHead(stream, consumed)
    ensures r != BadHead ==>
              var status := StatusCode(DecodeLossy(stream[..consumed]));
              r == if status == 200 then Established else Refused(status)
  {
    var head: HeadResult;
    head, consumed := ReadHead(stream);
    match head {
      case HeadRead(buf) =>
        var code := StatusCode(DecodeLossy(buf));
        r := if code == 200 then Established else Refused(code);
      case _ =>
        r := BadHead;
    }
  }

  /** What the proxy's front door answers to an accepted CONNECT. */
  const OWN_STATUS: string := "HTTP/1.1 200 Connection Established"
  const OWN_REPLY: string := OWN_STATUS + "\r\n\r\n"

  lemma OwnReplyIsHead(reply: string)
    requires reply == OWN_REPLY
    ensures ShortestHead(Encode(reply), |Encode(reply)|)
  {
    OwnStatusPlain();
    EmptyLineEncodes();
    TextHead(OWN_STATUS, "\r\n\r\n");
  }

  lemma OwnStatusPlain()
    ensures '\r' !in OWN_STATUS
  {
  }

  /** Any text without carriage return makes up a head with one empty line. */
  lemma TextHead(front: string, end: string)
    requires '\r' !in front && Encode(end) == END_OF_HEAD
    ensures var b := Encode(front + end); ShortestHead(b, |b|)
  {
    var f, b := Encode(front), Encode(front + end);
    EncodeOfTwo(front, end);
    ReturnIff(front);
    NoReturnBeforeEnd(f);
    assert b == f + END_OF_HEAD;
  }

  lemma EmptyLineEncodes()
    ensures Encode("\r\n\r\n") == END_OF_HEAD
  {
    EncodeOfTwo("\r\n", "\r\n");
    assert "\r\n" + "\r\n" == "\r\n\r\n";
    CrLfIsBlank();
  }

  /** Text without carriage return, then the end of a head, is a shortest head. */
  lemma NoReturnBeforeEnd(front: seq<byte>)
    requires 13 !in front
    ensures var b := front + END_OF_HEAD; ShortestHead(b, |b|)
  {
    var b := front + END_OF_HEAD;
    assert |b| == |front| + 4;
    assert b[..|front| + 4] == b && b[|front|..] == END_OF_HEAD;
    forall k | 0 <= k < |front| + 4
      ensures !EndsHead(b[..k])
    {
      if k >= 4 {
        assert b[..k][k - 4..][0] == b[k - 4] == front[k - 4];
      }
    }
  }

  lemma {:induction false} ReturnIff(s: string)
    ensures 13 in Encode(s) <==> '\r' in s
  {
    if s != "" {
      ReturnChar(s[0]);
      ReturnIff(s[1..]);
      assert s == [s[0]] + s[1..];
    }
  }

  lemma ReturnChar(c: char)
    ensures 13 in EncodeChar(c) <==> c == '\r'
  {
  }

  /** The status code is read from every well-formed status line, whatever follows it. */
  lemma {:induction false} StatusOfLine(version: string, code: nat, reason: string, more: string)
    requires version != "" && NoSpace(version) && '\n' !in reason && code <= MAX_U16
    ensures StatusCode(version + " " + (Decimal(code) + " " + (reason + "\r\n")) + more) == code
  {
    var tail := Decimal(code) + " " + (reason + "\r\n");
    var line := version + " " + tail;
    StatusLineComplete(version, code, reason);
    FirstLineOfComplete(line, '\n', more);
    DigitsAreNotSpaces(Decimal(code));
    SplitAtSpace(version, tail);
    SplitAtSpace(Decimal(code), reason + "\r\n");
    ParseOfDecimal(code, MAX_U16);
  }

  lemma StatusLineComplete(version: string, code: nat, reason: string)
    requires NoSpace(version) && '\n' !in reason
    ensures Complete(version + " " + (Decimal(code) + " " + (reason + "\r\n")), '\n')
  {
    DigitsAreNotSpaces(Decimal(code));
    NoNewline(version);
    NoNewline(Decimal(code));
    var start := version + " " + (Decimal(code) + " " + reason);
    CrLfCompletes(start);
    assert version + " " + (Decimal(code) + " " + (reason + "\r\n")) == start + "\r\n";
  }

  lemma {:induction false} OwnReplyStatus(reply: string)
    requires reply == OWN_REPLY
    ensures StatusCode(reply) == 200
  {
    assert Decimal(2) == "2" && Decimal(20) == "20" && Decimal(200) == "200";
    StatusOfLine("HTTP/1.1", 200, "Connection Established", "\r\n");
    OwnReplyText(Decimal(200));
  }

  lemma OwnReplyText(code: string)
    requires code == "200"
    ensures OWN_REPLY == "HTTP/1.1" + " " + (code + " " + ("Connection Established" + "\r\n")) + "\r\n"
  {
  }

  /** Two of these proxies in a row understand each other: the reply is a complete head with status 200. */
  lemma OwnReplyEstablishes(reply: string, payload: seq<byte>)
    requires reply == OWN_REPLY
    ensures var stream := Encode(reply) + payload;
            && ShortestHead(stream, |Encode(reply)|)
            && StatusCode(DecodeLossy(stream[..|Encode(reply)|])) == 200
  {
    var b := Encode(reply);
    OwnReplyIsHead(reply);
    HeadIndependentOfPayload(b, payload);
    assert (b + payload)[..|b|] == b;
    DecodeOfEncode(reply);
    OwnReplyStatus(reply);
  }

  // ---------------------------------------------------------------- configuration URL

  datatype Endpoint = Endpoint(address: string, credentials: Option<(string, string)>)

  datatype UrlResult = Parsed(endpoint: Endpoint) | NoScheme | NoHost | BadCredentials

  function TrimSlashes(s: string): (r: string)
    ensures r <= s && (r != "" ==> r[|r| - 1] != '/') && forall i :: |r| <= i < |s| ==> s[i] == '/'
    ensures s != "" && s[|s| - 1] != '/' ==> r == s
  {
    if s != "" && s[|s| - 1] == '/' then TrimSlashes(s[..|s| - 1]) else s
  }

  /** `user:pass@host:port` or `host:port`; the last `@` separates, the first `:` splits the credentials. */
  function ParseEndpoint(s: string): UrlResult {
    if s == "" then NoHost
    else
      match RFind(s, '@')
      case None => Parsed(Endpoint(s, None))
      case Some(at) =>
        if at + 1 == |s| then NoHost
        else
          match Find(s[..at], ':')
          case None => BadCredentials
          case Some(i) => Parsed(Endpoint(s[at + 1..], Some((s[..i], s[i + 1..at]))))
  }

  function FromUrl(url: string): UrlResult {
    if StartsWith(url, "http://") then ParseEndpoint(TrimSlashes(url[7..]))
    else if StartsWith(url, "https://") then ParseEndpoint(TrimSlashes(url[8..]))
    else NoScheme
  }

  function Printed(user: string, pass: string, address: string): string {
    user + ":" + pass + "@" + address
  }

  lemma PrintedParses(user: string, pass: string, address: string)
    requires address != "" && '@' !in address && ':' !in user
    ensures ParseEndpoint(Printed(user, pass, address)) == Parsed(Endpoint(address, Some((user, pass))))
  {
    var s, cred := Printed(user, pass, address), user + ":" + pass;
    assert s == cred + "@" + address;
    assert s[|cred|] == '@' && s[|cred| + 1..] == address && s[..|cred|] == cred;
    RFindAt(s, '@', |cred|);
    assert cred[|user|] == ':' && cred[..|user|] == user;
    FindAt(cred, ':', |user|);
    assert s[..|user|] == user && s[|user| + 1..|cred|] == pass;
  }

  /** Texts without `@` are addresses; the empty one is refused. */
  lemma AddressAlone(s: string)
    requires '@' !in s
    ensures ParseEndpoint(s) == if s == "" then NoHost else Parsed(Endpoint(s, None))
  {
  }

  /** With an `@`, the last one counts: an address must follow it, and a colon must precede it. */
  lemma AddressWithCredentials(s: string, at: nat)
    requires at < |s| && s[at] == '@' && '@' !in s[at + 1..]
    ensures ParseEndpoint(s) == NoHost <==> at + 1 == |s|
    ensures at + 1 < |s| ==> (ParseEndpoint(s) == BadCredentials <==> ':' !in s[..at])
    ensures forall user: string, pass: string :: at + 1 < |s| && s[..at] == user + ":" + pass && ':' !in user ==>
              ParseEndpoint(s) == Parsed(Endpoint(s[at + 1..], Some((user, pass))))
  {
    RFindAt(s, '@', at);
    forall user: string, pass: string | at + 1 < |s| && s[..at] == user + ":" + pass && ':' !in user
      ensures ParseEndpoint(s) == Parsed(Endpoint(s[at + 1..], Some((user, pass))))
    {
      PrintedParses(user, pass, s[at + 1..]);
      CutAtSign(s, at, user, pass);
    }
  }

  lemma CutAtSign(s: string, at: nat, user: string, pass: string)
    requires at < |s| && s[at] == '@' && s[..at] == user + ":" + pass
    ensures s == Printed(user, pass, s[at + 1..])
  {
    assert s == s[..at] + "@" + s[at + 1..];
  }

  /** Both schemes are accepted, slashes at the end do not matter, and other texts are refused. */
  lemma {:induction false} SchemeOfUrl(url: string, rest: string)
    ensures FromUrl("http://" + rest) == FromUrl("https://" + rest) == ParseEndpoint(TrimSlashes(rest))
    ensures !StartsWith(url, "http://") && !StartsWith(url, "https://") ==> FromUrl(url) == NoScheme
  {
    assert ("http://" + rest)[7..] == rest && ("https://" + rest)[8..] == rest;
    assert ("https://" + rest)[4] == 's';
  }

  /** What parsing an endpoint yields, whatever the text. */
  lemma EndpointShape(s: string)
    ensures var r := ParseEndpoint(s);
            r.Parsed? ==>
              && r.endpoint.address != "" && '@' !in r.endpoint.address
              && r.endpoint.address[|r.endpoint.address| - 1] == s[|s| - 1]
              && (r.endpoint.credentials.Some? ==> ':' !in r.endpoint.credentials.value.0)
  {
    match RFind(s, '@') {
      case None =>
      case Some(at) =>
        match Find(s[..at], ':') {
          case None =>
          case Some(i) => assert s[..at][..i] == s[..i];
        }
    }
  }

  /**
   * A printed proxy URL is read back to the same credentials and address exactly when the address
   * is not empty, has no `@` and no trailing slash, and the user name has no colon. The password
   * is unrestricted.
   */
  lemma {:induction false} ProxyUrlRoundTrip(user: string, pass: string, address: string)
    ensures FromUrl("http://" + Printed(user, pass, address)) == Parsed(Endpoint(address, Some((user, pass))))
       <==> address != "" && address[|address| - 1] != '/' && '@' !in address && ':' !in user
  {
    var s := Printed(user, pass, address);
    HttpUrl(s);
    EndpointShape(TrimSlashes(s));
    if address != "" && address[|address| - 1] != '/' && '@' !in address && ':' !in user {
      assert s[|s| - 1] == address[|address| - 1];
      PrintedParses(user, pass, address);
    }
  }

  lemma HttpUrl(s: string)
    ensures FromUrl("http://" + s) == ParseEndpoint(TrimSlashes(s))
  {
    assert ("http://" + s)[7..] == s;
  }
}
