/** The 402 response: folding its headers into a payment request and choosing a handler. */
module Payment {
  import opened Text

  datatype Header = Header(key: string, value: string)

  datatype PaymentRequest = PaymentRequest(
    url: string, amount: Option<string>, currency: Option<string>, payTo: Option<string>,
    network: Option<string>, headers: seq<Header>, body: Option<string>)

  /**
   * Lower case, as far as it meets ASCII: the capital letters, the Kelvin sign, and the dotted
   * capital I. All other characters have lower cases outside ASCII and are left alone, which no
   * comparison with an ASCII name can tell.
   */
  function LowerChar(c: char): string {
    if 'A' <= c <= 'Z' then [((c as int) + 32) as char]
    else if c == '\U{212A}' then "k"
    else if c == '\U{0130}' then "i\U{0307}"
    else [c]
  }

  function Lower(s: string): string {
    if s == "" then "" else LowerChar(s[0]) + Lower(s[1..])
  }

  /** Value of the last header with this name. */
  function Last(headers: seq<Header>, name: string): Option<string> {
    if headers == [] then None
    else
      var h := headers[|headers| - 1];
      if Lower(h.key) == name then Some(h.value) else Last(headers[..|headers| - 1], name)
  }

  predicate Ascii(s: string) {
    forall i :: 0 <= i < |s| ==> s[i] as int < 128
  }

  /** On ASCII text: letter by letter, capitals become small and all else stays. */
  lemma {:induction false} LowerOfAscii(s: string)
    requires Ascii(s)
    ensures |Lower(s)| == |s|
    ensures forall i :: 0 <= i < |s| ==>
              Lower(s)[i] as int == if 'A' <= s[i] <= 'Z' then s[i] as int + 32 else s[i] as int
  {
    if s != "" {
      LowerOfAscii(s[1..]);
      assert Lower(s) == LowerChar(s[0]) + Lower(s[1..]);
      assert forall i :: 0 < i < |s| ==> Lower(s)[i] == Lower(s[1..])[i - 1];
    }
  }

  /** Header `i` is the last one with this name, in any case. */
  ghost predicate IsLast(headers: seq<Header>, name: string, i: nat) {
    && i < |headers| && Lower(headers[i].key) == name
    && forall j :: i < j < |headers| ==> Lower(headers[j].key) != name
  }

  ghost predicate Absent(headers: seq<Header>, name: string) {
    forall i :: 0 <= i < |headers| ==> Lower(headers[i].key) != name
  }

  lemma IsLastInFront(headers: seq<Header>, name: string, i: nat)
    requires IsLast(headers, name, i) && i < |headers| - 1
    ensures IsLast(headers[..|headers| - 1], name, i)
  {
    var front := headers[..|headers| - 1];
    assert forall j :: 0 <= j < |front| ==> front[j] == headers[j];
  }

  /** The last header with the name gives the value. */
  lemma {:induction false} LastWins(headers: seq<Header>, name: string, i: nat)
    requires IsLast(headers, name, i)
    ensures Last(headers, name) == Some(headers[i].value)
    decreases |headers|
  {
    var n := |headers| - 1;
    if i < n {
      IsLastInFront(headers, name, i);
      LastWins(headers[..n], name, i);
    }
  }

  lemma {:induction false} AbsentIsNone(headers: seq<Header>, name: string)
    requires Absent(headers, name)
    ensures Last(headers, name) == None
  {
    if headers != [] {
      var front := headers[..|headers| - 1];
      assert forall j :: 0 <= j < |front| ==> front[j] == headers[j];
      AbsentIsNone(front, name);
    }
  }

  /** The protocol a single header reveals. */
  function Detected(h: Header): Option<string> {
    if StartsWith(Lower(h.key), "x-402") then Some("x402")
    else if Lower(h.key) == "www-authenticate" && StartsWith(Lower(h.value), "l402") then Some("l402")
    else None
  }

  /** The protocol revealed by the first header that reveals one. */
  function FirstDetected(headers: seq<Header>): Option<string> {
    if headers == [] then None
    else
      var before := FirstDetected(headers[..|headers| - 1]);
      if before.Some? then before else Detected(headers[|headers| - 1])
  }

  /** Header `i` is the first one that reveals a protocol. */
  ghost predicate RevealsFirst(headers: seq<Header>, i: nat) {
    i < |headers| && Detected(headers[i]).Some? && forall j :: 0 <= j < i ==> Detected(headers[j]).None?
  }

  lemma {:induction false} NothingRevealed(headers: seq<Header>)
    requires forall i :: 0 <= i < |headers| ==> Detected(headers[i]).None?
    ensures FirstDetected(headers) == None
  {
    if headers != [] {
      var front := headers[..|headers| - 1];
      assert forall j :: 0 <= j < |front| ==> front[j] == headers[j];
      NothingRevealed(front);
    }
  }

  /** The first header that reveals a protocol decides. */
  lemma {:induction false} FirstWins(headers: seq<Header>, i: nat)
    requires RevealsFirst(headers, i)
    ensures FirstDetected(headers) == Detected(headers[i])
    decreases |headers|
  {
    var n := |headers| - 1;
    var front := headers[..n];
    assert forall j :: 0 <= j < n ==> front[j] == headers[j];
    if i < n {
      FirstWins(front, i);
    } else {
      NothingRevealed(front);
    }
  }

  /** Network precedence: the last explicit network, else the first detected protocol. */
  function Network(headers: seq<Header>): Option<string> {
    if Last(headers, "x-payment-network").Some? then Last(headers, "x-payment-network") else FirstDetected(headers)
  }

  predicate RevealsX402(h: Header) {
    StartsWith(Lower(h.key), "x-402")
  }

  predicate RevealsL402(h: Header) {
    Lower(h.key) == "www-authenticate" && StartsWith(Lower(h.value), "l402")
  }

  /** Without an explicit network, the first header that reveals a protocol names it, and none does otherwise. */
  lemma RevealedNetwork(headers: seq<Header>, i: nat)
    requires Absent(headers, "x-payment-network") && i <= |headers|
    requires forall j :: 0 <= j < i ==> !RevealsX402(headers[j]) && !RevealsL402(headers[j])
    ensures i == |headers| ==> Network(headers) == None
    ensures i < |headers| && RevealsX402(headers[i]) ==> Network(headers) == Some("x402")
    ensures i < |headers| && !RevealsX402(headers[i]) && RevealsL402(headers[i]) ==> Network(headers) == Some("l402")
  {
    AbsentIsNone(headers, "x-payment-network");
    if i == |headers| {
      NothingRevealed(headers);
    } else if RevealsX402(headers[i]) || RevealsL402(headers[i]) {
      FirstWins(headers, i);
    }
  }

  /** An explicit network counts, the last one, whatever the other headers reveal. */
  lemma ExplicitNetwork(headers: seq<Header>, i: nat)
    requires IsLast(headers, "x-payment-network", i)
    ensures Network(headers) == Some(headers[i].value)
  {
    LastWins(headers, "x-payment-network", i);
  }

  /** A header that names the network reveals no protocol by itself. */
  lemma ExplicitRevealsNothing(h: Header)
    requires Lower(h.key) == "x-payment-network"
    ensures Detected(h) == None
  {
    assert "x-payment-network"[2] == 'p';
  }

  /** What one header does to the network variable. */
  function NetworkStep(network: Option<string>, h: Header): Option<string> {
    var explicit := if Lower(h.key) == "x-payment-network" then Some(h.value) else network;
    var x402 := if StartsWith(Lower(h.key), "x-402") && explicit.None? then Some("x402") else explicit;
    if Lower(h.key) == "www-authenticate" && StartsWith(Lower(h.value), "l402") && x402.None? then Some("l402") else x402
  }

  lemma NetworkStepOk(headers: seq<Header>, h: Header)
    ensures Network(headers + [h]) == NetworkStep(Network(headers), h)
  {
    assert (headers + [h])[..|headers|] == headers;
    if Lower(h.key) == "x-payment-network" {
      ExplicitRevealsNothing(h);
    }
  }

  /** Folds the headers of a response; only status 402 yields a request. */
  method Parse402(status: nat, headers: seq<Header>, body: Option<string>, url: string) returns (r: Option<PaymentRequest>)
    ensures r.Some? <==> status == 402
    ensures r.Some? ==> r.value == PaymentRequest(
      url, Last(headers, "x-payment-amount"), Last(headers, "x-payment-currency"), Last(headers, "x-payment-address"),
      Network(headers), headers, body)
  {
    if status != 402 {
      return None;
    }
    var amount, currency, payTo, network: Option<string> := None, None, None, None;
    for i := 0 to |headers|
      invariant amount == Last(headers[..i], "x-payment-amount")
      invariant currency == Last(headers[..i], "x-payment-currency")
      invariant payTo == Last(headers[..i], "x-payment-address")
      invariant network == Network(headers[..i])
    {
      var h := headers[i];
      assert headers[..i + 1] == headers[..i] + [h];
      assert headers[..i + 1][..i] == headers[..i];
      NetworkStepOk(headers[..i], h);
      var lower := Lower(h.key);
      if lower == "x-payment-amount" {
        amount := Some(h.value);
      } else if lower == "x-payment-currency" {
        currency := Some(h.value);
      } else if lower == "x-payment-address" {
        payTo := Some(h.value);
      }
      network := NetworkStep(network, h);
    }
    assert headers[..|headers|] == headers;
    r := Some(PaymentRequest(url, amount, currency, payTo, network, headers, body));
  }

  /** The x402 handler's test. */
  predicate X402CanHandle(r: PaymentRequest) {
    r.network == Some("x402") || exists i :: 0 <= i < |r.headers| && StartsWith(Lower(r.headers[i].key), "x-402")
  }

  lemma {:induction false} DetectedX402HasHeader(headers: seq<Header>)
    ensures FirstDetected(headers) == Some("x402") ==>
              exists i :: 0 <= i < |headers| && StartsWith(Lower(headers[i].key), "x-402")
  {
    if headers != [] {
      var n := |headers| - 1;
      DetectedX402HasHeader(headers[..n]);
      assert "x402" != "l402" by { assert "x402"[0] != "l402"[0]; }
      if FirstDetected(headers[..n]) == Some("x402") {
        var i :| 0 <= i < n && StartsWith(Lower(headers[..n][i].key), "x-402");
        assert headers[i] == headers[..n][i];
      }
    }
  }

  /**
   * On parsed requests the handler's test means: some header is an x-402 header, or the network
   * was named x402 explicitly. An explicit other network does not hide an x-402 header.
   */
  lemma {:induction false} X402HandlesParsed(headers: seq<Header>, r: PaymentRequest)
    requires r.headers == headers && r.network == Network(headers)
    ensures X402CanHandle(r) <==>
              (exists i :: 0 <= i < |headers| && StartsWith(Lower(headers[i].key), "x-402"))
              || Last(headers, "x-payment-network") == Some("x402")
  {
    DetectedX402HasHeader(headers);
  }

  datatype PaymentResult = Proof(proof: string) | PayError(error: string) | NoHandler

  /** A handler: which requests it takes, and what paying them yields. */
  datatype Handler = Handler(canHandle: PaymentRequest -> bool, pay: PaymentRequest -> PaymentResult)

  /** Uses the first handler that accepts the request, and only that one: its failure is final. */
  method HandlePayment(handlers: seq<Handler>, request: PaymentRequest) returns (r: PaymentResult, used: nat)
    ensures used <= |handlers| && forall i :: 0 <= i < used ==> !handlers[i].canHandle(request)
    ensures used < |handlers| ==> handlers[used].canHandle(request) && r == handlers[used].pay(request)
    ensures used == |handlers| ==> r == NoHandler
  {
    for i := 0 to |handlers|
      invariant forall j :: 0 <= j < i ==> !handlers[j].canHandle(request)
    {
      if handlers[i].canHandle(request) {
        return handlers[i].pay(request), i;
      }
    }
    return NoHandler, |handlers|;
  }
}
