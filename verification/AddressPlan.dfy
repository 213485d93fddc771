/** The two generators of the Docker setup and the address plan they must agree on. */
module AddressPlan {
  import opened Text

  const SUBNET: string := "172.20.0."
  const PROXY_KEY: string := "houdinny"
  const PROXY_IP: string := "172.20.0.20"

  datatype Tunnel = Tunnel(address: string, tag: string)

  /** Address of the VPN container number `n`, counted from 1. */
  function VpnIp(n: nat): (ip: string)
    ensures ip == "172.20.0." + Decimal(10 + n)
  {
    SUBNET + Decimal(10 + n)
  }

  function VpnKey(n: nat): string {
    "vpn-" + Decimal(n)
  }

  function TunnelLabel(n: nat, country: string): string {
    VpnKey(n) + "-" + country
  }

  /** The services of the first `n` VPN containers, each under its key with its address, and no others. */
  ghost predicate VpnServices(services: map<string, string>, n: nat) {
    && HasServices(services, n)
    && (forall key :: key in services ==> IsVpnKey(key, n))
    && |services| == n
  }

  ghost predicate HasServices(services: map<string, string>, n: nat) {
    forall k :: 1 <= k <= n ==> VpnKey(k) in services && services[VpnKey(k)] == VpnIp(k)
  }

  ghost predicate IsVpnKey(key: string, n: nat) {
    exists k :: 1 <= k <= n && key == VpnKey(k)
  }

  /** The key of the next container is not taken. */
  lemma NextKeyIsFree(n: nat)
    ensures !IsVpnKey(VpnKey(n + 1), n)
  {
    forall k | 1 <= k <= n
      ensures VpnKey(k) != VpnKey(n + 1)
    {
      KeysDiffer(k, n + 1);
    }
  }

  lemma KeyStays(key: string, n: nat)
    requires IsVpnKey(key, n)
    ensures IsVpnKey(key, n + 1)
  {
    var k :| 1 <= k <= n && key == VpnKey(k);
  }

  lemma AddHasServices(services: map<string, string>, n: nat)
    requires HasServices(services, n)
    ensures HasServices(services[VpnKey(n + 1) := VpnIp(n + 1)], n + 1)
  {
    forall k | 1 <= k <= n
      ensures VpnKey(k) != VpnKey(n + 1)
    {
      KeysDiffer(k, n + 1);
    }
  }

  lemma AddService(services: map<string, string>, n: nat)
    requires VpnServices(services, n)
    ensures VpnServices(services[VpnKey(n + 1) := VpnIp(n + 1)], n + 1)
  {
    var key := VpnKey(n + 1);
    NextKeyIsFree(n);
    AddHasServices(services, n);
    assert IsVpnKey(key, n + 1);
    forall other | other in services
      ensures IsVpnKey(other, n + 1)
    {
      KeyStays(other, n);
    }
    AddGrows(services, key, VpnIp(n + 1));
  }

  lemma AddGrows(services: map<string, string>, key: string, value: string)
    requires key !in services
    ensures |services[key := value]| == |services| + 1
  {
  }

  lemma ProxyKeyIsFree(services: map<string, string>, n: nat)
    requires VpnServices(services, n)
    ensures PROXY_KEY !in services
    ensures forall k :: 1 <= k <= n ==> VpnKey(k) != PROXY_KEY
  {
    forall k: nat
      ensures VpnKey(k) != PROXY_KEY
    {
      assert VpnKey(k)[0] == 'v' && PROXY_KEY[0] == 'h';
    }
  }

  /** Service name to address, as inserted into the compose file: one entry per container, and the proxy. */
  method GenerateDockerCompose(countries: seq<string>) returns (services: map<string, string>)
    ensures |services| == |countries| + 1
    ensures PROXY_KEY in services && services[PROXY_KEY] == PROXY_IP
    ensures forall k :: 1 <= k <= |countries| ==> VpnKey(k) in services && services[VpnKey(k)] == VpnIp(k)
    ensures forall key :: key in services ==> key == PROXY_KEY || IsVpnKey(key, |countries|)
  {
    services := map[];
    for i := 0 to |countries|
      invariant VpnServices(services, i)
    {
      AddService(services, i);
      services := services[VpnKey(i + 1) := VpnIp(i + 1)];
    }
    ProxyKeyIsFree(services, |countries|);
    services := services[PROXY_KEY := PROXY_IP];
  }

  /** The tunnel entries, one per country. */
  method GenerateTunnelsConfig(countries: seq<string>) returns (tunnels: seq<Tunnel>)
    ensures |tunnels| == |countries|
    ensures forall i :: 0 <= i < |tunnels| ==> tunnels[i] == Tunnel(VpnIp(i + 1) + ":1080", TunnelLabel(i + 1, countries[i]))
    ensures forall i :: 0 <= i < |tunnels| ==> tunnels[i].tag == "vpn-" + Decimal(i + 1) + "-" + countries[i]
  {
    tunnels := [];
    for i := 0 to |countries|
      invariant |tunnels| == i
      invariant forall j :: 0 <= j < i ==> tunnels[j] == Tunnel(VpnIp(j + 1) + ":1080", TunnelLabel(j + 1, countries[j]))
    {
      tunnels := tunnels + [Tunnel(VpnIp(i + 1) + ":1080", TunnelLabel(i + 1, countries[i]))];
    }
  }

  /** Both generators on the same list: every tunnel entry points at the service of the same index. */
  method GenerateBoth(countries: seq<string>) returns (services: map<string, string>, tunnels: seq<Tunnel>)
    ensures |tunnels| == |countries|
    ensures forall i :: 0 <= i < |tunnels| ==>
              VpnKey(i + 1) in services && tunnels[i].address == services[VpnKey(i + 1)] + ":1080"
    ensures forall i, j :: 0 <= i < j < |tunnels| ==>
              tunnels[i].address != tunnels[j].address && tunnels[i].tag != tunnels[j].tag
    ensures (forall i :: 0 <= i < |tunnels| ==> tunnels[i].address != PROXY_IP + ":1080") <==> |countries| <= 9
  {
    services := GenerateDockerCompose(countries);
    tunnels := GenerateTunnelsConfig(countries);
    EntriesDiffer(countries, tunnels);
    ProxyEntryIff(countries, tunnels);
  }

  lemma EntriesDiffer(countries: seq<string>, tunnels: seq<Tunnel>)
    requires |tunnels| == |countries|
    requires forall i :: 0 <= i < |tunnels| ==> tunnels[i] == Tunnel(VpnIp(i + 1) + ":1080", TunnelLabel(i + 1, countries[i]))
    ensures forall i, j :: 0 <= i < j < |tunnels| ==>
              tunnels[i].address != tunnels[j].address && tunnels[i].tag != tunnels[j].tag
  {
    forall i, j | 0 <= i < j < |tunnels|
      ensures tunnels[i].address != tunnels[j].address && tunnels[i].tag != tunnels[j].tag
    {
      AddressesDiffer(i + 1, j + 1);
      LabelsDiffer(i + 1, countries[i], j + 1, countries[j]);
    }
  }

  /** The proxy's own address is handed out to the tenth container, and to no other. */
  lemma ProxyEntryIff(countries: seq<string>, tunnels: seq<Tunnel>)
    requires |tunnels| == |countries|
    requires forall i :: 0 <= i < |tunnels| ==> tunnels[i].address == VpnIp(i + 1) + ":1080"
    ensures (forall i :: 0 <= i < |tunnels| ==> tunnels[i].address != PROXY_IP + ":1080") <==> |countries| <= 9
  {
    forall i | 0 <= i < |tunnels|
      ensures tunnels[i].address == PROXY_IP + ":1080" <==> i == 9
    {
      ProxyAddressTaken(i + 1);
    }
    assert |tunnels| > 9 ==> tunnels[9].address == PROXY_IP + ":1080";
  }

  lemma SameTail(p: string, a: string, b: string)
    requires p + a == p + b
    ensures a == b
  {
    assert (p + a)[|p|..] == a && (p + b)[|p|..] == b;
  }

  lemma SameHead(a: string, b: string, p: string)
    requires a + p == b + p
    ensures a == b
  {
    assert |a| == |b|;
    assert (a + p)[..|a|] == a && (b + p)[..|b|] == b;
  }

  lemma KeysDiffer(m: nat, n: nat)
    requires m != n
    ensures VpnKey(m) != VpnKey(n)
  {
    if VpnKey(m) == VpnKey(n) {
      SameTail("vpn-", Decimal(m), Decimal(n));
      DecimalInjective(m, n);
    }
  }

  lemma AddressesDiffer(m: nat, n: nat)
    requires m != n
    ensures VpnIp(m) != VpnIp(n) && VpnIp(m) + ":1080" != VpnIp(n) + ":1080"
  {
    if VpnIp(m) == VpnIp(n) {
      SameTail(SUBNET, Decimal(10 + m), Decimal(10 + n));
      DecimalInjective(10 + m, 10 + n);
    }
    if VpnIp(m) + ":1080" == VpnIp(n) + ":1080" {
      SameHead(VpnIp(m), VpnIp(n), ":1080");
    }
  }

  /** Labels differ whatever the country names, because the number ends at the next dash. */
  lemma LabelsDiffer(m: nat, c: string, n: nat, d: string)
    requires m != n
    ensures TunnelLabel(m, c) != TunnelLabel(n, d)
  {
    if TunnelLabel(m, c) == TunnelLabel(n, d) {
      var x, y := Decimal(m) + "-" + c, Decimal(n) + "-" + d;
      assert TunnelLabel(m, c) == "vpn-" + x && TunnelLabel(n, d) == "vpn-" + y;
      SameTail("vpn-", x, y);
      DigitsAreNotSpaces(Decimal(m));
      DigitsAreNotSpaces(Decimal(n));
      assert x[..|Decimal(m)|] == Decimal(m) && y[..|Decimal(n)|] == Decimal(n);
      FindAt(x, '-', |Decimal(m)|);
      FindAt(y, '-', |Decimal(n)|);
      DecimalInjective(m, n);
    }
  }

  /** Exactly the tenth VPN container collides with the proxy's own address. */
  lemma ProxyAddressTaken(n: nat)
    ensures VpnIp(n) == PROXY_IP <==> n == 10
    ensures VpnIp(n) + ":1080" == PROXY_IP + ":1080" <==> n == 10
  {
    assert Decimal(2) == "2" && Decimal(20) == "20";
    assert SUBNET + "20" == PROXY_IP;
    if VpnIp(n) == PROXY_IP {
      SameTail(SUBNET, Decimal(10 + n), Decimal(20));
      DecimalInjective(10 + n, 20);
    }
    if VpnIp(n) + ":1080" == PROXY_IP + ":1080" {
      SameHead(VpnIp(n), PROXY_IP, ":1080");
    }
  }
}
