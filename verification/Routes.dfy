/** Policy-routing table numbers: allocation by list length, release by removal. */
module Routes {
  import opened Bytes
  import opened Filter

  /** An active route; its table number is a 32-bit word. */
  datatype Route = Route(tunnelId: string, dev: string, table: nat)

  /** Whether each route belongs to another tunnel. */
  function Others(routes: seq<Route>, id: string): (flags: seq<bool>)
    ensures |flags| == |routes| && forall i :: 0 <= i < |routes| ==> flags[i] == (routes[i].tunnelId != id)
  {
    seq(|routes|, i requires 0 <= i < |routes| => routes[i].tunnelId != id)
  }

  /** Routes of other tunnels, in order: what `retain` leaves. */
  function Without(routes: seq<Route>, id: string): seq<Route> {
    Keep(routes, Others(routes, id))
  }

  /** Exactly the routes of the tunnel go. */
  lemma WithoutIff(routes: seq<Route>, id: string, r: Route)
    ensures r in Without(routes, id) <==> r in routes && r.tunnelId != id
  {
    KeptIff(routes, Others(routes, id), r);
  }

  /** Truncating a summand first does not change a 32-bit sum. */
  lemma WordSum(base: nat, n: nat)
    ensures (base + n % U32) % U32 == (base + n) % U32
  {
    var q := n / U32;
    assert base + n == base + n % U32 + q * U32;
  }

  class LinuxRouteManager {
    const baseTable: nat
    var routes: seq<Route>

    constructor (baseTable: nat)
      ensures this.baseTable == baseTable && routes == []
    {
      this.baseTable, routes := baseTable, [];
    }

    /** The new route takes the table after as many as there are routes, modulo 2^32. */
    method SetupTunnelRoute(dev: string, id: string)
      modifies this
      ensures routes == Setup(baseTable, old(routes), dev, id)
      ensures routes == old(routes) + [Route(id, dev, (baseTable + |old(routes)|) % U32)]
    {
      WordSum(baseTable, |routes|);
      var offset := |routes| % U32;
      var table := (baseTable + offset) % U32;
      routes := routes + [Route(id, dev, table)];
    }

    method TeardownTunnelRoute(id: string) returns (removed: nat)
      modifies this
      ensures routes == Keep(old(routes), Others(old(routes), id))
      ensures forall r :: r in routes <==> r in old(routes) && r.tunnelId != id
      ensures removed == |old(routes)| - |routes|
    {
      var before := |routes|;
      forall r
        ensures r in Without(routes, id) <==> r in routes && r.tunnelId != id
      {
        WithoutIff(routes, id, r);
      }
      routes := KeepFlagged(routes, Others(routes, id));
      removed := before - |routes|;
    }
  }

  function TableFor(base: nat, offset: nat): nat {
    (base + offset % U32) % U32
  }

  lemma TableWithoutWrap(base: nat, offset: nat)
    requires base + offset < U32
    ensures TableFor(base, offset) == base + offset
  {
  }

  function Setup(base: nat, routes: seq<Route>, dev: string, id: string): seq<Route> {
    routes + [Route(id, dev, TableFor(base, |routes|))]
  }

  // ---------------------------------------------------------------- runs

  datatype Operation = SetUp(dev: string, id: string) | TearDown(id: string)

  function Apply(base: nat, routes: seq<Route>, op: Operation): seq<Route> {
    match op
    case SetUp(dev, id) => Setup(base, routes, dev, id)
    case TearDown(id) => Without(routes, id)
  }

  /** The list after each operation of a run, starting empty. */
  ghost predicate IsRun(base: nat, lists: seq<seq<Route>>, ops: seq<Operation>) {
    && |lists| == |ops| + 1
    && lists[0] == []
    && forall k :: 0 <= k < |ops| ==> lists[k + 1] == Apply(base, lists[k], ops[k])
  }

  /** Operation `j` set up a route of tunnel `id` that no teardown removed before operation `k`. */
  ghost predicate StillSetUp(ops: seq<Operation>, j: nat, k: nat, id: string) {
    && j < k <= |ops| && ops[j].SetUp? && ops[j].id == id
    && forall m :: j < m < k ==> ops[m] != TearDown(id)
  }

  ghost predicate Routed(routes: seq<Route>, id: string) {
    exists r :: r in routes && r.tunnelId == id
  }

  lemma RoutedAfter(base: nat, routes: seq<Route>, op: Operation, id: string)
    ensures Routed(Apply(base, routes, op), id) <==>
              (Routed(routes, id) && op != TearDown(id)) || (op.SetUp? && op.id == id)
  {
    var after := Apply(base, routes, op);
    match op {
      case SetUp(dev, other) =>
        assert after[|routes|].tunnelId == other;
        assert forall r :: r in routes ==> r in after;
      case TearDown(other) =>
        forall r
          ensures r in after <==> r in routes && r.tunnelId != other
        {
          WithoutIff(routes, other, r);
        }
    }
  }

  /** After every run a tunnel has a route exactly if it was set up and not torn down since. */
  lemma {:induction false} RoutedIff(base: nat, lists: seq<seq<Route>>, ops: seq<Operation>, k: nat, id: string)
    requires IsRun(base, lists, ops) && k < |lists|
    ensures Routed(lists[k], id) <==> exists j: nat :: StillSetUp(ops, j, k, id)
  {
    if k > 0 {
      var before := k - 1;
      RoutedIff(base, lists, ops, before, id);
      assert lists[before + 1] == Apply(base, lists[before], ops[before]);
      RoutedAfter(base, lists[before], ops[before], id);
      assert forall j: nat :: StillSetUp(ops, j, k, id) && j < before ==> StillSetUp(ops, j, before, id);
      assert forall j: nat :: StillSetUp(ops, j, before, id) && ops[before] != TearDown(id) ==> StillSetUp(ops, j, k, id);
      assert ops[before].SetUp? && ops[before].id == id ==> StillSetUp(ops, before, k, id);
    }
  }

  /** No allocation of the run overflows 32 bits. */
  ghost predicate NoOverflow(base: nat, lists: seq<seq<Route>>) {
    forall k :: 0 <= k < |lists| ==> base + |lists[k]| < U32
  }

  /** The route at position i has at least table base + i. */
  ghost predicate AtLeast(base: nat, routes: seq<Route>) {
    forall i :: 0 <= i < |routes| ==> base + i <= routes[i].table
  }

  /** The route at position i has exactly table base + i. */
  ghost predicate Aligned(base: nat, routes: seq<Route>) {
    forall i :: 0 <= i < |routes| ==> routes[i].table == base + i
  }

  /** No two live routes share a table. */
  ghost predicate NoClash(routes: seq<Route>) {
    forall i, j :: 0 <= i < j < |routes| ==> routes[i].table != routes[j].table
  }

  lemma {:induction false} RemovalKeepsAtLeast(base: nat, routes: seq<Route>, flags: seq<bool>)
    requires AtLeast(base, routes) && |flags| == |routes|
    ensures AtLeast(base, Keep(routes, flags))
  {
    if routes != [] {
      RemovalKeepsAtLeast(base, routes[..|routes| - 1], flags[..|routes| - 1]);
    }
  }

  /** Every run keeps the table at position i at or above base + i. */
  lemma {:induction false} RunsKeepAtLeast(base: nat, lists: seq<seq<Route>>, ops: seq<Operation>, k: nat)
    requires IsRun(base, lists, ops) && NoOverflow(base, lists) && k < |lists|
    ensures AtLeast(base, lists[k])
  {
    if k > 0 {
      RunsKeepAtLeast(base, lists, ops, k - 1);
      assert lists[k] == Apply(base, lists[k - 1], ops[k - 1]);
      assert base + |lists[k - 1]| < U32;
      StepKeepsAtLeast(base, lists[k - 1], ops[k - 1]);
    }
  }

  lemma StepKeepsAtLeast(base: nat, routes: seq<Route>, op: Operation)
    requires AtLeast(base, routes) && base + |routes| < U32
    ensures AtLeast(base, Apply(base, routes, op))
  {
    if op.TearDown? {
      RemovalKeepsAtLeast(base, routes, Others(routes, op.id));
    }
  }

  /** The teardown removes only a suffix of the list: the routes it keeps are the first ones. */
  ghost predicate SuffixOnly(routes: seq<Route>, op: Operation) {
    op.TearDown? ==> Without(routes, op.id) <= routes
  }

  /** Runs whose teardowns remove only a suffix keep every table at base + i, hence all distinct. */
  lemma {:induction false} SuffixRunsStayAligned(base: nat, lists: seq<seq<Route>>, ops: seq<Operation>, k: nat)
    requires IsRun(base, lists, ops) && NoOverflow(base, lists) && k < |lists|
    requires forall i :: 0 <= i < |ops| ==> SuffixOnly(lists[i], ops[i])
    ensures Aligned(base, lists[k]) && NoClash(lists[k])
  {
    if k > 0 {
      SuffixRunsStayAligned(base, lists, ops, k - 1);
      assert base + |lists[k - 1]| < U32;
      SuffixStepStaysAligned(base, lists[k - 1], ops[k - 1]);
    }
  }

  lemma SuffixStepStaysAligned(base: nat, routes: seq<Route>, op: Operation)
    requires Aligned(base, routes) && SuffixOnly(routes, op) && base + |routes| < U32
    ensures Aligned(base, Apply(base, routes, op))
  {
  }

  /** A new route clashes exactly when a survivor already holds table base + len. */
  lemma SetupClashIff(base: nat, routes: seq<Route>, dev: string, id: string)
    requires NoClash(routes) && base + |routes| < U32
    ensures NoClash(Setup(base, routes, dev, id)) <==> forall i :: 0 <= i < |routes| ==> routes[i].table != base + |routes|
  {
    var after := Setup(base, routes, dev, id);
    assert after[|routes|].table == base + |routes|;
    if NoClash(after) {
      forall i | 0 <= i < |routes|
        ensures routes[i].table != base + |routes|
      {
        assert after[i] == routes[i];
      }
    }
  }

  /** Two setups, teardown of the first, one more setup: two live routes on one table. */
  lemma ClashExample()
    ensures var two := Setup(100, Setup(100, [], "wg0", "a"), "wg1", "b");
            var again := Setup(100, Without(two, "a"), "wg2", "c");
            |again| == 2 && again[0].table == again[1].table == 101
  {
    var one := Setup(100, [], "wg0", "a");
    var two := Setup(100, one, "wg1", "b");
    assert one == [Route("a", "wg0", 100)] && two == one + [Route("b", "wg1", 101)];
    assert Others(two, "a") == [false, true] by {
      assert "b"[0] != "a"[0];
    }
    assert two[..1] == one && [false, true][..1] == [false] && one[..0] == [] && [false][..0] == [];
    assert Keep(one, [false]) == [];
  }

  // ---------------------------------------------------------------- when clashes can still come

  /** `m` further setups, no teardown. */
  function SetupMany(base: nat, routes: seq<Route>, m: nat): (after: seq<Route>)
    ensures |after| == |routes| + m && routes <= after
  {
    if m == 0 then routes
    else
      var before := SetupMany(base, routes, m - 1);
      Setup(base, before, "", "")
  }

  lemma {:induction false} ManySetupsAligned(base: nat, routes: seq<Route>, m: nat)
    requires Aligned(base, routes) && base + |routes| + m < U32
    ensures Aligned(base, SetupMany(base, routes, m))
  {
    if m > 0 {
      ManySetupsAligned(base, routes, m - 1);
      TableWithoutWrap(base, |routes| + m - 1);
    }
  }

  /** Distinct tables at or above base + i, all below base + len, leave no choice but base + i. */
  lemma {:induction false} TightMeansAligned(base: nat, routes: seq<Route>)
    requires AtLeast(base, routes) && NoClash(routes)
    requires forall i :: 0 <= i < |routes| ==> routes[i].table < base + |routes|
    ensures Aligned(base, routes)
  {
    if routes != [] {
      var n := |routes| - 1;
      assert forall i :: 0 <= i < n ==> routes[i].table != routes[n].table;
      TightMeansAligned(base, routes[..n]);
    }
  }

  /** A list that is not aligned holds a table that a later setup will allocate again. */
  lemma MisalignedClashesLater(base: nat, routes: seq<Route>) returns (m: nat)
    requires AtLeast(base, routes) && NoClash(routes) && !Aligned(base, routes)
    requires forall i :: 0 <= i < |routes| ==> routes[i].table < U32
    ensures base + |routes| + m <= U32
    ensures !NoClash(SetupMany(base, routes, m))
  {
    var i := HasHighTable(base, routes);
    var gap := routes[i].table - base - |routes|;
    m := gap + 1;
    LastSetupTable(base, routes, gap);
    var after := SetupMany(base, routes, m);
    assert after[i] == routes[i];
    assert after[|routes| + gap].table == after[i].table;
  }

  lemma HasHighTable(base: nat, routes: seq<Route>) returns (i: nat)
    requires AtLeast(base, routes) && NoClash(routes) && !Aligned(base, routes)
    ensures i < |routes| && routes[i].table >= base + |routes|
  {
    if forall k :: 0 <= k < |routes| ==> routes[k].table < base + |routes| {
      TightMeansAligned(base, routes);
      assert false;
    }
    i :| 0 <= i < |routes| && routes[i].table >= base + |routes|;
  }

  lemma LastSetupTable(base: nat, routes: seq<Route>, gap: nat)
    requires base + |routes| + gap < U32
    ensures SetupMany(base, routes, gap + 1)[|routes| + gap].table == base + |routes| + gap
  {
    TableWithoutWrap(base, |routes| + gap);
  }

  /**
   * For the lists that runs reach with distinct tables: setups alone can never clash if and only
   * if the list is aligned.
   */
  lemma SafeIffAligned(base: nat, routes: seq<Route>)
    requires AtLeast(base, routes) && NoClash(routes)
    requires forall i :: 0 <= i < |routes| ==> routes[i].table < U32
    ensures Aligned(base, routes) <==>
            forall m: nat :: base + |routes| + m <= U32 ==> NoClash(SetupMany(base, routes, m))
  {
    if Aligned(base, routes) {
      forall m: nat | base + |routes| + m <= U32
        ensures NoClash(SetupMany(base, routes, m))
      {
        if m > 0 {
          ManySetupsAligned(base, routes, m - 1);
          LastSetupTable(base, routes, m - 1);
        }
      }
    } else {
      var m := MisalignedClashesLater(base, routes);
    }
  }

  /** Tables are 32-bit in every run. */
  lemma {:induction false} RunTablesFit(base: nat, lists: seq<seq<Route>>, ops: seq<Operation>, k: nat)
    requires IsRun(base, lists, ops) && k < |lists|
    ensures forall r :: r in lists[k] ==> r.table < U32
  {
    if k > 0 {
      RunTablesFit(base, lists, ops, k - 1);
      assert lists[k] == Apply(base, lists[k - 1], ops[k - 1]);
      if ops[k - 1].TearDown? {
        forall r | r in lists[k]
          ensures r in lists[k - 1]
        {
          KeptIff(lists[k - 1], Others(lists[k - 1], ops[k - 1].id), r);
        }
      }
    }
  }

  /**
   * In any state of any run whose live tables are distinct, further setups can never clash if and
   * only if every live route still holds table base + position.
   */
  lemma RunSafeIffAligned(base: nat, lists: seq<seq<Route>>, ops: seq<Operation>, k: nat)
    requires IsRun(base, lists, ops) && NoOverflow(base, lists) && k < |lists| && NoClash(lists[k])
    ensures Aligned(base, lists[k]) <==>
            forall m: nat :: base + |lists[k]| + m <= U32 ==> NoClash(SetupMany(base, lists[k], m))
  {
    RunsKeepAtLeast(base, lists, ops, k);
    RunTablesFit(base, lists, ops, k);
    SafeIffAligned(base, lists[k]);
  }
}
