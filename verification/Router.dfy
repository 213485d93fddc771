/** Tunnel selection: the wrapping ticket counter and how evenly it spreads picks. */
module Router {
  import opened Filter
  import opened Pool

  /** The counter is a machine word: it wraps at 2^64. */
  const WORD: nat := 0x1_0000_0000_0000_0000

  datatype PickResult = Picked(transport: Transport) | NoHealthyTunnels

  class RoundRobinRouter {
    var counter: nat

    ghost predicate Valid()
      reads this
    {
      counter < WORD
    }

    constructor ()
      ensures Valid() && counter == 0
    {
      counter := 0;
    }

    /** Picks the next healthy transport in turn; a failed pick takes no ticket. */
    method Pick(transports: seq<Transport>, up: seq<bool>) returns (r: PickResult)
      requires Valid() && |up| == |transports|
      modifies this
      ensures Valid()
      ensures var kept := Keep(transports, up);
              if kept == [] then r == NoHealthyTunnels && counter == old(counter)
              else r == Picked(kept[old(counter) % |kept|]) && counter == (old(counter) + 1) % WORD
    {
      var healthy := KeepFlagged(transports, up);
      if healthy == [] {
        return NoHealthyTunnels;
      }
      var ticket := counter;
      counter := (counter + 1) % WORD;
      r := Picked(healthy[ticket % |healthy|]);
    }
  }

  /** Picks any healthy transport; `choice` stands for the random source. */
  method RandomPick(transports: seq<Transport>, up: seq<bool>, choice: nat) returns (r: PickResult)
    requires |up| == |transports|
    ensures r == NoHealthyTunnels <==> forall i :: 0 <= i < |up| ==> !up[i]
    ensures r.Picked? ==> exists i :: 0 <= i < |transports| && up[i] && transports[i] == r.transport
  {
    var healthy := KeepFlagged(transports, up);
    NoneKeptIff(transports, up);
    if healthy == [] {
      return NoHealthyTunnels;
    }
    var chosen := healthy[choice % |healthy|];
    KeptIff(transports, up, chosen);
    r := Picked(chosen);
  }

  /**
   * The picker closure: pool snapshot, then the router's own filter. If no health flag flips in
   * between, the two filters amount to one.
   */
  method PickFromPool(pool: Pool, router: RoundRobinRouter, locked: bool, down: set<nat>) returns (r: PickResult)
    requires router.Valid()
    modifies router
    ensures router.Valid()
    ensures var kept := Keep(pool.transports, Readings(pool.transports, down));
            if locked || kept == [] then r == NoHealthyTunnels && router.counter == old(router.counter)
            else
              && r == Picked(kept[old(router.counter) % |kept|])
              && router.counter == (old(router.counter) + 1) % WORD
  {
    var healthy := pool.HealthyTransportsSync(locked, Readings(pool.transports, down));
    r := router.Pick(healthy, Readings(healthy, down));
    if !locked {
      SecondFilterIsIdentity(pool.transports, Readings(pool.transports, down), Readings(healthy, down), down);
    }
  }

  /** Health as read when the tunnels in `down` are the unhealthy ones. */
  function Readings(ts: seq<Transport>, down: set<nat>): (up: seq<bool>)
    ensures ReadFrom(ts, up, down)
  {
    seq(|ts|, i requires 0 <= i < |ts| => ts[i].handle !in down)
  }

  // ---------------------------------------------------------------- fairness

  // Stated for every word size `w`; the counter of the router wraps at w == WORD.

  /** How many of the `m` tickets following ticket `c` fall on index `j` of `n` tunnels. */
  ghost function Hits(w: nat, c: nat, m: nat, n: nat, j: nat): nat
    requires n > 0 && w > 0
  {
    if m == 0 then 0
    else Hits(w, c, m - 1, n, j) + (if (c + m - 1) % w % n == j then 1 else 0)
  }

  /** How many naturals below `x` are congruent to `j` modulo `n`. */
  ghost function Below(x: nat, n: nat, j: nat): nat
    requires j < n
  {
    x / n + (if x % n > j then 1 else 0)
  }

  lemma {:induction false} DivModUnique(x: int, q: int, r: int, n: int)
    requires 0 <= r < n && x == q * n + r
    ensures x / n == q && x % n == r
  {
    var d := x / n - q;
    assert d * n == r - x % n by {
      assert (x / n) * n - q * n == d * n;
    }
    assert d >= 1 ==> d * n >= n;
    assert d <= -1 ==> d * n <= -n;
  }

  lemma {:induction false} AddModulus(x: nat, n: nat)
    requires n > 0
    ensures (x + n) / n == x / n + 1 && (x + n) % n == x % n
  {
    DivModUnique(x + n, x / n + 1, x % n, n) by {
      assert (x / n + 1) * n == (x / n) * n + n;
    }
  }

  /** A counter modulo `n` advances by one, or returns to zero. */
  lemma {:induction false} ModStep(x: nat, n: nat)
    requires n > 0
    ensures (x + 1) % n == (x % n + 1) % n
  {
    var q, r := x / n, x % n;
    assert (q + 1) * n == q * n + n;
    if r + 1 < n {
      DivModUnique(x + 1, q, r + 1, n);
      DivModUnique(r + 1, 0, r + 1, n);
    } else {
      DivModUnique(x + 1, q + 1, 0, n);
      DivModUnique(n, 1, 0, n);
    }
  }

  lemma {:induction false} BelowStep(x: nat, n: nat, j: nat)
    requires j < n
    ensures Below(x + 1, n, j) == Below(x, n, j) + (if x % n == j then 1 else 0)
  {
    var q, r := x / n, x % n;
    if r + 1 < n {
      DivModUnique(x + 1, q, r + 1, n);
    } else {
      DivModUnique(x + 1, q + 1, 0, n);
    }
  }

  /** Without a wrap the hits are counted by congruence. */
  lemma {:induction false} HitsWithoutWrap(w: nat, c: nat, m: nat, n: nat, j: nat)
    requires w > 0 && j < n && c + m <= w
    ensures Hits(w, c, m, n, j) == Below(c + m, n, j) - Below(c, n, j)
  {
    if m > 0 {
      HitsWithoutWrap(w, c, m - 1, n, j);
      DivModUnique(c + m - 1, 0, c + m - 1, w);
      BelowStep(c + m - 1, n, j);
    }
  }

  /** Floor and ceiling of m/n when m lies within n of the multiple d*n. */
  lemma {:induction false} FloorCeiling(m: int, n: int, d: int, e: int)
    requires 0 < n && -n < e < n && m == d * n + e
    ensures m / n == if e >= 0 then d else d - 1
    ensures (m + n - 1) / n == if e > 0 then d + 1 else d
  {
    assert (d - 1) * n == d * n - n && (d + 1) * n == d * n + n;
    if e >= 0 {
      DivModUnique(m, d, e, n);
    } else {
      DivModUnique(m, d - 1, e + n, n);
    }
    if e > 0 {
      DivModUnique(m + n - 1, d + 1, e - 1, n);
    } else {
      DivModUnique(m + n - 1, d, e + n - 1, n);
    }
  }

  lemma {:induction false} BelowSpread(c: nat, m: nat, n: nat, j: nat)
    requires j < n
    ensures m / n <= Below(c + m, n, j) - Below(c, n, j) <= (m + n - 1) / n
  {
    var a, r, b, s := c / n, c % n, (c + m) / n, (c + m) % n;
    FloorCeiling(m, n, b - a, s - r) by {
      assert (b - a) * n == b * n - a * n;
    }
  }

  /** Any `m` consecutive tickets that do not wrap hit each tunnel floor(m/n) or ceil(m/n) times. */
  lemma {:induction false} FairWithoutWrap(w: nat, c: nat, m: nat, n: nat, j: nat)
    requires w > 0 && j < n && c + m <= w
    ensures m / n <= Hits(w, c, m, n, j) <= (m + n - 1) / n
  {
    HitsWithoutWrap(w, c, m, n, j);
    BelowSpread(c, m, n, j);
  }

  lemma {:induction false} HitsSplit(w: nat, c: nat, a: nat, b: nat, n: nat, j: nat)
    requires n > 0 && w > 0
    ensures Hits(w, c, a + b, n, j) == Hits(w, c, a, n, j) + Hits(w, c + a, b, n, j)
    decreases b
  {
    if b > 0 {
      HitsSplit(w, c, a, b - 1, n, j);
    }
  }

  lemma {:induction false} HitsPeriodic(w: nat, c: nat, m: nat, n: nat, j: nat)
    requires n > 0 && w > 0
    ensures Hits(w, c + w, m, n, j) == Hits(w, c, m, n, j)
  {
    if m > 0 {
      HitsPeriodic(w, c, m - 1, n, j);
      AddModulus(c + m - 1, w);
    }
  }

  /** Only the ticket modulo the word size matters. */
  lemma {:induction false} HitsReduced(w: nat, c: nat, m: nat, n: nat, j: nat)
    requires n > 0 && w > 0
    ensures Hits(w, c, m, n, j) == Hits(w, c % w, m, n, j)
    decreases c
  {
    if c >= w {
      HitsReduced(w, c - w, m, n, j);
      HitsPeriodic(w, c - w, m, n, j);
      AddModulus(c - w, w);
    } else {
      DivModUnique(c, 0, c, w);
    }
  }

  /** Number of wraps among the `m` tickets following ticket `c < w`. */
  function Wraps(w: nat, c: nat, m: nat): nat
    requires w > 0
  {
    if m == 0 then 0 else (c + m - 1) / w
  }

  lemma {:induction false} CeilingAtMostOneMore(m: nat, n: nat)
    requires n > 0
    ensures (m + n - 1) / n <= m / n + 1
  {
    FloorCeiling(m, n, m / n, m % n);
  }

  lemma {:induction false} WrapsSplit(w: nat, c: nat, m: nat)
    requires c < w < c + m
    ensures Wraps(w, c, w - c) == 0
    ensures Wraps(w, c, m) == Wraps(w, 0, m - (w - c)) + 1
  {
    var x := m - (w - c) - 1;
    DivModUnique(w - 1, 0, w - 1, w);
    AddModulus(x, w);
  }

  /** Over any stretch two tunnels' hits differ by at most one more than the number of wraps. */
  lemma {:induction false} SpreadBoundedByWraps(w: nat, c: nat, m: nat, n: nat, j: nat, k: nat)
    requires j < n && k < n && c < w
    ensures Hits(w, c, m, n, j) <= Hits(w, c, m, n, k) + Wraps(w, c, m) + 1
    decreases m
  {
    if c + m <= w {
      FairWithoutWrap(w, c, m, n, j);
      FairWithoutWrap(w, c, m, n, k);
      CeilingAtMostOneMore(m, n);
    } else {
      var a := w - c;
      SpreadBoundedByWraps(w, c, a, n, j, k);
      SpreadBoundedByWraps(w, 0, m - a, n, j, k);
      HitsSplit(w, c, a, m - a, n, j);
      HitsSplit(w, c, a, m - a, n, k);
      HitsPeriodic(w, 0, m - a, n, j);
      HitsPeriodic(w, 0, m - a, n, k);
      WrapsSplit(w, c, m);
    }
  }

  /** Across a single wrap the bound is two, and it is attained: 3 tunnels, tickets 2^64-1 and 0. */
  lemma SpreadOfTwoIsAttained()
    ensures Wraps(WORD, WORD - 1, 2) == 1
    ensures Hits(WORD, WORD - 1, 2, 3, 0) == 2 && Hits(WORD, WORD - 1, 2, 3, 1) == 0
  {
    assert (WORD - 1) % WORD == WORD - 1 && (WORD - 1) % 3 == 0;
    assert WORD % WORD == 0;
    HitsOfTwo(WORD, WORD - 1, 3, 0);
    HitsOfTwo(WORD, WORD - 1, 3, 1);
  }

  lemma HitsOfTwo(w: nat, c: nat, n: nat, j: nat)
    requires w > 0 && n > 0
    ensures Hits(w, c, 2, n, j) == (if c % w % n == j then 1 else 0) + (if (c + 1) % w % n == j then 1 else 0)
  {
    assert Hits(w, c, 1, n, j) == Hits(w, c, 0, n, j) + (if (c + 1 - 1) % w % n == j then 1 else 0);
  }

  /** When n divides the word size the wrap is invisible: the ticket index is just c mod n. */
  lemma {:induction false} WrapInvisible(w: nat, x: nat, n: nat)
    requires w > 0 && n > 0 && w % n == 0
    ensures x % w % n == x % n
  {
    var q, r, d := x / w, x % w, w / n;
    assert w == d * n;
    assert x == q * (d * n) + r;
    assert q * (d * n) == (q * d) * n;
    DivModUnique(x, q * d + r / n, r % n, n) by {
      assert (q * d + r / n) * n == (q * d) * n + (r / n) * n;
    }
  }

  lemma {:induction false} HitsWhenDividing(w: nat, c: nat, m: nat, n: nat, j: nat)
    requires w > 0 && j < n && w % n == 0
    ensures Hits(w, c, m, n, j) == Below(c + m, n, j) - Below(c, n, j)
  {
    if m > 0 {
      HitsWhenDividing(w, c, m - 1, n, j);
      WrapInvisible(w, c + m - 1, n);
      BelowStep(c + m - 1, n, j);
    }
  }

  /** If n divides the word size the tight bound survives any number of wraps. */
  lemma {:induction false} FairWhenDividing(w: nat, c: nat, m: nat, n: nat, j: nat)
    requires w > 0 && j < n && w % n == 0
    ensures m / n <= Hits(w, c, m, n, j) <= (m + n - 1) / n
  {
    HitsWhenDividing(w, c, m, n, j);
    BelowSpread(c, m, n, j);
  }

  /**
   * Two consecutive tickets give the same one of n >= 2 tunnels only at the wrap, and there
   * exactly when n divides w - 1.
   */
  lemma {:induction false} ConsecutiveRepeat(w: nat, ticket: nat, n: nat)
    requires n >= 2 && ticket < w
    ensures ticket % n == (ticket + 1) % w % n <==> ticket == w - 1 && (w - 1) % n == 0
  {
    if ticket == w - 1 {
      DivModUnique(w, 1, 0, w);
      DivModUnique(0, 0, 0, n);
    } else {
      DivModUnique(ticket + 1, 0, ticket + 1, w);
      var q, r := ticket / n, ticket % n;
      if r + 1 < n {
        DivModUnique(ticket + 1, q, r + 1, n);
      } else {
        DivModUnique(ticket + 1, q + 1, 0, n);
      }
    }
  }
}
