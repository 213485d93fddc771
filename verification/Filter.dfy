/** The order-preserving filter behind every `filter` and `retain` of the program. */
module Filter {
  /** The entries whose flag is set, in their original order. */
  function Keep<T>(ts: seq<T>, flags: seq<bool>): (kept: seq<T>)
    requires |ts| == |flags|
    ensures |kept| <= |ts|
  {
    if ts == [] then []
    else
      var n := |ts| - 1;
      Keep(ts[..n], flags[..n]) + (if flags[n] then [ts[n]] else [])
  }

  /** The loop form: one entry after the other. */
  method KeepFlagged<T>(ts: seq<T>, flags: seq<bool>) returns (kept: seq<T>)
    requires |ts| == |flags|
    ensures kept == Keep(ts, flags)
  {
    kept := [];
    for i := 0 to |ts|
      invariant kept == Keep(ts[..i], flags[..i])
    {
      if flags[i] {
        kept := kept + [ts[i]];
      }
      assert ts[..i + 1][..i] == ts[..i] && flags[..i + 1][..i] == flags[..i];
    }
    assert ts[..|ts|] == ts && flags[..|ts|] == flags;
  }

  /** The kept entries are exactly the flagged ones. */
  lemma {:induction false} KeptIff<T>(ts: seq<T>, flags: seq<bool>, t: T)
    requires |ts| == |flags|
    ensures t in Keep(ts, flags) <==> exists i :: 0 <= i < |ts| && flags[i] && ts[i] == t
  {
    if ts != [] {
      var n := |ts| - 1;
      KeptIff(ts[..n], flags[..n], t);
      assert forall i :: 0 <= i < n ==> flags[..n][i] == flags[i] && ts[..n][i] == ts[i];
    }
  }

  /** How many of the first `i` flags are set. */
  function Rank(flags: seq<bool>, i: nat): nat
    requires i <= |flags|
  {
    if i == 0 then 0 else Rank(flags, i - 1) + (if flags[i - 1] then 1 else 0)
  }

  lemma {:induction false} RankOfPrefix(flags: seq<bool>, n: nat, i: nat)
    requires i <= n <= |flags|
    ensures Rank(flags[..n], i) == Rank(flags, i)
  {
    if i > 0 {
      RankOfPrefix(flags, n, i - 1);
    }
  }

  /** Order is preserved: a flagged entry stands at the number of flagged entries before it. */
  lemma {:induction false} KeptAtRank<T>(ts: seq<T>, flags: seq<bool>, i: nat)
    requires |ts| == |flags| && i < |ts|
    ensures |Keep(ts, flags)| == Rank(flags, |flags|)
    ensures flags[i] ==> Rank(flags, i) < |Keep(ts, flags)| && Keep(ts, flags)[Rank(flags, i)] == ts[i]
  {
    var n := |ts| - 1;
    RankOfPrefix(flags, n, n);
    if i < n {
      KeptAtRank(ts[..n], flags[..n], i);
      RankOfPrefix(flags, n, i);
    } else if n > 0 {
      KeptAtRank(ts[..n], flags[..n], 0);
    }
  }

  /** Something is dropped exactly when some flag is not set. */
  lemma {:induction false} ShrinksIff<T>(ts: seq<T>, flags: seq<bool>)
    requires |ts| == |flags|
    ensures |Keep(ts, flags)| < |ts| <==> exists i :: 0 <= i < |flags| && !flags[i]
    ensures |Keep(ts, flags)| == |ts| ==> Keep(ts, flags) == ts
  {
    if ts != [] {
      var n := |ts| - 1;
      ShrinksIff(ts[..n], flags[..n]);
      assert forall i :: 0 <= i < n ==> flags[..n][i] == flags[i];
    }
  }

  /** Nothing is kept exactly when no flag is set. */
  lemma {:induction false} NoneKeptIff<T>(ts: seq<T>, flags: seq<bool>)
    requires |ts| == |flags|
    ensures Keep(ts, flags) == [] <==> forall i :: 0 <= i < |flags| ==> !flags[i]
  {
    if ts != [] {
      var n := |ts| - 1;
      NoneKeptIff(ts[..n], flags[..n]);
      assert forall i :: 0 <= i < n ==> flags[..n][i] == flags[i];
    }
  }

  ghost predicate Distinct<T>(ts: seq<T>) {
    forall i, j :: 0 <= i < j < |ts| ==> ts[i] != ts[j]
  }

  /** Filtering keeps entries distinct. */
  lemma {:induction false} KeptDistinct<T>(ts: seq<T>, flags: seq<bool>)
    requires |ts| == |flags| && Distinct(ts)
    ensures Distinct(Keep(ts, flags))
  {
    if ts != [] {
      var n := |ts| - 1;
      KeptDistinct(ts[..n], flags[..n]);
      KeptIff(ts[..n], flags[..n], ts[n]);
    }
  }
}
