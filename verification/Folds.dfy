/** Concatenations and sums over the first `k` calls of a history. */
module Folds {
  import opened Bytes

  ghost function Join(pieces: seq<seq<byte>>, k: nat): seq<byte>
    requires k <= |pieces|
  {
    if k == 0 then [] else Join(pieces, k - 1) + pieces[k - 1]
  }

  ghost function Sum(counts: seq<nat>, k: nat): nat
    requires k <= |counts|
  {
    if k == 0 then 0 else Sum(counts, k - 1) + counts[k - 1]
  }

  lemma JoinOne(pieces: seq<seq<byte>>)
    requires |pieces| == 1
    ensures Join(pieces, 1) == pieces[0]
  {
    assert Join(pieces, 1) == Join(pieces, 0) + pieces[0];
  }

  lemma JoinTwo(pieces: seq<seq<byte>>)
    requires |pieces| == 2
    ensures Join(pieces, 2) == pieces[0] + pieces[1]
  {
    assert Join(pieces, 1) == Join(pieces, 0) + pieces[0] == pieces[0];
  }

  lemma {:induction false} JoinGrows(pieces: seq<seq<byte>>, j: nat, k: nat)
    requires j <= k <= |pieces|
    ensures Join(pieces, j) <= Join(pieces, k)
    decreases k
  {
    if j < k {
      JoinGrows(pieces, j, k - 1);
    }
  }

  /** What goes in at every step comes out or is carried on, so it is so for the whole. */
  lemma {:induction false} JoinTelescopes(ins: seq<seq<byte>>, outs: seq<seq<byte>>, carry: seq<seq<byte>>, k: nat)
    requires k <= |ins| == |outs| == |carry| - 1 && carry[0] == []
    requires forall i :: 0 <= i < |ins| ==> carry[i] + ins[i] == outs[i] + carry[i + 1]
    ensures Join(ins, k) == Join(outs, k) + carry[k]
  {
    if k > 0 {
      JoinTelescopes(ins, outs, carry, k - 1);
      var i, o, c := ins[k - 1], outs[k - 1], carry[k - 1];
      assert (Join(outs, k - 1) + c) + i == Join(outs, k - 1) + (c + i);
      assert (Join(outs, k - 1) + o) + carry[k] == Join(outs, k - 1) + (o + carry[k]);
    }
  }

  lemma {:induction false} JoinLength(pieces: seq<seq<byte>>, parts: seq<seq<byte>>, rest: seq<nat>, k: nat)
    requires k <= |pieces| == |parts| == |rest|
    requires forall i :: 0 <= i < |pieces| ==> |pieces[i]| == |parts[i]| + rest[i]
    ensures |Join(pieces, k)| == |Join(parts, k)| + Sum(rest, k)
  {
    if k > 0 {
      JoinLength(pieces, parts, rest, k - 1);
    }
  }

  lemma {:induction false} JoinSame(pieces: seq<seq<byte>>, parts: seq<seq<byte>>, k: nat)
    requires k <= |pieces| == |parts|
    requires forall i :: 0 <= i < k ==> pieces[i] == parts[i]
    ensures Join(pieces, k) == Join(parts, k)
  {
    if k > 0 {
      JoinSame(pieces, parts, k - 1);
    }
  }

  /** A running total that skips some counts is the number of bytes without those. */
  lemma {:induction false} TotalCounts(total: seq<nat>, pieces: seq<seq<byte>>, skipped: seq<nat>, k: nat)
    requires k <= |pieces| == |skipped| == |total| - 1 && total[0] == 0
    requires forall i :: 0 <= i < |pieces| ==> total[i + 1] + skipped[i] == total[i] + |pieces[i]|
    ensures total[k] + Sum(skipped, k) == |Join(pieces, k)|
  {
    if k > 0 {
      TotalCounts(total, pieces, skipped, k - 1);
    }
  }

  lemma {:induction false} TotalSums(total: seq<nat>, counts: seq<nat>, k: nat)
    requires k <= |counts| == |total| - 1 && total[0] == 0
    requires forall i :: 0 <= i < |counts| ==> total[i + 1] == total[i] + counts[i]
    ensures total[k] == Sum(counts, k)
  {
    if k > 0 {
      TotalSums(total, counts, k - 1);
    }
  }

  lemma {:induction false} SumIsZeroIff(counts: seq<nat>, k: nat)
    requires k <= |counts|
    ensures Sum(counts, k) == 0 <==> forall i :: 0 <= i < k ==> counts[i] == 0
  {
    if k > 0 {
      SumIsZeroIff(counts, k - 1);
    }
  }

  /**
   * Streams that agree while `open` holds, stop for good when it no longer does, and may fall
   * apart by less than `gap` in the step that closes them.
   */
  ghost predicate Lagging(a: seq<seq<byte>>, b: seq<seq<byte>>, c: seq<seq<byte>>, open: seq<bool>, gap: nat) {
    && |a| == |b| == |c| == |open| - 1 && gap > 0
    && (forall i :: 0 <= i < |a| ==> a[i] <= b[i] <= c[i] && |b[i]| < |a[i]| + gap)
    && (forall i :: 0 <= i < |a| && open[i + 1] ==> open[i] && a[i] == c[i])
    && (forall i :: 0 <= i < |a| && !open[i] ==> c[i] == [])
  }

  lemma {:induction false} JoinLags(a: seq<seq<byte>>, b: seq<seq<byte>>, c: seq<seq<byte>>, open: seq<bool>, gap: nat, k: nat)
    requires Lagging(a, b, c, open, gap) && k <= |a|
    ensures Join(a, k) <= Join(b, k) <= Join(c, k) && |Join(b, k)| < |Join(a, k)| + gap
    ensures open[k] ==> Join(a, k) == Join(c, k)
  {
    if k > 0 {
      JoinLags(a, b, c, open, gap, k - 1);
      if open[k - 1] {
        assert Join(a, k - 1) == Join(b, k - 1) == Join(c, k - 1);
      } else {
        assert a[k - 1] == b[k - 1] == c[k - 1] == [];
      }
    }
  }
}
