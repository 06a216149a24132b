// The growable histogram used by the line filters: a table of bucket
// counts plus a sample counter, and the median the program computes from it.

module Histograms {
  import opened Common

  /** Sum of the buckets. */
  function Sum(d: seq<int>): int
  {
    if d == [] then 0 else Sum(d[..|d| - 1]) + d[|d| - 1]
  }

  lemma {:induction false} SumPrefixStep(d: seq<int>, k: nat)
    requires k < |d|
    ensures Sum(d[..k + 1]) == Sum(d[..k]) + d[k]
  {
    assert d[..k + 1][..k] == d[..k];
  }

  lemma {:induction false} SumAppend(a: seq<int>, b: seq<int>)
    ensures Sum(a + b) == Sum(a) + Sum(b)
    decreases |b|
  {
    if b == [] {
      assert a + b == a;
    } else {
      assert (a + b)[..|a + b| - 1] == a + b[..|b| - 1];
      SumAppend(a, b[..|b| - 1]);
    }
  }

  lemma {:induction false} SumZeros(n: nat)
    ensures Sum(seq(n, _ => 0)) == 0
  {
    if n > 0 {
      assert seq(n, _ => 0)[..n - 1] == seq(n - 1, _ => 0);
      SumZeros(n - 1);
    }
  }

  lemma {:induction false} SumUpdate(d: seq<int>, k: nat, v: int)
    requires k < |d|
    ensures Sum(d[k := v]) == Sum(d) - d[k] + v
  {
    assert d == d[..k] + [d[k]] + d[k + 1..];
    assert d[k := v] == d[..k] + [v] + d[k + 1..];
    SumAppend(d[..k] + [d[k]], d[k + 1..]);
    SumAppend(d[..k] + [v], d[k + 1..]);
    SumAppend(d[..k], [d[k]]);
    SumAppend(d[..k], [v]);
    assert Sum([d[k]]) == d[k] by { assert [d[k]][..0] == []; }
    assert Sum([v]) == v by { assert [v][..0] == []; }
  }

  lemma {:induction false} SumNonNegative(d: seq<int>)
    requires forall i :: 0 <= i < |d| ==> d[i] >= 0
    ensures Sum(d) >= 0
  {
    if d != [] {
      SumNonNegative(d[..|d| - 1]);
    }
  }

  /**
   * The buckets after one more sample `s`: the table grows with empty
   * buckets up to `s` and bucket `s` gains one.
   */
  function Bumped(d: seq<int>, s: nat): (r: seq<int>)
    ensures |r| == Max(|d|, s + 1)
    ensures forall i :: 0 <= i < |r| ==> r[i] == (if i < |d| then d[i] else 0) + (if i == s then 1 else 0)
    ensures Sum(r) == Sum(d) + 1
  {
    var grown := if s < |d| then d else d + seq(s + 1 - |d|, _ => 0);
    assert Sum(grown) == Sum(d) by {
      if s >= |d| {
        SumAppend(d, seq(s + 1 - |d|, _ => 0));
        SumZeros(s + 1 - |d|);
      }
    }
    SumUpdate(grown, s, grown[s] + 1);
    grown[s := grown[s] + 1]
  }

  // ---------------------------------------------------------------------
  // The median as the code computes it

  /** The number of samples in buckets `0..j`. */
  function Running(d: seq<int>, j: nat): int
    requires j < |d|
  {
    Sum(d[..j + 1])
  }

  /**
   * The first bucket at or after `l` where the running count reaches half
   * of the samples, or `|d|` if there is none.
   */
  function FirstReaching(d: seq<int>, samples: int, l: nat): (r: nat)
    requires l <= |d|
    ensures l <= r <= |d|
    ensures forall k :: l <= k < r ==> 2 * Running(d, k) < samples
    ensures r < |d| ==> 2 * Running(d, r) >= samples
    decreases |d| - l
  {
    if l == |d| then l
    else if 2 * Running(d, l) >= samples then l
    else FirstReaching(d, samples, l + 1)
  }

  /** The count the first scan has accumulated when it stops at `l`. */
  function CountThrough(d: seq<int>, l: nat): int
    requires l <= |d|
  {
    if l < |d| then Running(d, l) else Sum(d)
  }

  /** The count the second scan holds on reaching `k`, having restarted at `l`. */
  function Rescan(d: seq<int>, l: nat, k: nat): int
    requires l <= k <= |d|
  {
    CountThrough(d, l) + Sum(d[l..k])
  }

  /**
   * The end the second scan reaches: starting again at `l` (so bucket `l`
   * is counted a second time), it advances while the accumulated count is at
   * most half of the samples and buckets remain.
   */
  function UpperEnd(d: seq<int>, samples: int, l: nat, r: nat): (e: nat)
    requires l <= r <= |d|
    ensures r <= e <= |d|
    ensures forall k :: r <= k < e ==> 2 * Rescan(d, l, k) <= samples
    ensures e < |d| ==> 2 * Rescan(d, l, e) > samples
    decreases |d| - r
  {
    if 2 * Rescan(d, l, r) > samples || r >= |d| then r
    else UpperEnd(d, samples, l, r + 1)
  }

  function MedianOf(d: seq<int>, samples: int): int
  {
    var l := FirstReaching(d, samples, 0);
    (l + UpperEnd(d, samples, l, l)) / 2
  }

  class Histogram {
    var samples: int
    var distrib: seq<int>

    ghost predicate Valid()
      reads this
    {
      0 <= samples <= INT_MAX &&
      (forall i :: 0 <= i < |distrib| ==> distrib[i] >= 0) &&
      samples == Sum(distrib)
    }

    constructor ()
      ensures Valid() && samples == 0 && distrib == []
    {
      samples := 0;
      distrib := [];
    }

    function Samples(): int reads this { samples }

    function Size(): int reads this { |distrib| }

    predicate Empty() reads this { distrib == [] }

    method Reset()
      modifies this
      ensures Valid() && Samples() == 0 && Empty()
    {
      samples := 0;
      distrib := [];
    }

    /** Counts one more sample, unless either the sample or the count has reached INT_MAX. */
    method AddSample(sample: nat)
      requires Valid()
      modifies this
      ensures Valid()
      ensures sample < INT_MAX && old(samples) < INT_MAX ==>
                samples == old(samples) + 1 && distrib == Bumped(old(distrib), sample)
      ensures !(sample < INT_MAX && old(samples) < INT_MAX) ==>
                samples == old(samples) && distrib == old(distrib)
    {
      if sample < INT_MAX && samples < INT_MAX {
        if sample >= |distrib| {
          distrib := distrib + seq(sample + 1 - |distrib|, _ => 0);
        }
        distrib := distrib[sample := distrib[sample] + 1];
        samples := samples + 1;
        assert distrib == Bumped(old(distrib), sample);
      }
    }

    method Median() returns (m: int)
      ensures m == MedianOf(distrib, samples)
    {
      var l, cum := LowerScan();
      var r := UpperScan(l, cum);
      m := (l + r) / 2;
    }

    /** The first scan: the bucket where the running count reaches half of the samples. */
    method LowerScan() returns (l: nat, cum: int)
      ensures l == FirstReaching(distrib, samples, 0)
      ensures cum == CountThrough(distrib, l)
    {
      l := 0;
      cum := 0;
      while l < |distrib|
        invariant 0 <= l <= |distrib|
        invariant cum == Sum(distrib[..l])
        invariant FirstReaching(distrib, samples, l) == FirstReaching(distrib, samples, 0)
        decreases |distrib| - l
      {
        SumPrefixStep(distrib, l);
        cum := cum + distrib[l];
        if 2 * cum >= samples {
          break;
        }
        l := l + 1;
      }
      if l == |distrib| {
        assert distrib[..l] == distrib;
      }
    }

    /** The second scan, which starts again at bucket `l` with the count of the first. */
    method UpperScan(l: nat, cum0: int) returns (r: nat)
      requires l <= |distrib| && cum0 == CountThrough(distrib, l)
      ensures r == UpperEnd(distrib, samples, l, l)
    {
      var cum := cum0;
      r := l;
      assert distrib[l..r] == [];
      while true
        invariant l <= r <= |distrib|
        invariant cum == Rescan(distrib, l, r)
        invariant UpperEnd(distrib, samples, l, r) == UpperEnd(distrib, samples, l, l)
        decreases |distrib| - r
      {
        if 2 * cum > samples || r >= |distrib| {
          break;
        }
        RescanStep(distrib, l, r);
        cum := cum + distrib[r];
        r := r + 1;
      }
    }
  }

  lemma RescanStep(d: seq<int>, l: nat, r: nat)
    requires l <= r < |d|
    ensures Rescan(d, l, r + 1) == Rescan(d, l, r) + d[r]
  {
    assert d[l..r + 1] == d[l..r] + [d[r]];
    SumAppend(d[l..r], [d[r]]);
    assert Sum([d[r]]) == d[r] by { assert [d[r]][..0] == []; }
  }

  // ---------------------------------------------------------------------
  // Properties of the median

  /** An empty histogram has median 0. */
  lemma MedianOfEmpty(d: seq<int>, samples: int)
    requires |d| == 0
    ensures MedianOf(d, samples) == 0
  {
    assert FirstReaching(d, samples, 0) == 0;
    assert UpperEnd(d, samples, 0, 0) == 0;
  }

  /** For a non-empty histogram the median is one of its buckets. */
  lemma {:induction false} MedianInRange(d: seq<int>)
    requires |d| > 0
    requires forall i :: 0 <= i < |d| ==> d[i] >= 0
    ensures 0 <= MedianOf(d, Sum(d)) < |d|
  {
    var s := Sum(d);
    var l := FirstReaching(d, s, 0);
    SumNonNegative(d);
    assert Running(d, |d| - 1) == s by { assert d[..|d|] == d; }
  }

  /** The sum of a prefix of buckets that are all zero. */
  lemma {:induction false} SumOfZeroPrefix(d: seq<int>, k: nat)
    requires k <= |d|
    requires forall i :: 0 <= i < k ==> d[i] == 0
    ensures Sum(d[..k]) == 0
  {
    if k > 0 {
      SumPrefixStep(d, k - 1);
      SumOfZeroPrefix(d, k - 1);
    }
  }

  /** When every sample lies in bucket `k`, the median is `k`. */
  lemma {:induction false} MedianOfSingleBucket(d: seq<int>, k: nat)
    requires k < |d| && d[k] > 0
    requires forall i :: 0 <= i < |d| && i != k ==> d[i] == 0
    ensures MedianOf(d, Sum(d)) == k
  {
    var s := Sum(d);
    assert s == d[k] by {
      SumPrefixStep(d, k);
      SumOfZeroPrefix(d, k);
      assert d == d[..k + 1] + d[k + 1..];
      SumAppend(d[..k + 1], d[k + 1..]);
      SumOfZeroPrefix(d[k + 1..], |d| - (k + 1));
      assert d[k + 1..][..|d| - (k + 1)] == d[k + 1..];
    }
    forall j | 0 <= j < k
      ensures 2 * Running(d, j) < s
    {
      SumOfZeroPrefix(d, j + 1);
    }
    assert 2 * Running(d, k) >= s by {
      SumPrefixStep(d, k);
      SumOfZeroPrefix(d, k);
    }
    FirstReachingIs(d, s, 0, k);
    assert Rescan(d, k, k) == s by {
      assert d[k..k] == [];
      SumPrefixStep(d, k);
      SumOfZeroPrefix(d, k);
    }
    assert UpperEnd(d, s, k, k) == k;
  }

  lemma {:induction false} FirstReachingIs(d: seq<int>, samples: int, l: nat, k: nat)
    requires l <= k < |d|
    requires forall j :: l <= j < k ==> 2 * Running(d, j) < samples
    requires 2 * Running(d, k) >= samples
    ensures FirstReaching(d, samples, l) == k
    decreases k - l
  {
    if l < k {
      FirstReachingIs(d, samples, l + 1, k);
    }
  }

  /**
   * Samples 0 and 2 give median 0, not 1: the second scan counts bucket 0
   * again and stops one bucket early.
   */
  lemma MedianOfZeroAndTwo()
    ensures MedianOf([1, 0, 1], 2) == 0
  {
    var d := [1, 0, 1];
    assert d[..1] == [1];
    assert Sum([1]) == 1 by { assert [1][..0] == []; }
    assert FirstReaching(d, 2, 0) == 0;
    assert CountThrough(d, 0) == 1;
    assert d[0..0] == [];
    assert d[0..1] == [1];
    assert UpperEnd(d, 2, 0, 1) == 1;
  }
}
