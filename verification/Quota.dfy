/** The storage quota shared by the download workers of a consolidation: each worker takes the size of its file off one
    atomic counter, and downloads the file only if the counter did not become negative. */
module Quota {
  import opened Basics

  function Sum(sizes: seq<int>): int {
    if sizes == [] then 0 else Sum(sizes[..|sizes| - 1]) + sizes[|sizes| - 1]
  }

  predicate NonNegative(sizes: seq<int>) {
    forall i | 0 <= i < |sizes| :: sizes[i] >= 0
  }

  /** The sizes granted, when the atomic decrements happen in this order. */
  function Granted(quota: int, sizes: seq<int>): seq<int> {
    if sizes == [] then []
    else
      var n := |sizes| - 1;
      Granted(quota, sizes[..n]) + if quota - Sum(sizes) >= 0 then [sizes[n]] else []
  }

  lemma {:induction false} SumOfPrefix(sizes: seq<int>, k: nat)
    requires NonNegative(sizes) && k <= |sizes|
    ensures Sum(sizes[..k]) <= Sum(sizes)
  {
    if k == |sizes| {
      assert sizes[..k] == sizes;
    } else {
      SumOfPrefix(sizes[..|sizes| - 1], k);
      assert sizes[..|sizes| - 1][..k] == sizes[..k];
    }
  }

  lemma LastOne(quota: int, sizes: seq<int>)
    requires sizes != []
    ensures Sum(sizes) == Sum(sizes[..|sizes| - 1]) + sizes[|sizes| - 1]
    ensures Granted(quota, sizes) ==
              Granted(quota, sizes[..|sizes| - 1]) + if quota - Sum(sizes) >= 0 then [sizes[|sizes| - 1]] else []
  {
  }

  /** The granted files are a prefix, in the order of the decrements: after the first refusal nothing is granted, not
      even a smaller file. */
  lemma {:induction false} GrantedIsAPrefix(quota: int, sizes: seq<int>) returns (k: nat)
    requires NonNegative(sizes)
    ensures k <= |sizes| && Granted(quota, sizes) == sizes[..k]
    ensures k > 0 ==> Sum(sizes[..k]) <= quota
    ensures k < |sizes| ==> Sum(sizes[..k + 1]) > quota
  {
    if sizes == [] {
      k := 0;
    } else {
      hide Sum;
      hide Granted;
      var n := |sizes| - 1;
      var front := sizes[..n];
      LastOne(quota, sizes);
      k := GrantedIsAPrefix(quota, front);
      assert front[..k] == sizes[..k] && sizes[..|sizes|] == sizes;
      if k < n {
        assert front[..k + 1] == sizes[..k + 1];
        SumOfPrefix(front, k + 1);
      } else if quota - Sum(sizes) >= 0 {
        assert front[..n] == front && front + [sizes[n]] == sizes;
        k := |sizes|;
      }
    }
  }

  /** And it is the longest prefix that fits the quota. */
  lemma {:induction false} GrantedIsLongest(quota: int, sizes: seq<int>, m: nat)
    requires NonNegative(sizes) && m <= |sizes| && Sum(sizes[..m]) <= quota
    ensures |Granted(quota, sizes)| >= m
  {
    var k := GrantedIsAPrefix(quota, sizes);
    assert k < m ==> sizes[..m][..k + 1] == sizes[..k + 1];
    if k < m {
      SumOfPrefix(sizes[..m], k + 1);
    }
  }

  /** Whatever the order, the files granted never exceed the quota. */
  lemma {:induction false} WithinQuota(quota: int, sizes: seq<int>)
    requires NonNegative(sizes)
    ensures Sum(Granted(quota, sizes)) <= Max(quota, 0)
  {
    var k := GrantedIsAPrefix(quota, sizes);
  }

  class DownloadQuota {
    const quota: int
    var remaining: int
    /** The sizes asked and granted so far, in the order of the atomic decrements. */
    ghost var asked: seq<int>
    ghost var granted: seq<int>

    ghost predicate Valid() reads this {
      && NonNegative(asked)
      && remaining == quota - Sum(asked)
      && granted == Granted(quota, asked)
    }

    constructor (quota: int)
      ensures Valid() && this.quota == quota && asked == []
    {
      this.quota, remaining := quota, quota;
      asked, granted := [], [];
    }

    /** The atomic decrement: returns whether the file may be downloaded. */
    method Reserve(size: int) returns (ok: bool)
      requires Valid() && size >= 0
      modifies this
      ensures Valid() && asked == old(asked) + [size]
      ensures granted == if ok then old(granted) + [size] else old(granted)
      ensures Sum(granted) <= Max(quota, 0)
    {
      remaining := remaining - size;
      ok := remaining >= 0;
      assert (asked + [size])[..|asked|] == asked;
      asked := asked + [size];
      if ok {
        granted := granted + [size];
      }
      WithinQuota(quota, asked);
    }
  }

  // ----- The quota in bytes ------------------------------------------------

  const TWO_63: int := 0x8000_0000_0000_0000
  const TWO_64: int := 0x1_0000_0000_0000_0000

  /** A 64-bit signed integer. */
  function Wrap64(x: int): int {
    (x + TWO_63) % TWO_64 - TWO_63
  }

  function QuotaBytes(maxMb: int): int {
    Wrap64(maxMb * 1048576)
  }

  /** The quota is the intended number of bytes exactly when that number fits in 64 bits. */
  lemma {:induction false} QuotaFits(maxMb: int)
    ensures QuotaBytes(maxMb) == maxMb * 1048576 <==> -8796093022208 <= maxMb < 8796093022208
  {
  }

  /** The largest 64-bit integer, which stands for "no limit" when local downloads are enabled without a limit, gives a
      negative quota: then no file is granted. */
  lemma {:induction false} UnlimitedDownloadsNothing(sizes: seq<int>)
    requires NonNegative(sizes)
    ensures QuotaBytes(TWO_63 - 1) == -1048576
    ensures Granted(QuotaBytes(TWO_63 - 1), sizes) == []
  {
    var k := GrantedIsAPrefix(-1048576, sizes);
    SumOfPrefix(sizes[..k], 0);
  }
}
