/** How many reduced levels an image needs before it fits in the smallest one. */
module Overviews {

  /** The minimum sizes that mean "no overview" and "the default one". */
  const NO_OVERVIEW := 0
  const OVERVIEWS_DEFAULT_MIN_SIZE := -1
  const DEFAULT_MIN_SIZE := 256

  function Pow2(k: nat): (p: nat)
    ensures p >= 1
  {
    if k == 0 then 1 else 2 * Pow2(k - 1)
  }

  /** The length of a side at level `k`. */
  function Level(n: nat, k: nat): nat {
    QuotientNat(n, Pow2(k));
    n / Pow2(k)
  }

  lemma {:induction false} QuotientNat(n: nat, d: nat)
    requires d > 0
    ensures n / d >= 0
  {
  }

  /** At level `k` both sides are at most `minSize`. */
  ghost predicate Fits(width: nat, height: nat, minSize: int, k: nat) {
    Level(width, k) <= minSize && Level(height, k) <= minSize
  }

  lemma {:induction false} QuotientIs(n: nat, d: nat, q: nat, r: nat)
    requires d > 0 && n == q * d + r && r < d
    ensures n / d == q
  {
    var e := n / d - q;
    assert e * d == r - n % d;
    assert e >= 1 ==> e * d >= d;
    assert e <= -1 ==> e * d + d <= 0;
  }

  /** Halving once more, rounding down, is dividing once by the next power of two. */
  lemma {:induction false} LevelHalved(n: nat, k: nat)
    ensures Level(n, k) / 2 == Level(n, k + 1)
  {
    var p := Pow2(k);
    var q, r := n / p, n % p;
    var s := q % 2;
    assert n == (2 * (q / 2) + s) * p + r;
    assert n == (q / 2) * (2 * p) + (s * p + r);
    assert s * p <= p;
    QuotientIs(n, 2 * p, q / 2, s * p + r);
  }

  /** The number of overviews: the least level at which the image fits. The loop is watched for `steps` rounds, as it
      may not end. */
  method ComputeNbOverviews(width: nat, height: nat, minSize: int, steps: nat) returns (ended: bool, nb: nat)
    ensures minSize == NO_OVERVIEW ==> ended && nb == 0
    ensures minSize == 0 ==> ended && nb == 0
    ensures minSize != NO_OVERVIEW && ended ==> Fits(width, height, minSize, nb)
    ensures minSize != NO_OVERVIEW ==> forall k: nat | k < nb :: !Fits(width, height, minSize, k)
    ensures minSize != NO_OVERVIEW && !ended ==> nb == steps && !Fits(width, height, minSize, steps)
  {
    if minSize == NO_OVERVIEW {
      return true, 0;
    }
    nb := 0;
    var w, h := width, height;
    assert Level(width, 0) == width && Level(height, 0) == height;
    hide Level;
    while (w > minSize || h > minSize) && nb < steps
      invariant w == Level(width, nb) && h == Level(height, nb) && nb <= steps
      invariant forall k: nat | k < nb :: !Fits(width, height, minSize, k)
      decreases steps - nb
    {
      LevelHalved(width, nb);
      LevelHalved(height, nb);
      nb := nb + 1;
      w, h := w / 2, h / 2;
    }
    ended := w <= minSize && h <= minSize;
  }

  /** Once the image fits it fits at every further level, so there is one least level and no gap. */
  lemma {:induction false} FitsUpwards(width: nat, height: nat, minSize: int, k: nat, k': nat)
    requires Fits(width, height, minSize, k) && k <= k'
    ensures Fits(width, height, minSize, k')
    decreases k' - k
  {
    if k < k' {
      LevelHalved(width, k);
      LevelHalved(height, k);
      FitsUpwards(width, height, minSize, k + 1, k');
    }
  }

  /** The loop ends for a minimum size exactly when that size is not negative: it ends after at most width + height
      rounds, as a level of size zero comes by then, or never. */
  lemma {:induction false} SomeLevelFits(width: nat, height: nat, minSize: int)
    ensures (exists k: nat :: Fits(width, height, minSize, k)) <==> minSize >= 0
    ensures minSize >= 0 ==> Fits(width, height, minSize, width + height)
  {
    if minSize >= 0 {
      BelowPow2(width);
      BelowPow2(height);
      var k := width + height;
      Pow2Grows(width, k);
      Pow2Grows(height, k);
      QuotientIs(width, Pow2(k), 0, width);
      QuotientIs(height, Pow2(k), 0, height);
      assert Fits(width, height, minSize, k);
    }
  }

  lemma {:induction false} BelowPow2(n: nat)
    ensures n < Pow2(n)
  {
    if n > 0 {
      BelowPow2(n - 1);
    }
  }

  lemma {:induction false} Pow2Grows(k: nat, k': nat)
    requires k <= k'
    ensures Pow2(k) <= Pow2(k')
    decreases k' - k
  {
    if k < k' {
      Pow2Grows(k + 1, k');
    }
  }

  /** A side fits at level `k` exactly when it is below (minSize + 1) * 2^k: each doubling of the image costs one
      level. */
  lemma {:induction false} FitsIff(n: nat, minSize: nat, k: nat)
    ensures Level(n, k) <= minSize <==> n < (minSize + 1) * Pow2(k)
  {
    var p := Pow2(k);
    var q := n / p;
    assert q * p <= n < (q + 1) * p;
    if q <= minSize {
      TimesMonotone(q + 1, minSize + 1, p);
    } else {
      TimesMonotone(minSize + 1, q, p);
    }
  }

  /** The image fits when both of its sides do. */
  lemma {:induction false} BothFitIff(width: nat, height: nat, minSize: nat, k: nat)
    ensures Fits(width, height, minSize, k) <==>
              width < (minSize + 1) * Pow2(k) && height < (minSize + 1) * Pow2(k)
  {
    FitsIff(width, minSize, k);
    FitsIff(height, minSize, k);
  }

  lemma {:induction false} TimesMonotone(a: nat, b: nat, p: nat)
    requires a <= b
    ensures a * p <= b * p
  {
  }

  /** The minimum size that the consolidation uses for the one that is asked. */
  function EffectiveMinSize(minSize: int): int {
    if minSize == OVERVIEWS_DEFAULT_MIN_SIZE then DEFAULT_MIN_SIZE else minSize
  }

  /** After the default is filled in, the loop runs forever exactly on the negative sizes other than the default
      mark. */
  lemma {:induction false} EndsUnlessNegative(width: nat, height: nat, minSize: int)
    ensures (exists k: nat :: Fits(width, height, EffectiveMinSize(minSize), k)) <==> minSize >= -1
    ensures minSize == -1 ==> forall k: nat ::
              Fits(width, height, EffectiveMinSize(minSize), k) <==> width < 257 * Pow2(k) && height < 257 * Pow2(k)
  {
    SomeLevelFits(width, height, EffectiveMinSize(minSize));
    if minSize == -1 {
      forall k: nat
        ensures Fits(width, height, EffectiveMinSize(minSize), k) <==> width < 257 * Pow2(k) && height < 257 * Pow2(k)
      {
        BothFitIff(width, height, 256, k);
      }
    }
  }
}
