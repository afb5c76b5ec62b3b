/** Palettes: from a few coloured points of [0, 1] to a table of n colours. */
module Palette {
  import opened Basics

  type Byte = x: int | 0 <= x < 256

  datatype ColorPoint = ColorPoint(val: real, r: Byte, g: Byte, b: Byte, a: Byte)

  datatype RGBA = RGBA(r: Byte, g: Byte, b: Byte, a: Byte)

  datatype Channel = Red | Green | Blue | Alpha

  function OfPoint(p: ColorPoint, ch: Channel): Byte {
    match ch case Red => p.r case Green => p.g case Blue => p.b case Alpha => p.a
  }

  function Of(c: RGBA, ch: Channel): Byte {
    match ch case Red => c.r case Green => c.g case Blue => c.b case Alpha => c.a
  }

  /** The points start at 0, end at 1 and are in strictly increasing order. */
  ghost predicate Valid(points: seq<ColorPoint>) {
    && |points| >= 2
    && points[0].val == 0.0 && points[|points| - 1].val == 1.0
    && forall i, j | 0 <= i < j < |points| :: points[i].val < points[j].val
  }

  method Validate(points: seq<ColorPoint>) returns (ok: bool)
    ensures ok <==> Valid(points)
  {
    if |points| < 2 {
      return false;
    }
    if points[0].val != 0.0 || points[|points| - 1].val != 1.0 {
      return false;
    }
    for k := 1 to |points|
      invariant forall i, j | 0 <= i < j < k :: points[i].val < points[j].val
    {
      if points[k].val <= points[k - 1].val {
        return false;
      }
    }
    return true;
  }

  /** `val` is in the segment that ends with point `j + 1`. */
  ghost predicate InSegment(points: seq<ColorPoint>, val: real, j: nat) {
    j + 1 < |points| && val <= points[j + 1].val && (j == 0 || points[j].val < val)
  }

  /** Every value of [0, 1] is in exactly one segment. */
  lemma {:induction false} OneSegment(points: seq<ColorPoint>, val: real)
    requires Valid(points) && 0.0 <= val <= 1.0
    ensures exists j: nat :: InSegment(points, val, j)
    ensures forall j: nat, j': nat | InSegment(points, val, j) && InSegment(points, val, j') :: j == j'
  {
    var j: nat := 0;
    while points[j + 1].val < val
      invariant j + 1 < |points| && (j == 0 || points[j].val < val)
      decreases |points| - j
    {
      j := j + 1;
    }
    assert InSegment(points, val, j);
  }

  lemma Product(x: real, y: real)
    requires x >= 0.0 && y >= 0.0
    ensures x * y >= 0.0
    ensures x > 0.0 && y > 0.0 ==> x * y > 0.0
  {
  }

  lemma {:induction false} SameSide(z: real, f: real, g: real)
    requires f >= 0.0 && g >= 0.0
    ensures (z * f >= 0.0 && z * g >= 0.0) || (z * f <= 0.0 && z * g <= 0.0)
  {
    if z >= 0.0 {
      Product(z, f);
      Product(z, g);
    } else {
      Product(-z, f);
      Product(-z, g);
    }
  }

  lemma {:induction false} WeightedBetween(x: real, y: real, f: real, v: real)
    requires 0.0 <= f <= 1.0 && v == x * (1.0 - f) + y * f
    ensures x <= v <= y || y <= v <= x
  {
    var d, e := (y - x) * f, (y - x) * (1.0 - f);
    SameSide(y - x, f, 1.0 - f);
    assert v == x + d;
    assert v == y - e;
    Between(x, y, v, d, e);
  }

  lemma Between(x: real, y: real, v: real, d: real, e: real)
    requires v == x + d && v == y - e && ((d >= 0.0 && e >= 0.0) || (d <= 0.0 && e <= 0.0))
    ensures x <= v <= y || y <= v <= x
  {
  }

  function Weighted(x: real, y: real, f: real): (v: real)
    requires 0.0 <= f <= 1.0
    ensures x <= v <= y || y <= v <= x
  {
    var v := x * (1.0 - f) + y * f;
    WeightedBetween(x, y, f, v);
    v
  }

  /** A weighted sum, truncated. */
  function Blend(x: Byte, y: Byte, f: real): (c: Byte)
    requires 0.0 <= f <= 1.0
    ensures x <= c <= y || y <= c <= x
  {
    Weighted(x as real, y as real, f).Floor
  }

  lemma {:induction false} BlendMonotone(x: Byte, y: Byte, f: real, f': real)
    requires 0.0 <= f <= f' <= 1.0 && x <= y
    ensures Blend(x, y, f) <= Blend(x, y, f')
  {
    WeightedMonotone(x as real, y as real, f, f');
  }

  lemma {:induction false} WeightedMonotone(x: real, y: real, f: real, f': real)
    requires 0.0 <= f <= f' <= 1.0 && x <= y
    ensures Weighted(x, y, f) <= Weighted(x, y, f')
  {
    assert (y - x) * (f' - f) >= 0.0;
    assert (y - x) * (f' - f) == (x * (1.0 - f') + y * f') - (x * (1.0 - f) + y * f);
  }

  lemma {:induction false} ShareBetween(u: real, d: real, f: real)
    requires d > 0.0 && 0.0 <= u <= d && f * d == u
    ensures 0.0 <= f <= 1.0
    ensures u == 0.0 ==> f == 0.0
    ensures u == d ==> f == 1.0
  {
  }

  function Share(u: real, d: real): (f: real)
    requires d > 0.0 && 0.0 <= u <= d
    ensures f * d == u && 0.0 <= f <= 1.0
    ensures u == 0.0 ==> f == 0.0
    ensures u == d ==> f == 1.0
  {
    var f := u / d;
    assert f * d == u;
    ShareBetween(u, d, f);
    f
  }

  lemma {:induction false} ShareMonotone(u: real, v: real, d: real)
    requires d > 0.0 && 0.0 <= u <= v <= d
    ensures Share(u, d) <= Share(v, d)
  {
    var f, g := Share(u, d), Share(v, d);
    if g < f {
      Product(f - g, d);
    }
  }

  /** How far `val` is in its segment. */
  function Fraction(points: seq<ColorPoint>, val: real, j: nat): (f: real)
    requires Valid(points) && 0.0 <= val && InSegment(points, val, j)
    ensures 0.0 <= f <= 1.0
    ensures val == points[j].val ==> f == 0.0
    ensures val == points[j + 1].val ==> f == 1.0
  {
    Share(val - points[j].val, points[j + 1].val - points[j].val)
  }

  /** The colour of `val`, interpolated in segment `j`. */
  function Interpolated(points: seq<ColorPoint>, val: real, j: nat): (c: RGBA)
    requires Valid(points) && 0.0 <= val && InSegment(points, val, j)
    ensures forall ch ::
              Of(c, ch) == Blend(OfPoint(points[j], ch), OfPoint(points[j + 1], ch), Fraction(points, val, j))
  {
    var p, q, f := points[j], points[j + 1], Fraction(points, val, j);
    RGBA(Blend(p.r, q.r, f), Blend(p.g, q.g, f), Blend(p.b, q.b, f), Blend(p.a, q.a, f))
  }

  /** `c` is the colour of `val` in the palette. */
  ghost predicate IsColor(points: seq<ColorPoint>, val: real, c: RGBA)
    requires Valid(points)
  {
    0.0 <= val <= 1.0 && exists j: nat :: InSegment(points, val, j) && c == Interpolated(points, val, j)
  }

  /** The value of entry `i` of a table of `n` colours. */
  function EntryVal(i: nat, n: nat): (val: real)
    requires i < n && n > 1
    ensures 0.0 <= val <= 1.0 && val * (n - 1) as real == i as real
    ensures i == 0 ==> val == 0.0
    ensures i == n - 1 ==> val == 1.0
  {
    Share(i as real, (n - 1) as real)
  }

  lemma {:induction false} EntryValMonotone(i: nat, i': nat, n: nat)
    requires i <= i' < n && n > 1
    ensures EntryVal(i, n) <= EntryVal(i', n)
  {
    ShareMonotone(i as real, i' as real, (n - 1) as real);
  }

  /** The table of `n` colours: a cursor on the segments follows the entries and never leaves the points. With a single
      entry the value is 0 / 0, which is not a number: the cursor does not move, and no colour is promised. */
  method PaletteN(points: seq<ColorPoint>, n: nat) returns (palette: seq<RGBA>)
    requires Valid(points)
    ensures |palette| == n
    ensures n != 1 ==> forall i | 0 <= i < n :: IsColor(points, EntryVal(i, n), palette[i])
  {
    var colors := new RGBA[n](_ => RGBA(0, 0, 0, 0));
    var j: nat := 0;
    for i := 0 to n
      invariant j + 1 < |points|
      invariant n != 1 && j > 0 && i < n ==> points[j].val < EntryVal(i, n)
      invariant n != 1 ==> forall k | 0 <= k < i :: IsColor(points, EntryVal(k, n), colors[k])
    {
      if n == 1 {
        colors[i] := *;
      } else {
        var val := EntryVal(i, n);
        while points[j + 1].val < val
          invariant j + 1 < |points| && (j == 0 || points[j].val < val)
          decreases |points| - j
        {
          j := j + 1;
        }
        assert InSegment(points, val, j);
        colors[i] := Interpolated(points, val, j);
        if i + 1 < n {
          EntryValMonotone(i, i + 1, n);
        }
      }
    }
    palette := colors[..];
  }

  /** A weighted sum is on the straight line between its ends. */
  lemma {:induction false} WeightedOnTheLine(x: real, y: real, f: real, d: real, u: real)
    requires 0.0 <= f <= 1.0 && f * d == u
    ensures (Weighted(x, y, f) - x) * d == (y - x) * u
  {
    assert Weighted(x, y, f) - x == (y - x) * f;
    Associates(y - x, f, d);
  }

  lemma {:induction false} Sandwich(a: real, m: real, b: real, d: real, r: real)
    requires d > 0.0 && a <= m < b && m * d == r
    ensures a * d <= r < b * d
  {
    Scaled(a, m, d);
    Scaled(m, b, d);
  }

  /** So what a weighted sum is truncated to is the integer part of a point of that line. */
  lemma {:induction false} TruncatedOnTheLine(c: real, x: real, y: real, f: real, p: real, q: real, val: real)
    requires 0.0 <= f <= 1.0 && p < q && Times(f, q - p) == val - p && c <= Weighted(x, y, f) < c + 1.0
    ensures Times(c - x, q - p) <= Times(y - x, val - p) < Times(c + 1.0 - x, q - p)
  {
    WeightedOnTheLine(x, y, f, q - p, val - p);
    hide Weighted;
    Sandwich(c - x, Weighted(x, y, f) - x, c + 1.0 - x, q - p, (y - x) * (val - p));
  }

  lemma Associates(a: real, b: real, c: real)
    ensures (a * b) * c == a * (b * c)
  {
  }

  lemma {:induction false} Scaled(a: real, b: real, d: real)
    requires d > 0.0
    ensures a <= b ==> a * d <= b * d
    ensures a < b ==> a * d < b * d
  {
    if a < b {
      Product(b - a, d);
      assert (b - a) * d == b * d - a * d;
    }
  }

  lemma {:induction false} IsBlend(points: seq<ColorPoint>, val: real, c: RGBA, j: nat, ch: Channel) returns (f: real)
    requires Valid(points) && IsColor(points, val, c) && InSegment(points, val, j)
    ensures 0.0 <= f <= 1.0 && points[j].val < points[j + 1].val
    ensures Times(f, points[j + 1].val - points[j].val) == val - points[j].val
    ensures Of(c, ch) as real <= Weighted(OfPoint(points[j], ch) as real, OfPoint(points[j + 1], ch) as real, f)
    ensures Weighted(OfPoint(points[j], ch) as real, OfPoint(points[j + 1], ch) as real, f) < Of(c, ch) as real + 1.0
  {
    OneSegment(points, val);
    f := Fraction(points, val, j);
  }

  /** A channel of the colour of `val`, in the segment from (p, x) to (q, y), is the integer part of the point at `val`
      of the straight line through the two: c <= x + (y - x) * (val - p) / (q - p) < c + 1. */
  lemma {:induction false} OnTheLine(points: seq<ColorPoint>, val: real, c: RGBA, j: nat, ch: Channel)
    requires Valid(points) && IsColor(points, val, c) && InSegment(points, val, j)
    ensures var p, q, x, y := points[j].val, points[j + 1].val, OfPoint(points[j], ch) as real,
                              OfPoint(points[j + 1], ch) as real;
            Times(Of(c, ch) as real - x, q - p) <= Times(y - x, val - p) < Times(Of(c, ch) as real + 1.0 - x, q - p)
  {
    hide Times;
    hide Weighted;
    hide IsColor;
    var f := IsBlend(points, val, c, j, ch);
    TruncatedOnTheLine(Of(c, ch) as real, OfPoint(points[j], ch) as real, OfPoint(points[j + 1], ch) as real, f,
                       points[j].val, points[j + 1].val, val);
  }

  /** Every channel lies between those of the two points around the value. */
  lemma {:induction false} BetweenEndpoints(points: seq<ColorPoint>, val: real, c: RGBA, j: nat, ch: Channel)
    requires Valid(points) && IsColor(points, val, c) && InSegment(points, val, j)
    ensures var x, y := OfPoint(points[j], ch), OfPoint(points[j + 1], ch);
            x <= Of(c, ch) <= y || y <= Of(c, ch) <= x
  {
    OneSegment(points, val);
  }

  lemma BlendEnds(x: Byte, y: Byte)
    ensures Blend(x, y, 0.0) == x && Blend(x, y, 1.0) == y
  {
  }

  /** The palette goes through its points: their colours are exact, the first and the last ones in particular. */
  lemma {:induction false} PointsAreExact(points: seq<ColorPoint>, k: nat, c: RGBA)
    requires Valid(points) && k < |points| && IsColor(points, points[k].val, c)
    ensures c == RGBA(points[k].r, points[k].g, points[k].b, points[k].a)
  {
    var j: nat := if k == 0 then 0 else k - 1;
    assert InSegment(points, points[k].val, j);
    OneSegment(points, points[k].val);
    forall ch: Channel ensures Of(c, ch) == OfPoint(points[k], ch) {
      BlendEnds(OfPoint(points[j], ch), OfPoint(points[j + 1], ch));
    }
    assert c.r == Of(c, Red) && c.g == Of(c, Green) && c.b == Of(c, Blue) && c.a == Of(c, Alpha);
  }

  ghost predicate Nondecreasing(points: seq<ColorPoint>, ch: Channel) {
    forall i, j | 0 <= i < j < |points| :: OfPoint(points[i], ch) <= OfPoint(points[j], ch)
  }

  /** A channel that never decreases over the points never decreases over the palette. */
  lemma {:induction false} StaysNondecreasing(points: seq<ColorPoint>, ch: Channel, val: real, c: RGBA,
                                              val': real, c': RGBA)
    requires Valid(points) && Nondecreasing(points, ch)
    requires val <= val' && IsColor(points, val, c) && IsColor(points, val', c')
    ensures Of(c, ch) <= Of(c', ch)
  {
    var j: nat :| InSegment(points, val, j) && c == Interpolated(points, val, j);
    var j': nat :| InSegment(points, val', j') && c' == Interpolated(points, val', j');
    SegmentsInOrder(points, val, val', j, j');
    hide Of;
    hide OfPoint;
    hide InSegment;
    var x, y, x', y' := OfPoint(points[j], ch), OfPoint(points[j + 1], ch),
                        OfPoint(points[j'], ch), OfPoint(points[j' + 1], ch);
    assert x <= y && x' <= y' && (j < j' ==> j + 1 == j' || y <= x');
    if j == j' {
      FractionMonotone(points, val, val', j);
      BlendMonotone(x, y, Fraction(points, val, j), Fraction(points, val', j));
    }
  }

  lemma SegmentsInOrder(points: seq<ColorPoint>, val: real, val': real, j: nat, j': nat)
    requires Valid(points) && val <= val' && InSegment(points, val, j) && InSegment(points, val', j')
    ensures j <= j' && j' + 1 < |points|
  {
  }

  lemma {:induction false} FractionMonotone(points: seq<ColorPoint>, val: real, val': real, j: nat)
    requires Valid(points) && 0.0 <= val <= val' && InSegment(points, val, j) && InSegment(points, val', j)
    ensures Fraction(points, val, j) <= Fraction(points, val', j)
  {
    ShareMonotone(val - points[j].val, val' - points[j].val, points[j + 1].val - points[j].val);
  }
}
