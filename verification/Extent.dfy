/** Affine transforms of the plane, and the part of a container that a set of datasets really covers. */
module Extent {
  import opened Basics

  // ----- Affine transforms -------------------------------------------------

  datatype Point = Point(x: real, y: real)

  /** x' = a0 + a1 x + a2 y and y' = a3 + a4 x + a5 y. */
  datatype Affine = Affine(a0: real, a1: real, a2: real, a3: real, a4: real, a5: real) {

    function Det(): real {
      a1 * a5 - a2 * a4
    }

    function Transform(p: Point): Point {
      Point(a1 * p.x + a2 * p.y + a0, a4 * p.x + a5 * p.y + a3)
    }

    function Multiply(b: Affine): Affine {
      Affine(a1 * b.a0 + a2 * b.a3 + a0, a1 * b.a1 + a2 * b.a4, a1 * b.a2 + a2 * b.a5,
             a4 * b.a0 + a5 * b.a3 + a3, a4 * b.a1 + a5 * b.a4, a4 * b.a2 + a5 * b.a5)
    }

    /** Panics when it is not invertible. */
    function Inverse(): Affine
      requires Det() != 0.0
    {
      var idet := 1.0 / Det();
      var r := Affine(0.0, a5 * idet, -a2 * idet, 0.0, -a4 * idet, a1 * idet);
      var o := r.Transform(Point(-a0, -a3));
      r.(a0 := o.x, a3 := o.y)
    }
  }

  function Translation(x: real, y: real): Affine {
    Affine(x, 1.0, 0.0, y, 0.0, 1.0)
  }

  lemma {:induction false} RowComposes(c: real, d: real, x: real, y: real, b: Affine)
    ensures (c * b.a1 + d * b.a4) * x + (c * b.a2 + d * b.a5) * y + (c * b.a0 + d * b.a3) ==
              c * (b.a1 * x + b.a2 * y + b.a0) + d * (b.a4 * x + b.a5 * y + b.a3)
  {
  }

  /** Merging two transforms is applying one after the other. */
  lemma {:induction false} MultiplyComposes(a: Affine, b: Affine, p: Point)
    ensures a.Multiply(b).Transform(p) == a.Transform(b.Transform(p))
  {
    var m, q := a.Multiply(b), b.Transform(p);
    RowComposes(a.a1, a.a2, p.x, p.y, b);
    assert m.Transform(p).x == a.a1 * q.x + a.a2 * q.y + a.a0;
    RowComposes(a.a4, a.a5, p.x, p.y, b);
    assert m.Transform(p).y == a.a4 * q.x + a.a5 * q.y + a.a3;
  }

  lemma {:induction false} RowInverts(k: real, c: real, d: real, x: real, y: real, o: real, o': real)
    ensures (c * k) * x + (d * k) * y + ((c * k) * -o + (d * k) * -o') == k * (c * (x - o) + d * (y - o'))
  {
  }

  /** A row of a transform, but for its constant. */
  function Row(c: real, d: real, p: Point): real {
    c * p.x + d * p.y
  }

  lemma {:induction false} InverseRows(a: Affine, q: Point)
    requires a.Det() != 0.0
    ensures var k, w := 1.0 / a.Det(), Point(q.x - a.a0, q.y - a.a3);
            a.Inverse().Transform(q) == Point(Times(k, Row(a.a5, -a.a2, w)), Times(k, Row(-a.a4, a.a1, w)))
  {
    var k := 1.0 / a.Det();
    hide Affine.Det;
    RowInverts(k, a.a5, -a.a2, q.x, q.y, a.a0, a.a3);
    RowInverts(k, -a.a4, a.a1, q.x, q.y, a.a0, a.a3);
  }

  lemma {:induction false} Cramer(a: Affine, p: Point, w: Point)
    requires w == Point(a.a1 * p.x + a.a2 * p.y, a.a4 * p.x + a.a5 * p.y)
    ensures Row(a.a5, -a.a2, w) == Times(a.Det(), p.x)
    ensures Row(-a.a4, a.a1, w) == Times(a.Det(), p.y)
  {
    assert a.a5 * w.x == (a.a1 * a.a5) * p.x + (a.a2 * a.a5) * p.y;
    assert a.a2 * w.y == (a.a2 * a.a4) * p.x + (a.a2 * a.a5) * p.y;
    assert a.a4 * w.x == (a.a1 * a.a4) * p.x + (a.a2 * a.a4) * p.y;
    assert a.a1 * w.y == (a.a1 * a.a4) * p.x + (a.a1 * a.a5) * p.y;
  }

  lemma Cancel(d: real, x: real)
    requires d != 0.0
    ensures Times(1.0 / d, Times(d, x)) == x
  {
  }

  /** The inverse leads back. */
  lemma {:induction false} InverseInverts(a: Affine, p: Point)
    requires a.Det() != 0.0
    ensures a.Inverse().Transform(a.Transform(p)) == p
  {
    var q := a.Transform(p);
    Cramer(a, p, Point(q.x - a.a0, q.y - a.a3));
    hide *;
    InverseRows(a, q);
    Cancel(a.Det(), p.x);
    Cancel(a.Det(), p.y);
  }

  // ----- The window of an extent in a container ----------------------------

  datatype Box = Box(min: Point, max: Point)

  predicate In(p: Point, b: Box) {
    b.min.x <= p.x <= b.max.x && b.min.y <= p.y <= b.max.y
  }

  function Ceil(x: real): int {
    -(-x).Floor
  }

  /** Along one axis, [o, o + n] is the best window for the part of [lo, hi] that is in a container of `size` pixels: it
      starts on the last block boundary that does not cut the part, and has as few whole pixels as possible. */
  ghost predicate Tightest(lo: real, hi: real, size: nat, block: nat, o: int, n: int)
    requires block > 0
  {
    && o % block == 0 && 0 <= o
    && o as real <= MaxReal(lo, 0.0) < (o + block) as real
    && o + n <= size
    && (o + n - 1) as real < MinReal(hi, size as real) <= (o + n) as real
  }

  /** The start of the block of `x`. */
  function BlockStart(x: real, block: nat): real
    requires block > 0
  {
    block as real * (x / block as real).Floor as real
  }

  lemma {:induction false} MultipleOf(block: nat, f: int)
    requires block > 0
    ensures (block * f) % block == 0
  {
    var m := block * f;
    var e := m / block - f;
    assert m == block * (m / block) + m % block;
    assert m % block == -(block * e);
    assert e >= 1 ==> block * e >= block;
    assert e <= -1 ==> block * e + block <= 0;
  }

  lemma {:induction false} AfterStart(x: real, d: real, q: real, f: real)
    requires d > 0.0 && x == d * q && f <= q
    ensures d * f <= x
  {
  }

  lemma {:induction false} BeforeEnd(x: real, d: real, q: real, f: real)
    requires d > 0.0 && x == d * q && q < f
    ensures x < d * f
  {
  }

  lemma {:induction false} BlockBefore(x: real, block: nat) returns (b: int)
    requires block > 0
    ensures b % block == 0 && b as real == BlockStart(x, block)
    ensures b as real <= x < (b + block) as real
  {
    var d, f := block as real, (x / block as real).Floor;
    MultipleOf(block, f);
    AfterStart(x, d, x / d, f as real);
    BeforeEnd(x, d, x / d, f as real + 1.0);
    b := block * f;
    assert b as real == d * f as real;
    assert (b + block) as real == d * (f as real + 1.0);
  }

  lemma {:induction false} WindowIsTightest(lo: real, hi: real, size: nat, block: nat) returns (o: int)
    requires block > 0
    ensures o as real == MaxReal(BlockStart(lo, block), 0.0)
    ensures Tightest(lo, hi, size, block, o, Ceil(MinReal(hi, size as real) - o as real))
  {
    var b := BlockBefore(lo, block);
    o := if b <= 0 then 0 else b;
    hide BlockStart;
    CeilIsLeast(MinReal(hi, size as real), o, size);
    if b < 0 {
      NextBlock(b, block);
    }
  }

  lemma {:induction false} NextBlock(b: int, block: nat)
    requires block > 0 && b % block == 0 && b < 0
    ensures b + block <= 0
  {
  }

  lemma CeilIsLeast(x: real, o: int, size: nat)
    requires x <= size as real
    ensures var n := Ceil(x - o as real); o + n <= size && (o + n - 1) as real < x <= (o + n) as real
  {
  }

  /** `t`, `w` and `h` describe the window of `extent`, given in the CRS of the container: it starts at the pixel
      (ox, oy) of the container. */
  ghost predicate StartsAt(extent: Box, pixToCRS: Affine, width: nat, height: nat, blockX: nat, blockY: nat,
                           t: Affine, w: int, h: int, ox: int, oy: int)
    requires pixToCRS.Det() != 0.0 && blockX > 0 && blockY > 0
  {
    var p, q := pixToCRS.Inverse().Transform(extent.min), pixToCRS.Inverse().Transform(extent.max);
    && Tightest(MinReal(p.x, q.x), MaxReal(p.x, q.x), width, blockX, ox, w)
    && Tightest(MinReal(p.y, q.y), MaxReal(p.y, q.y), height, blockY, oy, h)
    && t == pixToCRS.Multiply(Translation(ox as real, oy as real))
  }

  ghost predicate IsWindow(extent: Box, pixToCRS: Affine, width: nat, height: nat, blockX: nat, blockY: nat,
                           t: Affine, w: int, h: int)
    requires pixToCRS.Det() != 0.0 && blockX > 0 && blockY > 0
  {
    exists ox, oy :: StartsAt(extent, pixToCRS, width, height, blockX, blockY, t, w, h, ox, oy)
  }

  method OptimizeTransform(extent: Box, pixToCRS: Affine, width: nat, height: nat, blockX: nat, blockY: nat)
      returns (t: Affine, w: int, h: int)
    requires pixToCRS.Det() != 0.0 && blockX > 0 && blockY > 0
    ensures IsWindow(extent, pixToCRS, width, height, blockX, blockY, t, w, h)
  {
    var crsToPix := pixToCRS.Inverse();
    var p, q := crsToPix.Transform(extent.min), crsToPix.Transform(extent.max);
    var x0, x1, y0, y1 := p.x, q.x, p.y, q.y;
    if x0 > x1 {
      x0, x1 := x1, x0;
    }
    if y0 > y1 {
      y0, y1 := y1, y0;
    }
    var offX := MaxReal(BlockStart(x0, blockX), 0.0);
    var offY := MaxReal(BlockStart(y0, blockY), 0.0);
    w := Ceil(MinReal(x1, width as real) - offX);
    h := Ceil(MinReal(y1, height as real) - offY);
    ghost var ox := WindowIsTightest(x0, x1, width, blockX);
    ghost var oy := WindowIsTightest(y0, y1, height, blockY);
    t := pixToCRS.Multiply(Translation(offX, offY));
    assert StartsAt(extent, pixToCRS, width, height, blockX, blockY, t, w, h, ox, oy);
  }

  /** In other words: the new transform starts at pixel (ox, oy) of the container, on a boundary of its blocks along
      each axis, at most one block before the part of the extent that is in the container; the window stays in the container,
      and ends less than one pixel after that part. */
  lemma {:induction false} WindowIs(extent: Box, a: Affine, width: nat, height: nat, blockX: nat, blockY: nat,
                                    t: Affine, w: int, h: int) returns (ox: int, oy: int)
    requires a.Det() != 0.0 && blockX > 0 && blockY > 0
    requires IsWindow(extent, a, width, height, blockX, blockY, t, w, h)
    ensures t.Transform(Point(0.0, 0.0)) == a.Transform(Point(ox as real, oy as real))
    ensures ox % blockX == 0 && oy % blockY == 0 && 0 <= ox && ox + w <= width && 0 <= oy && oy + h <= height
    ensures var p, q := a.Inverse().Transform(extent.min), a.Inverse().Transform(extent.max);
            && ox as real <= MaxReal(MinReal(p.x, q.x), 0.0) < (ox + blockX) as real
            && oy as real <= MaxReal(MinReal(p.y, q.y), 0.0) < (oy + blockY) as real
            && (ox + w - 1) as real < MinReal(MaxReal(p.x, q.x), width as real) <= (ox + w) as real
            && (oy + h - 1) as real < MinReal(MaxReal(p.y, q.y), height as real) <= (oy + h) as real
  {
    ox, oy :| StartsAt(extent, a, width, height, blockX, blockY, t, w, h, ox, oy);
    MultiplyComposes(a, Translation(ox as real, oy as real), Point(0.0, 0.0));
    assert Translation(ox as real, oy as real).Transform(Point(0.0, 0.0)) == Point(ox as real, oy as real);
    hide Affine.Transform;
    hide Affine.Multiply;
    hide Affine.Inverse;
    hide Affine.Det;
  }

  lemma {:induction false} CloseMultiples(block: nat, e: int)
    requires 0 < block * e + block < 2 * block
    ensures e == 0
  {
  }

  lemma {:induction false} SameMultiple(block: nat, o: int, o': int)
    requires block > 0 && o % block == 0 && o' % block == 0 && 0 < o - o' + block < 2 * block
    ensures o == o'
  {
    var q, q' := o / block, o' / block;
    assert o == block * q && o' == block * q';
    assert o - o' == block * (q - q');
    CloseMultiples(block, q - q');
  }

  /** The description leaves no choice. */
  lemma {:induction false} TightestIsUnique(lo: real, hi: real, size: nat, block: nat, o: int, n: int, o': int, n': int)
    requires block > 0
    requires Tightest(lo, hi, size, block, o, n) && Tightest(lo, hi, size, block, o', n')
    ensures o == o' && n == n'
  {
    SameMultiple(block, o, o');
  }

  /** The end of the last block of the container, which may stick out of it: block * ceil(size / block). */
  function LastBlockEnd(size: nat, block: nat): int
    requires block > 0
  {
    block * ((size + block - 1) / block)
  }

  lemma {:induction false} LastBlockSticksOut(size: nat, block: nat)
    requires block > 0
    ensures var e := LastBlockEnd(size, block); e % block == 0 && size <= e < size + block
    ensures LastBlockEnd(size, block) == size <==> size % block == 0
  {
    var m := size + block - 1;
    assert m == block * (m / block) + m % block;
    MultipleOf(block, m / block);
    if size % block == 0 {
      SameMultiple(block, LastBlockEnd(size, block), size);
    }
  }

  lemma {:induction false} MultiplesApart(block: nat, o: int, e: int)
    requires block > 0 && o % block == 0 && e % block == 0 && o < e
    ensures o + block <= e
  {
    if e < o + block {
      SameMultiple(block, o, e);
    }
  }

  /** The window of an extent that is not flat has pixels exactly when the extent ends after the start of the container
      and starts before the end of its last block. */
  lemma {:induction false} NotEmptyIff(lo: real, hi: real, size: nat, block: nat, o: int, n: int)
    requires block > 0 && lo < hi && Tightest(lo, hi, size, block, o, n)
    ensures n > 0 <==> size > 0 && hi > 0.0 && lo < LastBlockEnd(size, block) as real
  {
    var e := LastBlockEnd(size, block);
    LastBlockSticksOut(size, block);
    hide LastBlockEnd;
    if o < e {
      MultiplesApart(block, o, e);
    }
  }

  predicate Meets(lo: real, hi: real, size: nat) {
    lo < size as real && hi > 0.0
  }

  /** A window has pixels only if the extent meets the container. */
  ghost predicate PixelsOnlyIfMeets(size: nat, block: nat)
    requires block > 0
  {
    forall lo, hi, o, n :: lo <= hi && Tightest(lo, hi, size, block, o, n) && n > 0 ==> Meets(lo, hi, size)
  }

  /** An extent that starts after the container, in the block that sticks out of it, gets pixels too. */
  lemma {:induction false} OutsideButNotEmpty(size: nat, block: nat) returns (lo: real, hi: real, o: int, n: int)
    requires block > 0 && size % block != 0
    ensures lo <= hi && Tightest(lo, hi, size, block, o, n) && n > 0 && !Meets(lo, hi, size)
  {
    lo, hi := size as real, size as real + 1.0;
    LastBlockSticksOut(size, block);
    o := WindowIsTightest(lo, hi, size, block);
    n := Ceil(MinReal(hi, size as real) - o as real);
    hide LastBlockEnd;
    NotEmptyIff(lo, hi, size, block, o, n);
  }

  /** So this holds for every extent exactly when the container is a whole number of blocks long. */
  lemma {:induction false} PixelsOnlyIfMeetsIff(size: nat, block: nat)
    requires block > 0
    ensures PixelsOnlyIfMeets(size, block) <==> size % block == 0
  {
    if size % block == 0 {
      forall lo, hi, o, n | lo <= hi && Tightest(lo, hi, size, block, o, n) && n > 0 ensures Meets(lo, hi, size) {
        MultiplesApart(block, o, size);
      }
    } else {
      var lo, hi, o, n := OutsideButNotEmpty(size, block);
    }
  }

  /** The image of every box lies between the images of its two corners. */
  ghost predicate BetweenCorners(c: real, d: real) {
    forall b: Box, p: Point | In(p, b) ::
      MinReal(Row(c, d, b.min), Row(c, d, b.max)) <= Row(c, d, p) <= MaxReal(Row(c, d, b.min), Row(c, d, b.max))
  }

  lemma {:induction false} RowMonotone(c: real, d: real, p: Point, q: Point)
    requires c >= 0.0 && d >= 0.0 && p.x <= q.x && p.y <= q.y
    ensures Row(c, d, p) <= Row(c, d, q)
  {
  }

  lemma {:induction false} RowBetween(c: real, d: real, b: Box, p: Point)
    requires c * d >= 0.0 && In(p, b)
    ensures MinReal(Row(c, d, b.min), Row(c, d, b.max)) <= Row(c, d, p) <= MaxReal(Row(c, d, b.min), Row(c, d, b.max))
  {
    if c >= 0.0 && d >= 0.0 {
      RowMonotone(c, d, b.min, p);
      RowMonotone(c, d, p, b.max);
    } else {
      Opposite(c, d);
      RowMonotone(-c, -d, b.min, p);
      RowMonotone(-c, -d, p, b.max);
    }
  }

  lemma {:induction false} Opposite(c: real, d: real)
    requires c * d >= 0.0 && !(c >= 0.0 && d >= 0.0)
    ensures c <= 0.0 && d <= 0.0
    ensures forall p: Point :: Row(-c, -d, p) == -Row(c, d, p)
  {
  }

  /** Two opposite corners are enough exactly when the two coefficients of the row do not have opposite signs. */
  lemma {:induction false} TwoCornersIff(c: real, d: real)
    ensures BetweenCorners(c, d) <==> c * d >= 0.0
  {
    if c * d >= 0.0 {
      forall b: Box, p: Point | In(p, b)
        ensures MinReal(Row(c, d, b.min), Row(c, d, b.max)) <= Row(c, d, p)
        ensures Row(c, d, p) <= MaxReal(Row(c, d, b.min), Row(c, d, b.max))
      {
        RowBetween(c, d, b, p);
      }
    } else {
      assert !(c >= 0.0 && d >= 0.0) && !(c <= 0.0 && d <= 0.0);
      var b, p := Box(Point(0.0, 0.0), Point(1.0, 1.0)), Point(1.0, 0.0);
      assert In(p, b) && Row(c, d, b.min) == 0.0 && Row(c, d, b.max) == c + d && Row(c, d, p) == c;
    }
  }

  /** The transforms, from pixels to coordinates, for which the two corners of an extent bound its pixels. */
  predicate Straight(a: Affine) {
    a.a1 * a.a4 <= 0.0 && a.a2 * a.a5 <= 0.0
  }

  /** For exactly these transforms the pixels of any extent lie between those of its corners. */
  lemma {:induction false} StraightIff(a: Affine)
    requires a.Det() != 0.0
    ensures Straight(a) <==>
              BetweenCorners(a.Inverse().a1, a.Inverse().a2) && BetweenCorners(a.Inverse().a4, a.Inverse().a5)
  {
    var i, k := a.Inverse(), 1.0 / a.Det();
    TwoCornersIff(i.a1, i.a2);
    TwoCornersIff(i.a4, i.a5);
    assert k * a.Det() == 1.0;
    SameSign(k, a.a5, -a.a2);
    SameSign(k, -a.a4, a.a1);
  }

  lemma {:induction false} SignOfProduct(m: real, e: real)
    requires m > 0.0
    ensures m * e >= 0.0 <==> e >= 0.0
  {
  }

  lemma {:induction false} SignOfSquareTimes(k: real, e: real)
    requires k != 0.0
    ensures k * (k * e) >= 0.0 <==> e >= 0.0
  {
    if k > 0.0 {
      SignOfProduct(k, e);
      SignOfProduct(k, k * e);
    } else {
      SignOfProduct(-k, e);
      SignOfProduct(-k, -k * e);
      assert -k * (-k * e) == k * (k * e);
    }
  }

  lemma {:induction false} SameSign(k: real, c: real, d: real)
    requires k != 0.0
    ensures (c * k) * (d * k) >= 0.0 <==> c * d >= 0.0
  {
    var e := c * d;
    SignOfSquareTimes(k, e);
    assert (c * k) * (d * k) == k * (k * e);
  }

  lemma {:induction false} PixelBetween(a: Affine, extent: Box, pixel: Point)
    requires a.Det() != 0.0 && Straight(a) && In(a.Transform(pixel), extent)
    ensures var p, q := a.Inverse().Transform(extent.min), a.Inverse().Transform(extent.max);
            MinReal(p.x, q.x) <= pixel.x <= MaxReal(p.x, q.x) && MinReal(p.y, q.y) <= pixel.y <= MaxReal(p.y, q.y)
  {
    InverseInverts(a, pixel);
    StraightIff(a);
    BetweenTransformed(a.Inverse(), extent, a.Transform(pixel));
  }

  lemma {:induction false} BetweenTransformed(i: Affine, b: Box, p: Point)
    requires BetweenCorners(i.a1, i.a2) && BetweenCorners(i.a4, i.a5) && In(p, b)
    ensures var u, v, q := i.Transform(b.min), i.Transform(b.max), i.Transform(p);
            MinReal(u.x, v.x) <= q.x <= MaxReal(u.x, v.x) && MinReal(u.y, v.y) <= q.y <= MaxReal(u.y, v.y)
  {
    RowsOfTransform(i, b.min);
    RowsOfTransform(i, b.max);
    RowsOfTransform(i, p);
    hide Row;
    hide Affine.Transform;
  }

  lemma RowsOfTransform(i: Affine, p: Point)
    ensures i.Transform(p) == Point(Row(i.a1, i.a2, p) + i.a0, Row(i.a4, i.a5, p) + i.a3)
  {
  }

  lemma {:induction false} Shifted(a: Affine, ox: real, oy: real, pixel: Point)
    ensures a.Multiply(Translation(ox, oy)).Transform(Point(pixel.x - ox, pixel.y - oy)) == a.Transform(pixel)
  {
    var t, moved := Translation(ox, oy), Point(pixel.x - ox, pixel.y - oy);
    assert t.Transform(moved) == pixel;
    MultiplyComposes(a, t, moved);
  }

  /** What is in the container and between `lo` and `hi` is in the window. */
  lemma InWindow(lo: real, hi: real, size: nat, block: nat, o: int, n: int, x: real)
    requires block > 0 && Tightest(lo, hi, size, block, o, n)
    requires lo <= x <= hi && 0.0 <= x <= size as real
    ensures 0.0 <= x - o as real <= n as real
  {
  }

  function Pixels(width: int, height: int): Box {
    Box(Point(0.0, 0.0), Point(width as real, height as real))
  }

  /** Some pixel of the window (t, w, h) lies where `pixel` of the container lies. */
  ghost predicate Covered(a: Affine, t: Affine, w: int, h: int, pixel: Point) {
    exists moved :: In(moved, Pixels(w, h)) && t.Transform(moved) == a.Transform(pixel)
  }

  /** That is, the pixel is in the window. */
  lemma {:induction false} CoveredIff(a: Affine, ox: int, oy: int, w: int, h: int, pixel: Point)
    requires a.Det() != 0.0
    ensures Covered(a, a.Multiply(Translation(ox as real, oy as real)), w, h, pixel) <==>
              In(Point(pixel.x - ox as real, pixel.y - oy as real), Pixels(w, h))
  {
    var t := a.Multiply(Translation(ox as real, oy as real));
    var back := Point(pixel.x - ox as real, pixel.y - oy as real);
    Shifted(a, ox as real, oy as real, pixel);
    if moved :| In(moved, Pixels(w, h)) && t.Transform(moved) == a.Transform(pixel) {
      var there := Point(moved.x + ox as real, moved.y + oy as real);
      Shifted(a, ox as real, oy as real, there);
      hide Affine.Transform;
      hide Affine.Multiply;
      assert Point(there.x - ox as real, there.y - oy as real) == moved;
      InverseInverts(a, there);
      InverseInverts(a, pixel);
      assert moved == back;
    }
  }

  /** Every point of the extent that is in a container whose transform is straight is in the window. */
  lemma {:induction false} WindowCoversExtent(extent: Box, a: Affine, width: nat, height: nat, blockX: nat, blockY: nat,
                                              t: Affine, w: int, h: int, pixel: Point)
    requires a.Det() != 0.0 && Straight(a) && blockX > 0 && blockY > 0
    requires IsWindow(extent, a, width, height, blockX, blockY, t, w, h)
    requires In(pixel, Pixels(width, height)) && In(a.Transform(pixel), extent)
    ensures Covered(a, t, w, h, pixel)
  {
    var ox, oy :| StartsAt(extent, a, width, height, blockX, blockY, t, w, h, ox, oy);
    var p, q := a.Inverse().Transform(extent.min), a.Inverse().Transform(extent.max);
    CoveredIff(a, ox, oy, w, h, pixel);
    PixelBetween(a, extent, pixel);
    hide Affine.Transform;
    hide Affine.Multiply;
    hide Affine.Inverse;
    hide Affine.Det;
    InWindow(MinReal(p.x, q.x), MaxReal(p.x, q.x), width, blockX, ox, w, pixel.x);
    InWindow(MinReal(p.y, q.y), MaxReal(p.y, q.y), height, blockY, oy, h, pixel.y);
  }

  /** If both corners of an extent fall on the first pixel of the container, along one axis, then its window is flat
      there and has no further pixel. */
  lemma {:induction false} FlatMisses(extent: Box, a: Affine, width: nat, height: nat, blockX: nat, blockY: nat,
                                      t: Affine, w: int, h: int, pixel: Point)
    requires a.Det() != 0.0 && blockX > 0 && blockY > 0
    requires IsWindow(extent, a, width, height, blockX, blockY, t, w, h)
    requires var p, q := a.Inverse().Transform(extent.min), a.Inverse().Transform(extent.max);
             (p.x == q.x == 0.0 < pixel.x) || (p.y == q.y == 0.0 < pixel.y)
    ensures !Covered(a, t, w, h, pixel)
  {
    var ox, oy :| StartsAt(extent, a, width, height, blockX, blockY, t, w, h, ox, oy);
    CoveredIff(a, ox, oy, w, h, pixel);
    hide Affine.Transform;
    hide Affine.Multiply;
    hide Affine.Inverse;
    hide Affine.Det;
  }

  lemma {:induction false} RowShift(c: real, d: real, o: real, x: real, y: real, u: real, v: real)
    ensures c * (x + u) + d * (y + v) + o == (c * x + d * y + o) + (c * u + d * v)
  {
    assert c * (x + u) == c * x + c * u;
    assert d * (y + v) == d * y + d * v;
  }

  /** A step of (u, v) moves the image by the linear part of the transform. */
  lemma {:induction false} ImageShift(i: Affine, q: Point, u: real, v: real)
    ensures i.Transform(Point(q.x + u, q.y + v)).x == i.Transform(q).x + (i.a1 * u + i.a2 * v)
    ensures i.Transform(Point(q.x + u, q.y + v)).y == i.Transform(q).y + (i.a4 * u + i.a5 * v)
  {
    RowShift(i.a1, i.a2, i.a0, q.x, q.y, u, v);
    RowShift(i.a4, i.a5, i.a3, q.x, q.y, u, v);
  }

  lemma OppositeSigns(c: real, d: real)
    requires c * d < 0.0
    ensures (c > 0.0 && d < 0.0) || (c < 0.0 && d > 0.0)
    ensures c * (-1.0 / c) == -1.0 && d * (-1.0 / d) == -1.0
    ensures (-1.0 / c < 0.0 <==> c > 0.0) && (-1.0 / d < 0.0 <==> d > 0.0)
  {
  }

  /** The box whose corners are `q` moved along one axis each. */
  function Corners(q: Point, x: real, y: real): Box {
    var e, f := Point(q.x + x, q.y), Point(q.x, q.y + y);
    if x <= 0.0 then Box(e, f) else Box(f, e)
  }

  lemma {:induction false} FlatInX(i: Affine, q: Point)
    requires i.a1 * i.a2 < 0.0 && i.Transform(q).x == 1.0
    ensures var b := Corners(q, -1.0 / i.a1, -1.0 / i.a2);
            In(q, b) && i.Transform(b.min).x == i.Transform(b.max).x == 0.0
  {
    OppositeSigns(i.a1, i.a2);
    ImageShift(i, q, -1.0 / i.a1, 0.0);
    ImageShift(i, q, 0.0, -1.0 / i.a2);
    hide Affine.Transform;
  }

  lemma {:induction false} FlatInY(i: Affine, q: Point)
    requires i.a4 * i.a5 < 0.0 && i.Transform(q).y == 1.0
    ensures var b := Corners(q, -1.0 / i.a4, -1.0 / i.a5);
            In(q, b) && i.Transform(b.min).y == i.Transform(b.max).y == 0.0
  {
    OppositeSigns(i.a4, i.a5);
    ImageShift(i, q, -1.0 / i.a4, 0.0);
    ImageShift(i, q, 0.0, -1.0 / i.a5);
    hide Affine.Transform;
  }

  lemma {:induction false} SomeRowTurns(a: Affine)
    requires a.Det() != 0.0 && !Straight(a)
    ensures var i := a.Inverse(); i.a1 * i.a2 < 0.0 || i.a4 * i.a5 < 0.0
  {
    StraightIff(a);
    TwoCornersIff(a.Inverse().a1, a.Inverse().a2);
    TwoCornersIff(a.Inverse().a4, a.Inverse().a5);
    hide *;
  }

  /** In any other container, for any blocks, the window of some extent misses a pixel that is in the extent and in the
      container. */
  lemma {:induction false} RotatedMisses(a: Affine, width: nat, height: nat) returns (extent: Box, pixel: Point)
    requires a.Det() != 0.0 && !Straight(a) && width > 0 && height > 0
    ensures In(pixel, Pixels(width, height)) && In(a.Transform(pixel), extent)
    ensures forall blockX: nat, blockY: nat, t, w, h | blockX > 0 && blockY > 0 ::
              IsWindow(extent, a, width, height, blockX, blockY, t, w, h) ==> !Covered(a, t, w, h, pixel)
  {
    hide Affine.Transform;
    hide Affine.Inverse;
    hide Affine.Det;
    hide Straight;
    hide Corners;
    SomeRowTurns(a);
    var i := a.Inverse();
    if i.a1 * i.a2 < 0.0 {
      pixel := Point(1.0, 0.0);
      InverseInverts(a, pixel);
      FlatInX(i, a.Transform(pixel));
      extent := Corners(a.Transform(pixel), -1.0 / i.a1, -1.0 / i.a2);
    } else {
      pixel := Point(0.0, 1.0);
      InverseInverts(a, pixel);
      FlatInY(i, a.Transform(pixel));
      extent := Corners(a.Transform(pixel), -1.0 / i.a4, -1.0 / i.a5);
    }
    forall blockX: nat, blockY: nat, t, w, h | blockX > 0 && blockY > 0 &&
        IsWindow(extent, a, width, height, blockX, blockY, t, w, h)
      ensures !Covered(a, t, w, h, pixel)
    {
      FlatMisses(extent, a, width, height, blockX, blockY, t, w, h, pixel);
    }
  }

  /** No window misses a pixel of its extent. */
  ghost predicate NeverMisses(a: Affine, width: nat, height: nat, blockX: nat, blockY: nat)
    requires a.Det() != 0.0 && blockX > 0 && blockY > 0
  {
    forall extent, t, w, h, pixel |
      IsWindow(extent, a, width, height, blockX, blockY, t, w, h) &&
      In(pixel, Pixels(width, height)) && In(a.Transform(pixel), extent) :: Covered(a, t, w, h, pixel)
  }

  /** For a container that is not empty, whatever its size and its blocks, this holds exactly if its transform is
      straight. */
  lemma {:induction false} NeverMissesIff(a: Affine, width: nat, height: nat, blockX: nat, blockY: nat)
    requires a.Det() != 0.0 && width > 0 && height > 0 && blockX > 0 && blockY > 0
    ensures NeverMisses(a, width, height, blockX, blockY) <==> Straight(a)
  {
    if Straight(a) {
      forall extent, t, w, h, pixel |
        IsWindow(extent, a, width, height, blockX, blockY, t, w, h) &&
        In(pixel, Pixels(width, height)) && In(a.Transform(pixel), extent)
        ensures Covered(a, t, w, h, pixel)
      {
        WindowCoversExtent(extent, a, width, height, blockX, blockY, t, w, h, pixel);
      }
    } else {
      var extent, pixel := RotatedMisses(a, width, height);
      var t, w, h := OptimizedWindow(extent, a, width, height, blockX, blockY);
    }
  }

  /** There is a window for every extent. */
  lemma {:induction false} OptimizedWindow(extent: Box, a: Affine, width: nat, height: nat, blockX: nat, blockY: nat)
      returns (t: Affine, w: int, h: int)
    requires a.Det() != 0.0 && blockX > 0 && blockY > 0
    ensures IsWindow(extent, a, width, height, blockX, blockY, t, w, h)
  {
    var p, q := a.Inverse().Transform(extent.min), a.Inverse().Transform(extent.max);
    var ox := WindowIsTightest(MinReal(p.x, q.x), MaxReal(p.x, q.x), width, blockX);
    var oy := WindowIsTightest(MinReal(p.y, q.y), MaxReal(p.y, q.y), height, blockY);
    w := Ceil(MinReal(MaxReal(p.x, q.x), width as real) - ox as real);
    h := Ceil(MinReal(MaxReal(p.y, q.y), height as real) - oy as real);
    t := a.Multiply(Translation(ox as real, oy as real));
    assert StartsAt(extent, a, width, height, blockX, blockY, t, w, h, ox, oy);
  }

  /** The transform of a regular grid: square pixels, north up. */
  function GridTransform(x: real, y: real, resolution: real): Affine {
    Translation(x, y).Multiply(Affine(0.0, resolution, 0.0, 0.0, 0.0, -resolution))
  }

  /** Pixel (i, j) of a grid lies i pixels east and j pixels south of its origin. */
  lemma {:induction false} GridPixel(x: real, y: real, resolution: real, pixel: Point)
    ensures GridTransform(x, y, resolution).Transform(pixel) ==
              Point(x + resolution * pixel.x, y - resolution * pixel.y)
  {
    var a := GridTransform(x, y, resolution);
    assert a == Affine(x, resolution, 0.0, y, 0.0, -resolution);
  }

  /** The containers that the service creates from a regular grid are straight, and so are their cells, wherever they
      start: a miss needs another transform. */
  lemma {:induction false} GridsAreStraight(x: real, y: real, resolution: real, i: real, j: real)
    requires resolution > 0.0
    ensures var a := GridTransform(x, y, resolution).Multiply(Translation(i, j)); a.Det() != 0.0 && Straight(a)
  {
    var a := GridTransform(x, y, resolution).Multiply(Translation(i, j));
    assert a.a1 == resolution && a.a2 == 0.0 && a.a4 == 0.0 && a.a5 == -resolution;
    assert resolution * resolution > 0.0;
  }
}
