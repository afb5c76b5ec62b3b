/** Casting pixels from one data mapping to another: two value mappings fused into one scaling. */
module Cast {
  import opened Basics

  datatype Range = Range(min: real, max: real) {
    predicate Valid() {
      min < max
    }
  }

  datatype DType = UNDEFINED | UINT8 | UINT16 | UINT32 | INT8 | INT16 | INT32 | FLOAT32 | FLOAT64 | COMPLEX64

  /** The internal format of a raster. There is no no-data value when the source holds NaN. */
  datatype DataFormat = DataFormat(dtype: DType, noData: Option<real>, range: Range)

  /** The internal format, and the external range that the internal one stands for. */
  datatype DataMapping = DataMapping(format: DataFormat, rangeExt: Range, exponent: real) {
    predicate Valid() {
      format.range.Valid() && rangeExt.Valid() && exponent > 0.0
    }
  }

  /** The three parameters given to the scaling tool, or one of the two errors. */
  datatype CastResult = NoCastToPerform | UnableToCast | Scale(src: Range, dst: Range, exponent: real)

  type Power = (real, real) -> real

  /** x^1 == x, for any x. */
  ghost predicate PowerOfOne(pow: Power) {
    forall x :: pow(x, 1.0) == x
  }

  /** The laws of powers with positive exponents, on nonnegative numbers. */
  ghost predicate PowerLaws(pow: Power) {
    && PowerOfOne(pow)
    && (forall x, y, e | x >= 0.0 && y >= 0.0 && e > 0.0 :: pow(x * y, e) == pow(x, e) * pow(y, e))
    && (forall x, e | x >= 0.0 && e > 0.0 :: pow(x, e) >= 0.0)
    && (forall x, e | x >= 0.0 && e > 0.0 :: pow(pow(x, e), 1.0 / e) == x)
  }

  lemma PowerOfProduct(pow: Power, x: real, y: real, e: real)
    requires PowerLaws(pow) && x >= 0.0 && y >= 0.0 && e > 0.0
    ensures pow(Times(x, y), e) == Times(pow(x, e), pow(y, e))
  {
  }

  lemma PowerBack(pow: Power, x: real, e: real)
    requires PowerLaws(pow) && x >= 0.0 && e > 0.0
    ensures pow(x, e) >= 0.0 && pow(pow(x, e), 1.0 / e) == x
  {
  }

  lemma {:induction false} PowerPositive(pow: Power, x: real, d: real)
    requires PowerLaws(pow) && x > 0.0 && d > 0.0
    ensures pow(x, d) > 0.0
  {
    PowerBack(pow, x, d);
    PowerBack(pow, 0.0, d);
    PowerOfProduct(pow, 0.0, x, d);
    hide PowerLaws;
    assert Times(0.0, x) == 0.0 && Times(pow(0.0, d), 0.0) == 0.0;
    assert pow(x, d) == 0.0 ==> pow(0.0, d) == pow(x, d);
  }

  // ----- Straight lines ----------------------------------------------------

  /** The position of `v` in a range: 0 at its start, 1 at its end. */
  function Unit(v: real, r: Range): (u: real)
    requires r.Valid()
    ensures u * (r.max - r.min) == v - r.min
  {
    (v - r.min) / (r.max - r.min)
  }

  /** The value at a position of a range. */
  function At(u: real, r: Range): real {
    r.min + (r.max - r.min) * u
  }

  lemma {:induction false} UnitOfAt(u: real, r: Range)
    requires r.Valid()
    ensures Unit(At(u, r), r) == u
  {
  }

  lemma AtOfUnit(v: real, r: Range)
    requires r.Valid()
    ensures At(Unit(v, r), r) == v
  {
  }

  /** From one range to another, in a straight line. */
  function Line(v: real, a: Range, b: Range): real
    requires a.Valid()
  {
    At(Unit(v, a), b)
  }

  lemma {:induction false} LineBack(v: real, a: Range, b: Range)
    requires a.Valid() && b.Valid()
    ensures Line(Line(v, a, b), b, a) == v
  {
  }

  function Image(r: Range, a: Range, b: Range): Range
    requires a.Valid()
  {
    Range(Line(r.min, a, b), Line(r.max, a, b))
  }

  /** A line keeps positions: the value at position `u` of a range goes to position `u` of the image of the range. */
  lemma {:induction false} LineKeepsPositions(u: real, r: Range, a: Range, b: Range)
    requires a.Valid()
    ensures Line(At(u, r), a, b) == At(u, Image(r, a, b))
  {
  }

  lemma {:induction false} ImageValid(r: Range, a: Range, b: Range)
    requires a.Valid() && b.Valid() && r.Valid()
    ensures Image(r, a, b).Valid()
  {
    var s, t, d := Unit(r.min, a), Unit(r.max, a), a.max - a.min;
    assert (t - s) * d == r.max - r.min;
    Increasing(s, t, d);
    var i := b.max - b.min;
    assert i * (t - s) > 0.0;
    assert i * (t - s) == i * t - i * s;
  }

  lemma {:induction false} Increasing(s: real, t: real, d: real)
    requires d > 0.0 && (t - s) * d > 0.0
    ensures s < t
  {
  }

  // ----- Casting values ----------------------------------------------------

  /** The external value of an internal one (or the other way round with the inverse exponent). */
  function CastValue(pow: Power, v: real, rin: Range, rext: Range, exponent: real): real
    requires rin.Valid()
  {
    rext.min + (rext.max - rext.min) * pow((v - rin.min) / (rin.max - rin.min), exponent)
  }

  lemma CastValueIsAt(pow: Power, v: real, rin: Range, rext: Range, exponent: real)
    requires rin.Valid()
    ensures CastValue(pow, v, rin, rext, exponent) == At(pow(Unit(v, rin), exponent), rext)
  {
  }

  /** A cast sends the value at position u of the first range to position u^exponent of the second. */
  lemma {:induction false} CastOfPosition(pow: Power, v: real, u: real, rin: Range, rext: Range, exponent: real)
    requires rin.Valid() && v == rin.min + (rin.max - rin.min) * u
    ensures CastValue(pow, v, rin, rext, exponent) == rext.min + (rext.max - rext.min) * pow(u, exponent)
  {
    assert v == At(u, rin);
    UnitOfAt(u, rin);
    CastValueIsAt(pow, v, rin, rext, exponent);
  }

  /** So it sends the ends of the first range to the ends of the second. */
  lemma {:induction false} CastOfEnds(pow: Power, rin: Range, rext: Range, exponent: real)
    requires rin.Valid() && PowerLaws(pow) && exponent > 0.0
    ensures CastValue(pow, rin.min, rin, rext, exponent) == rext.min
    ensures CastValue(pow, rin.max, rin, rext, exponent) == rext.max
  {
    PowerOfUnit(pow, exponent);
    PowerOfZero(pow, exponent);
    hide PowerLaws;
    hide CastValue;
    CastOfPosition(pow, rin.min, 0.0, rin, rext, exponent);
    CastOfPosition(pow, rin.max, 1.0, rin, rext, exponent);
  }

  lemma {:induction false} CastValueIsLine(pow: Power, v: real, rin: Range, rext: Range)
    requires rin.Valid() && PowerOfOne(pow)
    ensures CastValue(pow, v, rin, rext, 1.0) == Line(v, rin, rext)
  {
  }

  /** What a cast means: to the external value that the source mapping gives, and from it to the internal value that
      stands for it in the destination mapping. */
  function TwoSteps(pow: Power, v: real, source: DataMapping, dest: DataMapping): real
    requires source.Valid() && dest.Valid()
  {
    var external := CastValue(pow, v, source.format.range, source.rangeExt, source.exponent);
    CastValue(pow, external, dest.rangeExt, dest.format.range, 1.0 / dest.exponent)
  }

  /** The scaling that stands for the two steps, when there is one of the forms that the program knows. */
  function CastOptions(pow: Power, source: DataMapping, dest: DataMapping): (r: CastResult)
    requires source.Valid() && dest.Valid()
  {
    if source == dest then
      NoCastToPerform
    else if dest.exponent == 1.0 then
      var eq := Range(CastValue(pow, source.rangeExt.min, dest.rangeExt, dest.format.range, 1.0),
                      CastValue(pow, source.rangeExt.max, dest.rangeExt, dest.format.range, 1.0));
      Scale(source.format.range, eq, source.exponent)
    else if source.exponent == 1.0 then
      var eq := Range(CastValue(pow, dest.rangeExt.min, source.rangeExt, source.format.range, 1.0),
                      CastValue(pow, dest.rangeExt.max, source.rangeExt, source.format.range, 1.0));
      Scale(eq, dest.format.range, 1.0 / dest.exponent)
    else if source.exponent == dest.exponent && source.rangeExt.min == dest.rangeExt.min then
      SameExponentScale(pow, source, dest)
    else
      UnableToCast
  }

  /** Which casts there are, for valid mappings: none to perform exactly between equal mappings, and a scaling exactly
      between different ones when one of them is linear, or both have the same exponent and external minimum. */
  lemma {:induction false} CastIff(pow: Power, source: DataMapping, dest: DataMapping)
    requires source.Valid() && dest.Valid()
    ensures CastOptions(pow, source, dest).NoCastToPerform? <==> source == dest
    ensures CastOptions(pow, source, dest).Scale? <==>
              source != dest &&
              (source.exponent == 1.0 || dest.exponent == 1.0 ||
               (source.exponent == dest.exponent && source.rangeExt.min == dest.rangeExt.min))
  {
  }

  /** The scaling starts from a range that is not empty, so it never divides by zero. */
  lemma {:induction false} SourceRangeValid(pow: Power, source: DataMapping, dest: DataMapping)
    requires source.Valid() && dest.Valid() && PowerOfOne(pow)
    ensures var r := CastOptions(pow, source, dest); r.Scale? ==> r.src.Valid()
  {
    CastValueIsLine(pow, dest.rangeExt.min, source.rangeExt, source.format.range);
    CastValueIsLine(pow, dest.rangeExt.max, source.rangeExt, source.format.range);
    ImageValid(dest.rangeExt, source.rangeExt, source.format.range);
  }

  /** Linear destination: the second step is a line, which moves into the range of the first. */
  lemma {:induction false} FusedIntoLinear(pow: Power, v: real, source: DataMapping, dest: DataMapping)
    requires source.Valid() && dest.Valid() && PowerOfOne(pow) && dest.exponent == 1.0
    ensures CastValue(pow, v, source.format.range, Image(source.rangeExt, dest.rangeExt, dest.format.range),
                      source.exponent) == TwoSteps(pow, v, source, dest)
  {
  }

  /** Linear source: a value has the position in the image of the destination range that its external value has in the
      destination range. */
  lemma {:induction false} UnitFromLinear(v: real, source: DataMapping, dest: DataMapping)
    requires source.Valid() && dest.Valid()
    ensures Image(dest.rangeExt, source.rangeExt, source.format.range).Valid()
    ensures Unit(v, Image(dest.rangeExt, source.rangeExt, source.format.range)) ==
              Unit(Line(v, source.format.range, source.rangeExt), dest.rangeExt)
  {
    var image := Image(dest.rangeExt, source.rangeExt, source.format.range);
    ImageValid(dest.rangeExt, source.rangeExt, source.format.range);
    var external := Line(v, source.format.range, source.rangeExt);
    var u := Unit(external, dest.rangeExt);
    AtOfUnit(external, dest.rangeExt);
    LineBack(v, source.format.range, source.rangeExt);
    LineKeepsPositions(u, dest.rangeExt, source.rangeExt, source.format.range);
    assert v == At(u, image);
    UnitOfAt(u, image);
  }

  /** Linear source: the first step is a line, which moves into the source range of the second. */
  lemma {:induction false} FusedFromLinear(pow: Power, v: real, source: DataMapping, dest: DataMapping)
    requires source.Valid() && dest.Valid() && PowerOfOne(pow) && source.exponent == 1.0
    ensures Image(dest.rangeExt, source.rangeExt, source.format.range).Valid()
    ensures CastValue(pow, v, Image(dest.rangeExt, source.rangeExt, source.format.range), dest.format.range,
                      1.0 / dest.exponent) == TwoSteps(pow, v, source, dest)
  {
    var image := Image(dest.rangeExt, source.rangeExt, source.format.range);
    UnitFromLinear(v, source, dest);
    CastValueIsLine(pow, v, source.format.range, source.rangeExt);
    var external := Line(v, source.format.range, source.rangeExt);
    CastValueIsAt(pow, v, image, dest.format.range, 1.0 / dest.exponent);
    CastValueIsAt(pow, external, dest.rangeExt, dest.format.range, 1.0 / dest.exponent);
  }

  lemma {:induction false} UnitSign(v: real, r: Range)
    requires r.Valid()
    ensures Unit(v, r) >= 0.0 <==> v >= r.min
  {
  }

  /** How much larger the external range of the source is. */
  function Ratio(source: DataMapping, dest: DataMapping): real
    requires dest.Valid()
  {
    (source.rangeExt.max - source.rangeExt.min) / (dest.rangeExt.max - dest.rangeExt.min)
  }

  lemma RatioTimes(source: DataMapping, dest: DataMapping)
    requires dest.Valid()
    ensures Ratio(source, dest) * (dest.rangeExt.max - dest.rangeExt.min) == source.rangeExt.max - source.rangeExt.min
  {
  }

  lemma {:induction false} RatioPositive(source: DataMapping, dest: DataMapping)
    requires source.Valid() && dest.Valid()
    ensures Ratio(source, dest) > 0.0
  {
  }

  lemma {:induction false} UnitInOther(p: real, r: Range, r': Range, f: real)
    requires r.Valid() && r'.Valid() && r.min == r'.min && f * (r'.max - r'.min) == r.max - r.min
    ensures Unit(At(p, r), r') == Times(f, p)
  {
  }

  /** The two steps of mappings that have the same exponent and the same external minimum. */
  lemma {:induction false} TwoStepsOfSameExponent(pow: Power, v: real, source: DataMapping, dest: DataMapping)
    requires source.Valid() && dest.Valid() && source.rangeExt.min == dest.rangeExt.min
    ensures TwoSteps(pow, v, source, dest) ==
              At(pow(Times(Ratio(source, dest), pow(Unit(v, source.format.range), source.exponent)),
                     1.0 / dest.exponent), dest.format.range)
  {
    var external := CastValue(pow, v, source.format.range, source.rangeExt, source.exponent);
    CastValueIsAt(pow, v, source.format.range, source.rangeExt, source.exponent);
    CastValueIsAt(pow, external, dest.rangeExt, dest.format.range, 1.0 / dest.exponent);
    RatioTimes(source, dest);
    assert TwoSteps(pow, v, source, dest) ==
           CastValue(pow, external, dest.rangeExt, dest.format.range, 1.0 / dest.exponent);
    hide *;
    UnitInOther(pow(Unit(v, source.format.range), source.exponent), source.rangeExt, dest.rangeExt,
                Ratio(source, dest));
  }

  lemma {:induction false} PowersCancel(pow: Power, f: real, t: real, e: real)
    requires PowerLaws(pow) && f > 0.0 && t >= 0.0 && e > 0.0
    ensures pow(Times(f, pow(t, e)), 1.0 / e) == Times(pow(f, 1.0 / e), t)
  {
    hide Times;
    InverseExponent(e);
    PowerBack(pow, t, e);
    PowerOfProduct(pow, f, pow(t, e), 1.0 / e);
    hide PowerLaws;
  }

  lemma InverseExponent(e: real)
    requires e > 0.0
    ensures 1.0 / e > 0.0
  {
  }

  /** The scaling of mappings that have the same exponent and the same external minimum. */
  function SameExponentScale(pow: Power, source: DataMapping, dest: DataMapping): (r: CastResult)
    requires dest.Valid()
    ensures r.Scale? && r.src == source.format.range
  {
    var to := dest.format.range;
    var max := (to.max - to.min) * pow(Ratio(source, dest), 1.0 / dest.exponent) + to.min;
    Scale(source.format.range, Range(to.min, max), 1.0)
  }

  lemma {:induction false} SameExponentScaled(pow: Power, v: real, source: DataMapping, dest: DataMapping)
    requires source.Valid() && dest.Valid() && PowerOfOne(pow)
    ensures var r := SameExponentScale(pow, source, dest);
            CastValue(pow, v, r.src, r.dst, r.exponent) ==
              At(Times(pow(Ratio(source, dest), 1.0 / dest.exponent), Unit(v, source.format.range)), dest.format.range)
  {
  }

  /** Equal exponents: the powers cancel, from the start of the source range on. */
  lemma {:induction false} FusedSameExponent(pow: Power, v: real, source: DataMapping, dest: DataMapping)
    requires source.Valid() && dest.Valid() && PowerLaws(pow) && v >= source.format.range.min
    requires source.exponent == dest.exponent && source.rangeExt.min == dest.rangeExt.min
    ensures var r := SameExponentScale(pow, source, dest);
            CastValue(pow, v, r.src, r.dst, r.exponent) == TwoSteps(pow, v, source, dest)
  {
    SameExponentScaled(pow, v, source, dest);
    hide *;
    RatioPositive(source, dest);
    UnitSign(v, source.format.range);
    TwoStepsOfSameExponent(pow, v, source, dest);
    PowersCancel(pow, Ratio(source, dest), Unit(v, source.format.range), dest.exponent);
  }

  predicate SameOfOpposite(pow: Power, x: real, e: real) {
    pow(x, e) == pow(-x, e)
  }

  /** Below the source range, with a power that sees the absolute value. */
  lemma {:induction false} BelowTheRange(pow: Power, v: real, source: DataMapping, dest: DataMapping)
    requires source.Valid() && dest.Valid() && PowerLaws(pow) && v < source.format.range.min
    requires source.exponent == dest.exponent && source.rangeExt.min == dest.rangeExt.min
    requires SameOfOpposite(pow, Unit(v, source.format.range), source.exponent)
    ensures var r := SameExponentScale(pow, source, dest);
            CastValue(pow, v, r.src, r.dst, r.exponent) != TwoSteps(pow, v, source, dest)
  {
    SameExponentScaled(pow, v, source, dest);
    InverseExponent(dest.exponent);
    hide *;
    var f, e, t := Ratio(source, dest), dest.exponent, Unit(v, source.format.range);
    RatioPositive(source, dest);
    UnitSign(v, source.format.range);
    TwoStepsOfSameExponent(pow, v, source, dest);
    PowersCancel(pow, f, -t, e);
    PowerPositive(pow, f, 1.0 / e);
    Apart(pow(f, 1.0 / e), t, dest.format.range);
  }

  lemma {:induction false} Apart(g: real, t: real, r: Range)
    requires r.Valid() && g > 0.0 && t < 0.0
    ensures At(Times(g, -t), r) != At(Times(g, t), r)
  {
  }

  /** Every scaling that the program chooses gives the values of the two steps, whatever the branch; only equal
      exponents need the value not to be below the source range. */
  lemma {:induction false} ScaleIsTwoSteps(pow: Power, v: real, source: DataMapping, dest: DataMapping)
    requires source.Valid() && dest.Valid() && PowerLaws(pow) && source != dest
    requires source.exponent == 1.0 || dest.exponent == 1.0 ||
             (source.exponent == dest.exponent && source.rangeExt.min == dest.rangeExt.min &&
              v >= source.format.range.min)
    ensures var r := CastOptions(pow, source, dest);
            && r.Scale? && r.src.Valid()
            && CastValue(pow, v, r.src, r.dst, r.exponent) == TwoSteps(pow, v, source, dest)
  {
    if dest.exponent == 1.0 {
      CastValueIsLine(pow, source.rangeExt.min, dest.rangeExt, dest.format.range);
      CastValueIsLine(pow, source.rangeExt.max, dest.rangeExt, dest.format.range);
      FusedIntoLinear(pow, v, source, dest);
    } else if source.exponent == 1.0 {
      CastValueIsLine(pow, dest.rangeExt.min, source.rangeExt, source.format.range);
      CastValueIsLine(pow, dest.rangeExt.max, source.rangeExt, source.format.range);
      FusedFromLinear(pow, v, source, dest);
    } else {
      FusedSameExponent(pow, v, source, dest);
    }
  }

  /** When there is no cast to perform, the two steps are the identity. */
  lemma {:induction false} NoCastIsIdentity(pow: Power, v: real, source: DataMapping, dest: DataMapping)
    requires source.Valid() && dest.Valid() && PowerLaws(pow) && CastOptions(pow, source, dest).NoCastToPerform?
    requires source.exponent == 1.0 || v >= source.format.range.min
    ensures TwoSteps(pow, v, source, dest) == v
  {
    var t, e := Unit(v, source.format.range), source.exponent;
    UnitSign(v, source.format.range);
    CastValueIsAt(pow, v, source.format.range, source.rangeExt, e);
    UnitOfAt(pow(t, e), source.rangeExt);
    CastValueIsAt(pow, At(pow(t, e), source.rangeExt), source.rangeExt, source.format.range, 1.0 / e);
    assert pow(pow(t, e), 1.0 / e) == t;
    AtOfUnit(v, source.format.range);
  }

  // ----- Powers that are not defined everywhere ------------------------------

  /** `math.Pow`: none is NaN. */
  type PartialPower = (real, real) -> Option<real>

  function OrZero(o: Option<real>): real {
    if o.Some? then o.value else 0.0
  }

  /** The power with an arbitrary value where there is none. */
  function Total(p: PartialPower): Power {
    (x: real, e: real) => OrZero(p(x, e))
  }

  ghost predicate NoneBelowZero(p: PartialPower, e: real) {
    forall x | x < 0.0 :: p(x, e).None?
  }

  /** Of a negative number: not defined (most exponents), that of the absolute value (even ones), or negative (odd
      ones), and then the inverse power of a negative number is not defined. */
  ghost predicate OfNegatives(p: PartialPower) {
    forall x, e | x < 0.0 && e > 0.0 && e != 1.0 ::
      || p(x, e).None?
      || p(x, e) == p(-x, e)
      || (p(x, e).value < 0.0 && NoneBelowZero(p, 1.0 / e))
  }

  /** The laws of powers; x^1 is defined for any x, other powers on nonnegative numbers at least. */
  ghost predicate PartialLaws(p: PartialPower) {
    && PowerLaws(Total(p))
    && (forall x, e | e == 1.0 || (x >= 0.0 && e > 0.0) :: p(x, e).Some?)
    && OfNegatives(p)
  }

  /** The cast of a value, if its power is defined: a sum or a product with NaN is NaN. */
  function PartialCast(p: PartialPower, v: real, rin: Range, rext: Range, exponent: real): Option<real>
    requires rin.Valid()
  {
    var u := p(Unit(v, rin), exponent);
    if u.None? then None else Some(At(u.value, rext))
  }

  /** The two steps, if both are defined: a power of NaN is NaN. */
  function PartialTwoSteps(p: PartialPower, v: real, source: DataMapping, dest: DataMapping): Option<real>
    requires source.Valid() && dest.Valid()
  {
    var external := PartialCast(p, v, source.format.range, source.rangeExt, source.exponent);
    if external.None? then None
    else PartialCast(p, external.value, dest.rangeExt, dest.format.range, 1.0 / dest.exponent)
  }

  lemma {:induction false} PartialCastValue(p: PartialPower, v: real, rin: Range, rext: Range, exponent: real)
    requires rin.Valid()
    ensures PartialCast(p, v, rin, rext, exponent).Some? <==> p(Unit(v, rin), exponent).Some?
    ensures PartialCast(p, v, rin, rext, exponent).Some? ==>
              PartialCast(p, v, rin, rext, exponent).value == CastValue(Total(p), v, rin, rext, exponent)
  {
  }

  lemma {:induction false} PartialTwoStepsValue(p: PartialPower, v: real, source: DataMapping, dest: DataMapping)
    requires source.Valid() && dest.Valid() && PartialTwoSteps(p, v, source, dest).Some?
    ensures PartialTwoSteps(p, v, source, dest).value == TwoSteps(Total(p), v, source, dest)
  {
    var external := CastValue(Total(p), v, source.format.range, source.rangeExt, source.exponent);
    PartialCastValue(p, v, source.format.range, source.rangeExt, source.exponent);
    PartialCastValue(p, external, dest.rangeExt, dest.format.range, 1.0 / dest.exponent);
  }

  /** Equal exponents: the two steps are defined from the start of the source range on, and below it only if the power
      sees the absolute value. */
  lemma {:induction false} SameExponentDefined(p: PartialPower, v: real, source: DataMapping, dest: DataMapping)
    requires source.Valid() && dest.Valid() && PartialLaws(p)
    requires source.exponent == dest.exponent != 1.0 && source.rangeExt.min == dest.rangeExt.min
    ensures v >= source.format.range.min ==> PartialTwoSteps(p, v, source, dest).Some?
    ensures v < source.format.range.min && PartialTwoSteps(p, v, source, dest).Some? ==>
              SameOfOpposite(Total(p), Unit(v, source.format.range), source.exponent)
  {
    var t, e := Unit(v, source.format.range), source.exponent;
    UnitSign(v, source.format.range);
    InverseExponent(e);
    var power := p(t, e);
    if power.Some? {
      var external := At(power.value, source.rangeExt);
      RatioTimes(source, dest);
      UnitInOther(power.value, source.rangeExt, dest.rangeExt, Ratio(source, dest));
      var u := Times(Ratio(source, dest), power.value);
      assert Unit(external, dest.rangeExt) == u;
      RatioPositive(source, dest);
      SignOfProduct(Ratio(source, dest), power.value);
      if t >= 0.0 {
        assert Total(p)(t, e) == power.value >= 0.0;
        assert p(u, 1.0 / e).Some?;
      } else if p(t, e) != p(-t, e) {
        assert p(u, 1.0 / e).None?;
      }
    }
  }

  lemma {:induction false} SignOfProduct(f: real, x: real)
    requires f > 0.0
    ensures Times(f, x) < 0.0 <==> x < 0.0
  {
  }

  /** Equal exponents other than 1: the scaling equals the two steps exactly from the start of the source range on. */
  lemma {:induction false} SameExponentIff(p: PartialPower, v: real, source: DataMapping, dest: DataMapping)
    requires source.Valid() && dest.Valid() && PartialLaws(p)
    requires source.exponent == dest.exponent != 1.0 && source.rangeExt.min == dest.rangeExt.min
    ensures var r := SameExponentScale(Total(p), source, dest);
            PartialCast(p, v, r.src, r.dst, r.exponent) == PartialTwoSteps(p, v, source, dest) <==>
              v >= source.format.range.min
  {
    var r := SameExponentScale(Total(p), source, dest);
    PartialCastValue(p, v, r.src, r.dst, r.exponent);
    SameExponentDefined(p, v, source, dest);
    if v >= source.format.range.min {
      FusedSameExponent(Total(p), v, source, dest);
      PartialTwoStepsValue(p, v, source, dest);
    } else if PartialTwoSteps(p, v, source, dest).Some? {
      BelowTheRange(Total(p), v, source, dest);
      PartialTwoStepsValue(p, v, source, dest);
    }
  }

  /** Linear destination or source: the scaling is defined exactly where the two steps are. */
  lemma {:induction false} LinearDefined(p: PartialPower, v: real, source: DataMapping, dest: DataMapping)
    requires source.Valid() && dest.Valid() && PartialLaws(p)
    requires source.exponent == 1.0 || dest.exponent == 1.0
    requires CastOptions(Total(p), source, dest).Scale?
    ensures var r := CastOptions(Total(p), source, dest);
            && r.src.Valid()
            && (PartialCast(p, v, r.src, r.dst, r.exponent).Some? <==> PartialTwoSteps(p, v, source, dest).Some?)
  {
    var r := CastOptions(Total(p), source, dest);
    SourceRangeValid(Total(p), source, dest);
    if dest.exponent == 1.0 {
      PartialCastValue(p, v, source.format.range, r.dst, source.exponent);
    } else {
      var image := Image(dest.rangeExt, source.rangeExt, source.format.range);
      CastValueIsLine(Total(p), dest.rangeExt.min, source.rangeExt, source.format.range);
      CastValueIsLine(Total(p), dest.rangeExt.max, source.rangeExt, source.format.range);
      assert r.src == image;
      UnitFromLinear(v, source, dest);
      PartialCastValue(p, v, source.format.range, source.rangeExt, 1.0);
      CastValueIsLine(Total(p), v, source.format.range, source.rangeExt);
    }
  }

  /** The scaling that is chosen equals the two steps, defined or not, exactly when one of the mappings is linear or the
      value is not below the source range. */
  lemma {:induction false} ScaleIsTwoStepsIff(p: PartialPower, v: real, source: DataMapping, dest: DataMapping)
    requires source.Valid() && dest.Valid() && PartialLaws(p) && source != dest
    requires source.exponent == 1.0 || dest.exponent == 1.0 ||
             (source.exponent == dest.exponent && source.rangeExt.min == dest.rangeExt.min)
    ensures var r := CastOptions(Total(p), source, dest);
            && r.Scale? && r.src.Valid()
            && (PartialCast(p, v, r.src, r.dst, r.exponent) == PartialTwoSteps(p, v, source, dest) <==>
                  source.exponent == 1.0 || dest.exponent == 1.0 || v >= source.format.range.min)
  {
    if source.exponent == 1.0 || dest.exponent == 1.0 {
      LinearDefined(p, v, source, dest);
      var r := CastOptions(Total(p), source, dest);
      PartialCastValue(p, v, r.src, r.dst, r.exponent);
      if PartialTwoSteps(p, v, source, dest).Some? {
        PartialTwoStepsValue(p, v, source, dest);
        ScaleIsTwoSteps(Total(p), v, source, dest);
      }
    } else {
      SameExponentIff(p, v, source, dest);
    }
  }

  lemma {:induction false} PowerOfUnit(pow: Power, d: real)
    requires PowerLaws(pow) && d > 0.0
    ensures pow(1.0, d) == 1.0
  {
    PowerPositive(pow, 1.0, d);
    PowerOfProduct(pow, 1.0, 1.0, d);
    hide PowerLaws;
    assert Times(1.0, 1.0) == 1.0;
    OneFactor(pow(1.0, d), pow(1.0, d));
  }

  lemma {:induction false} PowerOfZero(pow: Power, d: real)
    requires PowerLaws(pow) && d > 0.0
    ensures pow(0.0, d) == 0.0
  {
    PowerBack(pow, 0.0, d);
    PowerOfProduct(pow, 0.0, 0.0, d);
    InverseExponent(d);
    PowerOfUnit(pow, 1.0 / d);
    hide PowerLaws;
    assert Times(0.0, 0.0) == 0.0;
    if pow(0.0, d) != 0.0 {
      OneFactor(pow(0.0, d), pow(0.0, d));
    }
  }

  lemma {:induction false} OneFactor(x: real, y: real)
    requires y > 0.0 && Times(x, y) == y
    ensures x == 1.0
  {
    assert (x - 1.0) * y == 0.0;
  }

  lemma {:induction false} RatioOfSame(m: DataMapping)
    requires m.Valid()
    ensures Ratio(m, m) == 1.0
  {
    RatioTimes(m, m);
    OneFactor(Ratio(m, m), m.rangeExt.max - m.rangeExt.min);
  }

  /** No cast: the two steps give the value back exactly when the mapping is linear or the value not below its range. */
  lemma {:induction false} NoCastIsIdentityIff(p: PartialPower, v: real, source: DataMapping, dest: DataMapping)
    requires source.Valid() && dest.Valid() && PartialLaws(p) && CastOptions(Total(p), source, dest).NoCastToPerform?
    ensures PartialTwoSteps(p, v, source, dest) == Some(v) <==> source.exponent == 1.0 || v >= source.format.range.min
  {
    if source.exponent == 1.0 {
      PartialTwoStepsValue(p, v, source, dest);
      NoCastIsIdentity(Total(p), v, source, dest);
    } else {
      SameExponentIff(p, v, source, dest);
      var r := SameExponentScale(Total(p), source, dest);
      PartialCastValue(p, v, r.src, r.dst, r.exponent);
      SameExponentScaled(Total(p), v, source, dest);
      RatioOfSame(source);
      PowerOfUnit(Total(p), 1.0 / dest.exponent);
      AtOfUnit(v, source.format.range);
      assert Times(1.0, Unit(v, source.format.range)) == Unit(v, source.format.range);
    }
  }
}
