/** Detection geometry and scale-space layout of the GPU AKAZE planner (gpu_features.cpp).

    Binary32 rounding is a parameter `fl`: any monotone rounding that keeps the integers a float
    holds exactly.  The region endpoints need no rounding: a 24-bit fraction times a 14-bit
    dimension is exact in a double, so they are exact reals here. */
module GpuGeometry {
  import opened Arithmetic
  import opened Results

  const MAX_DIMENSION: nat := 8192
  const MAX_FEATURES: nat := 8192
  const CROP_MARGIN: nat := 32

  datatype Region = Region(xMin: real, xMax: real, yMin: real, yMax: real)

  /** The configuration fields the planner reads. */
  datatype Config = Config(maxKeypoints: nat, maxDetectionWidth: nat, useRegion: bool, region: Region,
                           numSublevels: nat, maxOctaves: nat)

  datatype Geometry = Geometry(cropX: nat, cropY: nat, cropWidth: nat, cropHeight: nat,
                               detectWidth: nat, detectHeight: nat)

  datatype Level = Level(width: nat, height: nat, octave: nat, sublevel: nat)

  type Rounding = real -> real

  ghost predicate IsRounding(fl: Rounding) {
    && (forall x, y :: x <= y ==> fl(x) <= fl(y))
    && (forall n: nat :: n <= 0x100_0000 ==> fl(Real(n)) == Real(n))
  }

  function Real(n: nat): real { n as real }

  // Named products and quotients: equal arguments then give equal terms to the verifier.
  function Times(a: real, b: real): real { a * b }

  function Over(a: real, b: real): real
    requires b != 0.0
  {
    a / b
  }

  predicate ValidFrame(width: nat, height: nat) {
    0 < width <= MAX_DIMENSION && 0 < height <= MAX_DIMENSION
  }

  predicate ValidRegion(r: Region) {
    0.0 <= r.xMin < r.xMax <= 1.0 && 0.0 <= r.yMin < r.yMax <= 1.0
  }

  predicate ValidConfig(c: Config) {
    && 0 < c.maxKeypoints <= MAX_FEATURES
    && 0 < c.maxDetectionWidth < 0x1_0000_0000
    && 1 <= c.numSublevels <= 8
    && 1 <= c.maxOctaves <= 8
    && (c.useRegion ==> ValidRegion(c.region))
  }

  /** The inputs that are accepted: frames of up to 8192 pixels a side, and configurations within these bounds. */
  lemma {:induction false} InputsExact(width: nat, height: nat, c: Config)
    ensures ValidFrame(width, height) <==> 1 <= width <= 8192 && 1 <= height <= 8192
    ensures ValidConfig(c) <==>
      && 1 <= c.maxKeypoints <= 8192 && 1 <= c.maxDetectionWidth <= 4294967295
      && 1 <= c.numSublevels <= 8 && 1 <= c.maxOctaves <= 8
      && (c.useRegion ==>
            && 0.0 <= c.region.xMin && c.region.xMin < c.region.xMax && c.region.xMax <= 1.0
            && 0.0 <= c.region.yMin && c.region.yMin < c.region.yMax && c.region.yMax <= 1.0)
  {
  }

  // ----- cropping -------------------------------------------------------------------------------

  function Ceiling(x: real): int { -((-x).Floor) }

  function LowEndpoint(x: real, dimension: nat): int { Times(x, Real(dimension)).Floor }

  function HighEndpoint(x: real, dimension: nat): int { Ceiling(Times(x, Real(dimension))) }

  lemma {:induction false} EndpointsOrdered(low: real, high: real, dimension: nat)
    requires 0.0 <= low < high <= 1.0 && 0 < dimension
    ensures 0 <= LowEndpoint(low, dimension) < HighEndpoint(high, dimension) <= dimension
  {
    var d := Real(dimension);
    ScaleStrict(low, high, d);
    ProductMonotone(d, low, high);
    var a, b := Times(low, d), Times(high, d);
    assert 0.0 <= a < b <= d;
    CeilingBound(b, dimension);
    assert 0 <= a.Floor && a.Floor as real <= a < b <= Ceiling(b) as real;
  }

  lemma {:induction false} CeilingBound(x: real, n: int)
    requires x <= n as real
    ensures Ceiling(x) <= n
  {
    assert (-x).Floor as real > -x - 1.0 >= (-n) as real - 1.0;
  }

  lemma {:induction false} ScaleStrict(a: real, b: real, d: real)
    requires a < b && 0.0 < d
    ensures Times(a, d) < Times(b, d)
  {
    assert (b - a) * d > 0.0;
  }

  /** One axis of the crop: the low endpoint widened down, the high endpoint widened up, by the margin of 32
      pixels, as far as the frame goes.  The high test is the source's `x_high > dimension - min(dimension, margin)`. */
  function CropAxis(low: real, high: real, dimension: nat): (r: (nat, nat))
    requires 0.0 <= low < high <= 1.0 && 0 < dimension
    ensures r.0 <= LowEndpoint(low, dimension) < HighEndpoint(high, dimension) <= r.1 <= dimension
    ensures r.0 == Max(0, LowEndpoint(low, dimension) - 32) && r.1 == Min(dimension, HighEndpoint(high, dimension) + 32)
    ensures r.1 - r.0 <= HighEndpoint(high, dimension) - LowEndpoint(low, dimension) + 2 * CROP_MARGIN
  {
    EndpointsOrdered(low, high, dimension);
    var lowEnd := LowEndpoint(low, dimension);
    var highEnd := HighEndpoint(high, dimension);
    var first := if lowEnd > CROP_MARGIN then lowEnd - CROP_MARGIN else 0;
    var last := if highEnd > dimension - Min(dimension, CROP_MARGIN) then dimension
                else highEnd + CROP_MARGIN;
    (first, last)
  }

  /** The crop is used only when its area is below three quarters of the frame. */
  function Crop(width: nat, height: nat, c: Config): (g: (nat, nat, nat, nat))
    requires ValidFrame(width, height) && ValidConfig(c)
    ensures 0 < g.2 && g.0 + g.2 <= width && 0 < g.3 && g.1 + g.3 <= height
  {
    if !c.useRegion then (0, 0, width, height)
    else
      var (x0, x1) := CropAxis(c.region.xMin, c.region.xMax, width);
      var (y0, y1) := CropAxis(c.region.yMin, c.region.yMax, height);
      var full := width * height;
      if (x1 - x0) * (y1 - y0) < full / 4 * 3 + full % 4 * 3 / 4
      then (x0, y0, x1 - x0, y1 - y0)
      else (0, 0, width, height)
  }

  /** The region's crop is used exactly if it covers less than three quarters of the frame, rounded down, and then
      from its own corner; otherwise, or without a region, the frame is. */
  lemma {:induction false} CropExact(width: nat, height: nat, c: Config)
    requires ValidFrame(width, height) && ValidConfig(c)
    ensures !c.useRegion ==> Crop(width, height, c) == (0, 0, width, height)
    ensures c.useRegion ==>
      var (x0, x1) := CropAxis(c.region.xMin, c.region.xMax, width);
      var (y0, y1) := CropAxis(c.region.yMin, c.region.yMax, height);
      Crop(width, height, c) ==
        if 4 * ((x1 - x0) * (y1 - y0) + 1) <= 3 * (width * height) then (x0, y0, x1 - x0, y1 - y0)
        else (0, 0, width, height)
  {
    ThreeQuarters(width * height);
  }

  /** The source's overflow-free three quarters. */
  lemma {:induction false} ThreeQuarters(area: int)
    ensures area / 4 * 3 + area % 4 * 3 / 4 == 3 * area / 4
  {
  }

  // ----- detector scale -------------------------------------------------------------------------

  /** Detector height for a detector width below the crop width, truncated as the source's cast. */
  function ScaledHeight(fl: Rounding, cropWidth: nat, cropHeight: nat, detectWidth: nat): int
    requires IsRounding(fl) && 0 < cropWidth <= MAX_DIMENSION
  {
    assert fl(Real(cropWidth)) == Real(cropWidth);
    var scale := fl(Over(fl(Real(detectWidth)), fl(Real(cropWidth))));
    fl(Times(scale, fl(Real(cropHeight)))).Floor
  }

  lemma {:induction false} ScaledHeightMonotone(fl: Rounding, cropWidth: nat, cropHeight: nat, w1: nat, w2: nat)
    requires IsRounding(fl) && 0 < cropWidth <= MAX_DIMENSION && cropHeight <= MAX_DIMENSION
    requires w1 <= w2 <= cropWidth
    ensures 0 <= ScaledHeight(fl, cropWidth, cropHeight, w1)
              <= ScaledHeight(fl, cropWidth, cropHeight, w2) <= cropHeight
  {
    ScaledHeightExact(fl, cropWidth, cropHeight, w1);
    ScaledHeightExact(fl, cropWidth, cropHeight, w2);
    RatioMonotone(Real(w1), Real(w2), Real(cropWidth));
    var q1, q2 := Over(Real(w1), Real(cropWidth)), Over(Real(w2), Real(cropWidth));
    RoundedProductMonotone(fl, cropHeight, q1, q2);
  }

  /** Without rounding the height keeps the crop's proportions, cut to an integer. */
  lemma {:induction false} ScaledHeightProportional(cropWidth: nat, cropHeight: nat, w: nat)
    requires 0 < cropWidth <= MAX_DIMENSION && cropHeight <= MAX_DIMENSION
    ensures IsRounding(x => x)
    ensures var h := ScaledHeight(x => x, cropWidth, cropHeight, w);
      h * cropWidth <= w * cropHeight < (h + 1) * cropWidth
  {
    assert IsRounding(x => x);
    var h := ScaledHeight(x => x, cropWidth, cropHeight, w);
    var d := Real(cropWidth);
    var p := Times(Over(Real(w), d), Real(cropHeight));
    assert h == p.Floor;
    RatioTimes(Real(w), Real(cropHeight), d);
    hide Times, Over;
    ScaleAtMost(h as real, p, d);
    ScaleStrict(p, (h + 1) as real, d);
    CastProduct(h, cropWidth);
    CastProduct(h + 1, cropWidth);
    CastProduct(w, cropHeight);
  }

  lemma {:induction false} RatioTimes(w: real, h: real, d: real)
    requires d > 0.0
    ensures Times(Times(Over(w, d), h), d) == Times(w, h)
  {
    var q := w / d;
    assert q * d == w;
    assert q * h * d == q * d * h;
  }

  lemma {:induction false} CastProduct(a: int, b: nat)
    ensures (a * b) as real == Times(a as real, Real(b))
  {
  }

  lemma {:induction false} ScaleAtMost(a: real, b: real, d: real)
    requires a <= b && 0.0 < d
    ensures Times(a, d) <= Times(b, d)
  {
    assert (b - a) * d >= 0.0;
  }

  lemma {:induction false} RoundedProductMonotone(fl: Rounding, cropHeight: nat, q1: real, q2: real)
    requires IsRounding(fl) && cropHeight <= MAX_DIMENSION && 0.0 <= q1 <= q2 <= 1.0
    ensures 0 <= fl(Times(fl(q1), Real(cropHeight))).Floor <= fl(Times(fl(q2), Real(cropHeight))).Floor <= cropHeight
  {
    RoundingKeepsRange(fl, q1, q2, 1);
    var c, s1, s2 := Real(cropHeight), fl(q1), fl(q2);
    ProductMonotone(c, s1, s2);
    var p1, p2 := Times(s1, c), Times(s2, c);
    assert 0.0 <= p1 <= p2 <= c;
    RoundingKeepsRange(fl, p1, p2, cropHeight);
  }

  lemma {:induction false} ScaledHeightExact(fl: Rounding, cropWidth: nat, cropHeight: nat, w: nat)
    requires IsRounding(fl) && 0 < cropWidth <= MAX_DIMENSION && cropHeight <= MAX_DIMENSION
    requires w <= cropWidth
    ensures ScaledHeight(fl, cropWidth, cropHeight, w)
         == fl(Times(fl(Over(Real(w), Real(cropWidth))), Real(cropHeight))).Floor
  {
    assert fl(Real(w)) == Real(w);
    assert fl(Real(cropWidth)) == Real(cropWidth);
    assert fl(Real(cropHeight)) == Real(cropHeight);
  }

  lemma {:induction false} RoundingKeepsRange(fl: Rounding, a: real, b: real, limit: nat)
    requires IsRounding(fl) && 0.0 <= a <= b <= Real(limit) && limit <= MAX_DIMENSION
    ensures 0.0 <= fl(a) <= fl(b) <= Real(limit)
    ensures 0 <= fl(a).Floor <= fl(b).Floor <= limit
  {
    assert fl(Real(0)) == 0.0 && fl(Real(limit)) == Real(limit);
    assert fl(a) <= fl(b);
    assert fl(b) <= fl(Real(limit));
    assert fl(Real(0)) <= fl(a);
  }

  lemma {:induction false} ProductMonotone(c: real, a: real, b: real)
    requires 0.0 <= c && 0.0 <= a <= b <= 1.0
    ensures 0.0 <= Times(a, c) <= Times(b, c) <= c
  {
  }

  lemma {:induction false} RatioMonotone(a: real, b: real, d: real)
    requires 0.0 <= a <= b <= d && 0.0 < d
    ensures 0.0 <= Over(a, d) <= Over(b, d) <= 1.0
  {
    var qa, qb := a / d, b / d;
    assert qa * d == a && qb * d == b;
    if qb > 1.0 {
      ScaleStrict(1.0, qb, d);
    }
    if qa > qb {
      ScaleStrict(qb, qa, d);
    }
    if qa < 0.0 {
      ScaleStrict(qa, 0.0, d);
    }
  }

  /** `detection_geometry`: None is the source's "detection geometry is empty". */
  function DetectionGeometry(fl: Rounding, width: nat, height: nat, c: Config): (g: Option<Geometry>)
    requires IsRounding(fl) && ValidFrame(width, height) && ValidConfig(c)
    ensures g.Some? ==> var v := g.value;
      && 0 < v.detectWidth <= v.cropWidth <= width && 0 < v.detectHeight <= v.cropHeight <= height
      && v.detectWidth == Min(c.maxDetectionWidth, v.cropWidth)
    ensures g.Some? ==> (g.value.cropX, g.value.cropY, g.value.cropWidth, g.value.cropHeight) == Crop(width, height, c)
    ensures var cropped := Crop(width, height, c);
      if cropped.2 <= c.maxDetectionWidth then g.Some? && g.value.detectHeight == cropped.3
      else var h := ScaledHeight(fl, cropped.2, cropped.3, c.maxDetectionWidth);
        if h == 0 then g.None? else g.Some? && g.value.detectHeight == h
  {
    var (cropX, cropY, cw, ch) := Crop(width, height, c);
    var dw, dh := DetectWidth(cw, c.maxDetectionWidth), DetectHeight(fl, cw, ch, c.maxDetectionWidth);
    if dh == 0 then None else Some(Geometry(cropX, cropY, cw, ch, dw, dh))
  }

  function DetectWidth(cropWidth: nat, limit: nat): nat { Min(limit, cropWidth) }

  function DetectHeight(fl: Rounding, cropWidth: nat, cropHeight: nat, limit: nat): (h: nat)
    requires IsRounding(fl) && 0 < cropWidth <= MAX_DIMENSION && cropHeight <= MAX_DIMENSION
    ensures h <= cropHeight
  {
    if cropWidth > limit then
      ScaledHeightMonotone(fl, cropWidth, cropHeight, limit, limit);
      ScaledHeight(fl, cropWidth, cropHeight, limit)
    else cropHeight
  }

  lemma {:induction false} DetectSizeMonotone(fl: Rounding, cropWidth: nat, cropHeight: nat, w1: nat, w2: nat)
    requires IsRounding(fl) && 0 < cropWidth <= MAX_DIMENSION && cropHeight <= MAX_DIMENSION
    requires w1 <= w2
    ensures DetectWidth(cropWidth, w1) <= DetectWidth(cropWidth, w2)
    ensures DetectHeight(fl, cropWidth, cropHeight, w1) <= DetectHeight(fl, cropWidth, cropHeight, w2)
  {
    if w2 < cropWidth {
      ScaledHeightMonotone(fl, cropWidth, cropHeight, w1, w2);
    }
  }

  /** A wider limit keeps the crop and shrinks the detector image in neither direction. */
  lemma {:induction false} GeometryMonotone(fl: Rounding, width: nat, height: nat, c1: Config, c2: Config)
    requires IsRounding(fl) && ValidFrame(width, height) && ValidConfig(c1) && ValidConfig(c2)
    requires c1 == c2.(maxDetectionWidth := c1.maxDetectionWidth)
    requires c1.maxDetectionWidth <= c2.maxDetectionWidth
    requires DetectionGeometry(fl, width, height, c1).Some?
    ensures DetectionGeometry(fl, width, height, c2).Some?
    ensures var g1, g2 := DetectionGeometry(fl, width, height, c1).value, DetectionGeometry(fl, width, height, c2).value;
      && g1.cropWidth == g2.cropWidth && g1.cropHeight == g2.cropHeight
      && g1.detectWidth <= g2.detectWidth && g1.detectHeight <= g2.detectHeight
  {
    var (cropX, cropY, cw, ch) := Crop(width, height, c1);
    CropIgnoresWidth(width, height, c1, c2);
    DetectSizeMonotone(fl, cw, ch, c1.maxDetectionWidth, c2.maxDetectionWidth);
  }

  lemma {:induction false} CropIgnoresWidth(width: nat, height: nat, c1: Config, c2: Config)
    requires ValidFrame(width, height) && ValidConfig(c1) && ValidConfig(c2)
    requires c1 == c2.(maxDetectionWidth := c1.maxDetectionWidth)
    ensures Crop(width, height, c1) == Crop(width, height, c2)
  {
  }

  // ----- scale space ----------------------------------------------------------------------------

  function Pow2(n: nat): (r: nat)
    ensures 0 < r
  {
    if n == 0 then 1 else 2 * Pow2(n - 1)
  }

  function Sublevels(width: nat, height: nat, numSublevels: nat): nat {
    var smallest := Min(width, height);
    if smallest < 40 then 0 else if smallest < 80 then 1 else numSublevels
  }

  function Block(width: nat, height: nat, octave: nat, count: nat): (ls: seq<Level>) {
    seq(count, (i: nat) => Level(width, height, octave, i))
  }

  function Quotient(a: nat, d: nat): (q: nat)
    requires 0 < d
    ensures q <= a && (d >= 2 ==> q <= a / 2)
  {
    QuotientBound(a, d);
    a / d
  }

  function OctaveBlock(dw: nat, dh: nat, octave: nat, numSublevels: nat): seq<Level> {
    var w, h := Quotient(dw, Pow2(octave)), Quotient(dh, Pow2(octave));
    Block(w, h, octave, Sublevels(w, h, numSublevels))
  }

  /** The levels of octaves `octave .. maxOctaves`, in the order the source pushes them. */
  function LevelsFrom(dw: nat, dh: nat, octave: nat, maxOctaves: nat, numSublevels: nat): seq<Level>
    decreases maxOctaves - octave
  {
    if octave >= maxOctaves then []
    else OctaveBlock(dw, dh, octave, numSublevels)
         + LevelsFrom(dw, dh, octave + 1, maxOctaves, numSublevels)
  }

  function Levels(dw: nat, dh: nat, c: Config): seq<Level> {
    LevelsFrom(dw, dh, 0, c.maxOctaves, c.numSublevels)
  }

  function LevelPixels(l: Level): nat { l.width * l.height }

  function Pixels(ls: seq<Level>): nat {
    if ls == [] then 0 else LevelPixels(ls[0]) + Pixels(ls[1..])
  }

  lemma {:induction false} PixelsConcat(a: seq<Level>, b: seq<Level>)
    ensures Pixels(a + b) == Pixels(a) + Pixels(b)
  {
    if a == [] {
      assert a + b == b;
    } else {
      assert (a + b)[1..] == a[1..] + b;
      PixelsConcat(a[1..], b);
    }
  }

  lemma {:induction false} BlockPixels(w: nat, h: nat, octave: nat, count: nat)
    ensures Pixels(Block(w, h, octave, count)) == count * (w * h)
  {
    if count > 0 {
      BlockPixels(w, h, octave, count - 1);
      assert Block(w, h, octave, count) == Block(w, h, octave, count - 1) + [Level(w, h, octave, count - 1)];
      PixelsConcat(Block(w, h, octave, count - 1), [Level(w, h, octave, count - 1)]);
    }
  }

  /** A frame no larger than 8192 x 8192 keeps the whole scale space within 32 bits. */
  lemma {:induction false} LevelsWithinLimits(dw: nat, dh: nat, octave: nat, maxOctaves: nat, numSublevels: nat)
    requires dw <= MAX_DIMENSION && dh <= MAX_DIMENSION && maxOctaves <= 8 && numSublevels <= 8
    ensures Pixels(LevelsFrom(dw, dh, octave, maxOctaves, numSublevels))
         <= (if octave == 0 then 0x2000_0000 else 0) + (if octave <= 8 then 8 - octave else 0) * 0x800_0000
    ensures |LevelsFrom(dw, dh, octave, maxOctaves, numSublevels)| <= 8 * (if octave <= 8 then 8 - octave else 0)
    decreases maxOctaves - octave
  {
    if octave < maxOctaves {
      LevelsWithinLimits(dw, dh, octave + 1, maxOctaves, numSublevels);
      var d := Pow2(octave);
      assert octave > 0 ==> d >= 2;
      var w, h := Quotient(dw, d), Quotient(dh, d);
      assert w <= dw && h <= dh && (octave > 0 ==> w <= 4096 && h <= 4096);
      var n := Sublevels(w, h, numSublevels);
      BlockPixels(w, h, octave, n);
      PixelsConcat(OctaveBlock(dw, dh, octave, numSublevels),
                   LevelsFrom(dw, dh, octave + 1, maxOctaves, numSublevels));
      AreaBound(w, h, if octave == 0 then 8192 else 4096, n);
    }
  }

  lemma {:induction false} LevelShapes(dw: nat, dh: nat, octave: nat, maxOctaves: nat, numSublevels: nat)
    ensures forall l :: l in LevelsFrom(dw, dh, octave, maxOctaves, numSublevels) ==>
              40 <= l.width <= dw && 40 <= l.height <= dh && octave <= l.octave < maxOctaves
    decreases maxOctaves - octave
  {
    if octave < maxOctaves {
      LevelShapes(dw, dh, octave + 1, maxOctaves, numSublevels);
    }
  }

  /** Exactly which levels there are: in each octave whose shorter side keeps 40 pixels, one of the image divided by
      the octave's power of two if that side is under 80, else as many as configured. */
  lemma {:induction false} LevelsExact(dw: nat, dh: nat, octave: nat, maxOctaves: nat, numSublevels: nat, l: Level)
    ensures l in LevelsFrom(dw, dh, octave, maxOctaves, numSublevels) <==>
      && octave <= l.octave < maxOctaves
      && l.width == dw / Pow2(l.octave) && l.height == dh / Pow2(l.octave) && l.width >= 40 && l.height >= 40
      && l.sublevel < (if l.width < 80 || l.height < 80 then 1 else numSublevels)
    decreases maxOctaves - octave
  {
    if octave < maxOctaves {
      LevelsExact(dw, dh, octave + 1, maxOctaves, numSublevels, l);
      var block := OctaveBlock(dw, dh, octave, numSublevels);
      if l.octave == octave && l.sublevel < |block| {
        assert block[l.sublevel].sublevel == l.sublevel;
      }
    }
  }

  ghost predicate InOrder(ls: seq<Level>) {
    forall i, j :: 0 <= i < j < |ls| ==>
      ls[i].octave < ls[j].octave || (ls[i].octave == ls[j].octave && ls[i].sublevel < ls[j].sublevel)
  }

  /** They come octave by octave, and sublevel by sublevel. */
  lemma {:induction false} LevelsInOrder(dw: nat, dh: nat, octave: nat, maxOctaves: nat, numSublevels: nat)
    ensures InOrder(LevelsFrom(dw, dh, octave, maxOctaves, numSublevels))
    decreases maxOctaves - octave
  {
    if octave < maxOctaves {
      LevelsInOrder(dw, dh, octave + 1, maxOctaves, numSublevels);
      LevelShapes(dw, dh, octave + 1, maxOctaves, numSublevels);
      var block, rest := OctaveBlock(dw, dh, octave, numSublevels), LevelsFrom(dw, dh, octave + 1, maxOctaves, numSublevels);
      assert forall l :: l in rest ==> l.octave > octave;
      assert forall i :: 0 <= i < |rest| ==> rest[i] in rest;
      hide LevelsFrom;
    }
  }

  lemma {:induction false} AreaBound(w: nat, h: nat, side: nat, n: nat)
    requires w <= side && h <= side && n <= 8
    ensures n * (w * h) <= 8 * (side * side)
  {
    ProductBound(w, side, h, side);
    ProductBound(n, 8, w * h, side * side);
  }

  ghost predicate BasesMatch(specs: seq<Level>, bases: seq<nat>) {
    && |bases| == |specs|
    && forall i :: 0 <= i < |bases| ==> bases[i] == Pixels(specs[..i]) < 0x1_0000_0000
  }

  lemma {:induction false} BasesExtend(specs: seq<Level>, bases: seq<nat>, level: Level)
    requires BasesMatch(specs, bases) && Pixels(specs) < 0x1_0000_0000
    ensures BasesMatch(specs + [level], bases + [Pixels(specs)])
    ensures Pixels(specs + [level]) == Pixels(specs) + level.width * level.height
  {
    var more := specs + [level];
    assert more[..|specs|] == specs;
    assert forall i :: 0 <= i < |specs| ==> more[..i] == specs[..i];
    PixelsConcat(specs, [level]);
  }

  lemma {:induction false} PrefixPixels(all: seq<Level>, prefix: seq<Level>)
    requires prefix <= all
    ensures Pixels(prefix) <= Pixels(all)
  {
    PixelsConcat(prefix, all[|prefix|..]);
    assert all == prefix + all[|prefix|..];
  }

  /** The inner loop of `make_evolution_specs`: one octave's levels pushed behind the earlier ones. */
  method PushOctave(before: seq<Level>, basesBefore: seq<nat>, baseBefore: nat,
                    w: nat, h: nat, octave: nat, sublevels: nat, ghost all: seq<Level>)
    returns (specs: seq<Level>, bases: seq<nat>, pixelBase: nat)
    requires BasesMatch(before, basesBefore) && baseBefore == Pixels(before)
    requires before + Block(w, h, octave, sublevels) <= all && Pixels(all) < 0x1_0000_0000
    ensures specs == before + Block(w, h, octave, sublevels)
    ensures BasesMatch(specs, bases) && pixelBase == Pixels(specs)
  {
    specs, bases, pixelBase := before, basesBefore, baseBefore;
    var sub := 0;
    while sub < sublevels
      invariant sub <= sublevels
      invariant specs == before + Block(w, h, octave, sub)
      invariant BasesMatch(specs, bases) && pixelBase == Pixels(specs)
    {
      assert specs <= before + Block(w, h, octave, sublevels);
      PrefixPixels(all, specs);
      var level := Level(w, h, octave, sub);
      BasesExtend(specs, bases, level);
      assert Block(w, h, octave, sub + 1) == Block(w, h, octave, sub) + [level];
      specs, bases := specs + [level], bases + [pixelBase];
      pixelBase := pixelBase + w * h;
      sub := sub + 1;
    }
  }

  /** One pass of the octave loop; octaves under 40 pixels add nothing. */
  method OneOctave(dw: nat, dh: nat, octave: nat, divisor: nat, c: Config,
                   before: seq<Level>, basesBefore: seq<nat>, baseBefore: nat, ghost all: seq<Level>)
    returns (specs: seq<Level>, bases: seq<nat>, pixelBase: nat)
    requires divisor == Pow2(octave) && BasesMatch(before, basesBefore) && baseBefore == Pixels(before)
    requires before + OctaveBlock(dw, dh, octave, c.numSublevels) <= all && Pixels(all) < 0x1_0000_0000
    ensures specs == before + OctaveBlock(dw, dh, octave, c.numSublevels)
    ensures BasesMatch(specs, bases) && pixelBase == Pixels(specs)
  {
    specs, bases, pixelBase := before, basesBefore, baseBefore;
    var w, h := Quotient(dw, divisor), Quotient(dh, divisor);
    var smallest := Min(w, h);
    if smallest >= 40 {
      var sublevels := if smallest < 80 then 1 else c.numSublevels;
      specs, bases, pixelBase := PushOctave(before, basesBefore, baseBefore, w, h, octave, sublevels, all);
    } else {
      assert before + OctaveBlock(dw, dh, octave, c.numSublevels) == before;
    }
  }

  /** `make_evolution_specs`, with the running pixel base the source stores in each level.
      An empty scale space is the source's invalid argument; its 32-bit checks never fire. */
  method MakeEvolutionSpecs(dw: nat, dh: nat, c: Config) returns (r: Option<(seq<Level>, seq<nat>)>)
    requires dw <= MAX_DIMENSION && dh <= MAX_DIMENSION && ValidConfig(c)
    ensures r.None? <==> Levels(dw, dh, c) == []
    ensures r.Some? ==> r.value.0 == Levels(dw, dh, c) && BasesMatch(r.value.0, r.value.1)
  {
    ghost var all := Levels(dw, dh, c);
    LevelsWithinLimits(dw, dh, 0, c.maxOctaves, c.numSublevels);
    var specs: seq<Level>, bases: seq<nat>, pixelBase := [], [], 0;
    var octave, divisor := 0, 1;
    while octave < c.maxOctaves
      invariant octave <= c.maxOctaves && divisor == Pow2(octave)
      invariant all == specs + LevelsFrom(dw, dh, octave, c.maxOctaves, c.numSublevels)
      invariant BasesMatch(specs, bases) && pixelBase == Pixels(specs)
    {
      OctaveSplits(all, specs, dw, dh, octave, c);
      specs, bases, pixelBase := OneOctave(dw, dh, octave, divisor, c, specs, bases, pixelBase, all);
      octave, divisor := octave + 1, divisor * 2;
    }
    if specs == [] { return None; }
    return Some((specs, bases));
  }

  lemma {:induction false} OctaveSplits(all: seq<Level>, specs: seq<Level>, dw: nat, dh: nat, octave: nat, c: Config)
    requires octave < c.maxOctaves
    requires all == specs + LevelsFrom(dw, dh, octave, c.maxOctaves, c.numSublevels)
    ensures all == specs + OctaveBlock(dw, dh, octave, c.numSublevels)
                   + LevelsFrom(dw, dh, octave + 1, c.maxOctaves, c.numSublevels)
  {
  }
}
