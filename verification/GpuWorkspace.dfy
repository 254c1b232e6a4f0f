/** The workspace accountant of the GPU AKAZE planner and the width search that relies on it
    (gpu_features.cpp).  The search is right only because the bound grows with the width; that is
    proved here across octave and sublevel thresholds and across the vanishing resize buffer. */
module GpuWorkspace {
  import opened Arithmetic
  import opened Results
  import opened GpuGeometry

  const SIZE_LIMIT: nat := 0x1_0000_0000_0000_0000
  const ROW_ALIGNMENT: nat := 256
  const SCAN_BLOCK: nat := 256
  const FIXED_BYTES: nat := 300 * 4 + 3 * 4
  const MARGIN_BYTES: nat := 64 * 1024 * 1024
  const POINT_BYTES: nat := 24
  const DESCRIPTOR_BYTES: nat := 64
  const CANDIDATE_BYTES: nat := 76
  const SELECTION_LEVEL_BYTES: nat := 16
  const LEVEL_VIEW_BYTES: nat := 64

  // ----- checked size arithmetic: None is std::overflow_error -------------------------------------

  function CheckedAdd(a: nat, b: nat): Option<nat> {
    if a + b < SIZE_LIMIT then Some(a + b) else None
  }

  function CheckedMultiply(a: nat, b: nat): Option<nat> {
    if a * b < SIZE_LIMIT then Some(a * b) else None
  }

  // ----- sizes ------------------------------------------------------------------------------------

  /** The least multiple of 256 bytes that holds a row of floats. */
  predicate HoldsRow(row: int, width: nat) { row % 256 == 0 && 4 * width <= row < 4 * width + 256 }

  function AlignedRow(width: nat): (row: nat)
    ensures HoldsRow(row, width)
  {
    var padded := 4 * width + ROW_ALIGNMENT - 1;
    RoundedDown(padded);
    padded - padded % ROW_ALIGNMENT
  }

  lemma {:induction false} RoundedDown(n: nat)
    ensures (n - n % 256) % 256 == 0
  {
    ModOfProduct(n / 256, 256);
    assert n - n % 256 == n / 256 * 256;
  }

  function AlignedBytes(width: nat, height: nat): nat { AlignedRow(width) * height }

  /** The bytes of an image: as many as `height` rows of the one multiple of 256 that just holds a row of floats. */
  lemma {:induction false} AlignedBytesExact(width: nat, height: nat, row: nat)
    requires row % 256 == 0 && 4 * width <= row < 4 * width + 256
    ensures AlignedBytes(width, height) == row * height
  {
    var aligned := AlignedRow(width);
    assert (row - aligned) % 256 == 0 && -256 < row - aligned < 256;
  }

  lemma {:induction false} AlignedBytesMonotone(w1: nat, h1: nat, w2: nat, h2: nat)
    requires w1 <= w2 && h1 <= h2
    ensures AlignedBytes(w1, h1) <= AlignedBytes(w2, h2)
  {
    ProductBound(AlignedRow(w1), AlignedRow(w2), h1, h2);
  }

  lemma {:induction false} AlignedBytesLimit(w: nat, h: nat)
    requires w <= MAX_DIMENSION && h <= MAX_DIMENSION
    ensures AlignedRow(w) <= 0x1_0000 && AlignedBytes(w, h) <= 0x2000_0000
  {
    ProductBound(AlignedRow(w), 0x1_0000, h, 0x2000);
  }

  function LevelBytes(l: Level): nat { AlignedBytes(l.width, l.height) }

  /** Rounded up: the fewest blocks of 256 that hold the count. */
  function Blocks(count: nat): (b: nat)
    ensures 256 * b >= count && (b > 0 ==> 256 * (b - 1) < count)
    ensures count > 0 ==> b > 0
    ensures count > 1 ==> b < count
  {
    count / SCAN_BLOCK + (if count % SCAN_BLOCK != 0 then 1 else 0)
  }

  /** Scratch kept by one recursive exclusive scan over `count` words. */
  function ScanScratch(count: nat): nat {
    if count == 0 then 0
    else if Blocks(count) == 1 then 4
    else 8 * Blocks(count) + ScanScratch(Blocks(count))
  }

  lemma {:induction false} ScanScratchMonotone(a: nat, b: nat)
    requires a <= b
    ensures ScanScratch(a) <= ScanScratch(b)
    decreases b
  {
    if a > 0 && Blocks(b) > 1 {
      assert Blocks(a) <= Blocks(b) < b;
      ScanScratchMonotone(Blocks(a), Blocks(b));
    }
  }

  lemma {:induction false} ScanScratchLimit(count: nat)
    ensures ScanScratch(count) <= 4 + 16 * count
  {
    if count > 0 && Blocks(count) > 1 {
      assert Blocks(count) <= count / 2 + 1;
      ScanScratchLimit(Blocks(count));
    }
  }

  /** `scan_scratch_bytes`: the source's loop, with the early break before the second addend. */
  method ScanScratchBytes(count: nat) returns (r: Option<nat>)
    requires count < 0x1_0000_0000
    ensures r == Some(ScanScratch(count))
  {
    ScanScratchLimit(count);
    var bytes: nat, left: nat := 0, count;
    while left != 0
      invariant bytes + ScanScratch(left) == ScanScratch(count)
      invariant left <= count
      decreases left
    {
      var blocks := Blocks(left);
      var blockBytes :- CheckedMultiply(blocks, 4);
      bytes :- CheckedAdd(bytes, blockBytes);
      if blocks == 1 { return Some(bytes); }
      bytes :- CheckedAdd(bytes, blockBytes);
      left := blocks;
    }
    return Some(bytes);
  }

  // ----- the bound --------------------------------------------------------------------------------

  /** Greatest transient while the levels are built: 8 images on the first, 12 on every later one,
      over the four images each earlier level retains. */
  function LevelPeak(ls: seq<Level>, first: bool, base: nat, retained: nat): nat {
    if ls == [] then 0
    else Max(FIXED_BYTES + base + retained + (if first then 8 else 12) * LevelBytes(ls[0]),
             LevelPeak(ls[1..], false, base, retained + 4 * LevelBytes(ls[0])))
  }

  function Retained(ls: seq<Level>): nat {
    if ls == [] then 0 else 4 * LevelBytes(ls[0]) + Retained(ls[1..])
  }

  function SelectionPeak(base: nat, retained: nat, pixels: nat, levels: nat, keypoints: nat): nat {
    FIXED_BYTES + base + retained + 8 * pixels + ScanScratch(pixels)
    + (POINT_BYTES + DESCRIPTOR_BYTES) * keypoints + 4
    + CANDIDATE_BYTES * pixels + SELECTION_LEVEL_BYTES * levels + 8 * pixels + 4 * pixels + 8
    + 24 * pixels + 32 * ScanScratch(pixels) + 8 * keypoints + LEVEL_VIEW_BYTES * levels
  }

  predicate Resized(g: Geometry) { g.cropWidth != g.detectWidth || g.cropHeight != g.detectHeight }

  function BaseBytes(g: Geometry): nat { AlignedBytes(g.detectWidth, g.detectHeight) }

  function ResizePeak(g: Geometry): nat {
    BaseBytes(g) + if Resized(g) then AlignedBytes(g.cropWidth, g.detectHeight) else 0
  }

  function Peak(g: Geometry, ls: seq<Level>, c: Config): nat {
    Max(Max(ResizePeak(g), LevelPeak(ls, true, BaseBytes(g), 0)),
        SelectionPeak(BaseBytes(g), Retained(ls), Pixels(ls), |ls|, c.maxKeypoints))
    + MARGIN_BYTES
  }

  // ----- what the bound amounts to ------------------------------------------------------------------

  function TotalBytes(ls: seq<Level>): nat { if ls == [] then 0 else LevelBytes(ls[0]) + TotalBytes(ls[1..]) }

  /** The bytes accounted while level `i` is built: the fixed buffers, the base, four images of every earlier
      level, and eight of the first or twelve of a later one. */
  function WhileBuilding(ls: seq<Level>, first: bool, base: nat, retained: nat, i: nat): nat
    requires i < |ls|
  {
    1212 + base + retained + 4 * TotalBytes(ls[..i]) + (if first && i == 0 then 8 else 12) * LevelBytes(ls[i])
  }

  lemma {:induction false} BuildingLater(ls: seq<Level>, first: bool, base: nat, retained: nat, i: nat)
    requires 1 <= i < |ls|
    ensures WhileBuilding(ls, first, base, retained, i)
         == WhileBuilding(ls[1..], false, base, retained + 4 * LevelBytes(ls[0]), i - 1)
  {
    hide LevelBytes;
    assert ls[..i][1..] == ls[1..][..i - 1];
    assert TotalBytes(ls[..i]) == LevelBytes(ls[0]) + TotalBytes(ls[1..][..i - 1]);
  }

  lemma {:induction false} BuildingFirst(ls: seq<Level>, first: bool, base: nat, retained: nat)
    requires ls != []
    ensures WhileBuilding(ls, first, base, retained, 0)
         == FIXED_BYTES + base + retained + (if first then 8 else 12) * LevelBytes(ls[0])
  {
    hide LevelBytes;
  }

  /** The level bound is the worst of these moments and nothing more. */
  lemma {:induction false} LevelPeakIsWorst(ls: seq<Level>, first: bool, base: nat, retained: nat)
    requires ls != []
    ensures forall i :: 0 <= i < |ls| ==>
      WhileBuilding(ls, first, base, retained, i) <= LevelPeak(ls, first, base, retained)
    ensures exists i :: 0 <= i < |ls| && WhileBuilding(ls, first, base, retained, i) == LevelPeak(ls, first, base, retained)
  {
    hide LevelBytes, WhileBuilding;
    var rest, kept := ls[1..], retained + 4 * LevelBytes(ls[0]);
    BuildingFirst(ls, first, base, retained);
    if rest != [] {
      LevelPeakIsWorst(rest, false, base, kept);
      forall i | 1 <= i < |ls|
        ensures WhileBuilding(ls, first, base, retained, i) == WhileBuilding(rest, false, base, kept, i - 1)
      {
        BuildingLater(ls, first, base, retained, i);
      }
      var k :| 0 <= k < |rest| && WhileBuilding(rest, false, base, kept, k) == LevelPeak(rest, false, base, kept);
      assert WhileBuilding(ls, first, base, retained, k + 1) == LevelPeak(rest, false, base, kept);
    }
  }

  lemma {:induction false} RetainedIsFour(ls: seq<Level>)
    ensures Retained(ls) == 4 * TotalBytes(ls)
  {
    if ls != [] {
      RetainedIsFour(ls[1..]);
    }
  }

  /** The accounted peak in plain numbers: the worst of the resize, of building any level and of the selection,
      and a margin of 64 MiB. */
  lemma {:induction false} PeakInNumbers(g: Geometry, ls: seq<Level>, c: Config)
    requires ls != []
    ensures var base := BaseBytes(g);
      var resize := base + if Resized(g) then AlignedBytes(g.cropWidth, g.detectHeight) else 0;
      var selection := 1224 + base + 4 * TotalBytes(ls) + 120 * Pixels(ls) + 33 * ScanScratch(Pixels(ls))
                       + 96 * c.maxKeypoints + 80 * |ls|;
      && (forall i :: 0 <= i < |ls| ==> WhileBuilding(ls, true, base, 0, i) + 67108864 <= Peak(g, ls, c))
      && resize + 67108864 <= Peak(g, ls, c) && selection + 67108864 <= Peak(g, ls, c)
      && (|| Peak(g, ls, c) == resize + 67108864 || Peak(g, ls, c) == selection + 67108864
          || exists i :: 0 <= i < |ls| && Peak(g, ls, c) == WhileBuilding(ls, true, base, 0, i) + 67108864)
  {
    LevelPeakIsWorst(ls, true, BaseBytes(g), 0);
    RetainedIsFour(ls);
    hide WhileBuilding, LevelPeak, Retained, TotalBytes, ScanScratch, Pixels, AlignedBytes;
  }

  ghost predicate Sized(g: Geometry) {
    && 0 < g.detectWidth <= g.cropWidth <= MAX_DIMENSION
    && 0 < g.detectHeight <= g.cropHeight <= MAX_DIMENSION
  }

  lemma {:induction false} LevelPeakLimit(ls: seq<Level>, first: bool, base: nat, retained: nat)
    requires forall l :: l in ls ==> l.width <= MAX_DIMENSION && l.height <= MAX_DIMENSION
    ensures LevelPeak(ls, first, base, retained)
         <= FIXED_BYTES + base + retained + 0x8000_0000 * |ls| + 0x2_0000_0000
    ensures Retained(ls) <= 0x8000_0000 * |ls|
  {
    if ls != [] {
      AlignedBytesLimit(ls[0].width, ls[0].height);
      LevelPeakLimit(ls[1..], false, base, retained + 4 * LevelBytes(ls[0]));
    }
  }

  lemma {:induction false} PeakLimit(g: Geometry, c: Config)
    requires Sized(g) && ValidConfig(c)
    ensures var ls := Levels(g.detectWidth, g.detectHeight, c);
      && |ls| <= 64 && Pixels(ls) < 0x1_0000_0000
      && (forall l :: l in ls ==> l.width <= MAX_DIMENSION && l.height <= MAX_DIMENSION)
      && Retained(ls) < 0x100_0000_0000
      && Peak(g, ls, c) < 0x10_0000_0000_0000
  {
    var ls := Levels(g.detectWidth, g.detectHeight, c);
    LevelsWithinLimits(g.detectWidth, g.detectHeight, 0, c.maxOctaves, c.numSublevels);
    LevelShapes(g.detectWidth, g.detectHeight, 0, c.maxOctaves, c.numSublevels);
    AlignedBytesLimit(g.detectWidth, g.detectHeight);
    AlignedBytesLimit(g.cropWidth, g.detectHeight);
    LevelPeakLimit(ls, true, BaseBytes(g), 0);
    ScanScratchLimit(Pixels(ls));
  }

  /** `aligned_float_image_bytes`: rows rounded up, then as many as the image is high. */
  method AlignedFloatImageBytes(width: nat, height: nat) returns (r: Option<nat>)
    requires width <= MAX_DIMENSION && height <= MAX_DIMENSION
    ensures r == Some(AlignedBytes(width, height))
  {
    AlignedBytesLimit(width, height);
    var row :- CheckedMultiply(width, 4);
    var padded :- CheckedAdd(row, ROW_ALIGNMENT - 1);
    r := CheckedMultiply(padded - padded % ROW_ALIGNMENT, height);
  }

  /** One level's addends in `peak_workspace_bytes`. */
  method LevelMoment(base: nat, retained: nat, levelBytes: nat, first: bool) returns (r: Option<nat>)
    requires base < 0x1_0000_0000 && retained <= 0x20_0000_0000 && levelBytes <= 0x2000_0000
    ensures r == Some(FIXED_BYTES + base + retained + (if first then 8 else 12) * levelBytes)
  {
    var levelPeak :- CheckedAdd(FIXED_BYTES, base);
    levelPeak :- CheckedAdd(levelPeak, retained);
    var transient :- CheckedMultiply(levelBytes, if first then 8 else 12);
    r := CheckedAdd(levelPeak, transient);
  }

  /** The level loop of `peak_workspace_bytes`. */
  method LevelLoop(ls: seq<Level>, base: nat, start: nat) returns (r: Option<(nat, nat)>)
    requires |ls| <= 64 && base < 0x1_0000_0000 && start < 0x1_0000_0000_0000
    requires forall l :: l in ls ==> l.width <= MAX_DIMENSION && l.height <= MAX_DIMENSION
    ensures r == Some((Max(start, LevelPeak(ls, true, base, 0)), Retained(ls)))
  {
    hide AlignedBytes, LevelPeak, Retained, LevelBytes;
    LevelPeakLimit(ls, true, base, 0);
    assert ls[0..] == ls;
    var peak: nat, retained: nat, index: nat := start, 0, 0;
    while index < |ls|
      invariant 0 <= index <= |ls|
      invariant retained + Retained(ls[index..]) == Retained(ls)
      invariant Max(peak, LevelPeak(ls[index..], index == 0, base, retained))
             == Max(start, LevelPeak(ls, true, base, 0))
    {
      AlignedBytesLimit(ls[index].width, ls[index].height);
      OneLevel(ls, index, base, retained);
      var levelBytes :- AlignedFloatImageBytes(ls[index].width, ls[index].height);
      var levelPeak :- LevelMoment(base, retained, levelBytes, index == 0);
      peak := Max(peak, levelPeak);
      var kept :- CheckedMultiply(levelBytes, 4);
      retained :- CheckedAdd(retained, kept);
      index := index + 1;
    }
    NoMoreLevels(base, retained);
    assert ls[|ls|..] == [];
    return Some((peak, retained));
  }

  lemma {:induction false} OneLevel(ls: seq<Level>, index: nat, base: nat, retained: nat)
    requires index < |ls|
    ensures var bytes := AlignedBytes(ls[index].width, ls[index].height);
      && Retained(ls[index..]) == 4 * bytes + Retained(ls[index + 1..])
      && forall first :: LevelPeak(ls[index..], first, base, retained)
           == Max(FIXED_BYTES + base + retained + (if first then 8 else 12) * bytes,
                  LevelPeak(ls[index + 1..], false, base, retained + 4 * bytes))
  {
    assert ls[index..][0] == ls[index] && ls[index..][1..] == ls[index + 1..];
  }

  lemma {:induction false} NoMoreLevels(base: nat, retained: nat)
    ensures Retained([]) == 0 && forall first :: LevelPeak([], first, base, retained) == 0
  {
  }

  /** The addends of `selection_peak` up to the candidates, in the source's order. */
  method DetectorSum(base: nat, retained: nat, pixels: nat, scan: nat, keypoints: nat) returns (r: Option<nat>)
    requires base < 0x1_0000_0000 && retained < 0x100_0000_0000 && pixels < 0x1_0000_0000
    requires scan < 0x100_0000_0000 && keypoints <= MAX_FEATURES
    ensures r == Some(FIXED_BYTES + base + retained + 8 * pixels + scan
                      + (POINT_BYTES + DESCRIPTOR_BYTES) * keypoints + 4 + CANDIDATE_BYTES * pixels)
  {
    var sum :- CheckedAdd(FIXED_BYTES, base);
    sum :- CheckedAdd(sum, retained);
    var flags :- CheckedMultiply(pixels, 8);
    sum :- CheckedAdd(sum, flags);
    sum :- CheckedAdd(sum, scan);
    var output :- CheckedMultiply(keypoints, POINT_BYTES + DESCRIPTOR_BYTES);
    sum :- CheckedAdd(sum, output);
    sum :- CheckedAdd(sum, 4);
    var candidates :- CheckedMultiply(pixels, CANDIDATE_BYTES);
    r := CheckedAdd(sum, candidates);
  }

  /** The remaining addends of `selection_peak`. */
  method SelectionSum(start: nat, pixels: nat, scan: nat, levels: nat, keypoints: nat) returns (r: Option<nat>)
    requires start < 0x1000_0000_0000 && pixels < 0x1_0000_0000 && scan < 0x100_0000_0000
    requires levels <= 64 && keypoints <= MAX_FEATURES
    ensures r == Some(start + SELECTION_LEVEL_BYTES * levels + 8 * pixels + 4 * pixels + 8
                      + 24 * pixels + 32 * scan + 8 * keypoints + LEVEL_VIEW_BYTES * levels)
  {
    var selectionLevels :- CheckedMultiply(levels, SELECTION_LEVEL_BYTES);
    var sum :- CheckedAdd(start, selectionLevels);
    var selection :- CheckedMultiply(pixels, 8);
    sum :- CheckedAdd(sum, selection);
    var cells :- CheckedMultiply(pixels, 4);
    sum :- CheckedAdd(sum, cells);
    sum :- CheckedAdd(sum, 8);
    var radix :- CheckedMultiply(pixels, 24);
    sum :- CheckedAdd(sum, radix);
    var radixScan :- CheckedMultiply(scan, 32);
    sum :- CheckedAdd(sum, radixScan);
    var positions :- CheckedMultiply(keypoints, 8);
    sum :- CheckedAdd(sum, positions);
    var views :- CheckedMultiply(levels, LEVEL_VIEW_BYTES);
    r := CheckedAdd(sum, views);
  }

  /** `peak_workspace_bytes`: the running totals reach `Peak`, and no addition overflows. */
  method PeakWorkspaceBytes(g: Geometry, ls: seq<Level>, c: Config) returns (r: Option<nat>)
    requires Sized(g) && ValidConfig(c) && ls == Levels(g.detectWidth, g.detectHeight, c)
    ensures r == Some(Peak(g, ls, c))
  {
    hide AlignedBytes, LevelPeak, Levels, Retained, Pixels, ScanScratch;
    PeakLimit(g, c);
    AlignedBytesLimit(g.detectWidth, g.detectHeight);
    AlignedBytesLimit(g.cropWidth, g.detectHeight);
    var base :- AlignedFloatImageBytes(g.detectWidth, g.detectHeight);
    var peak := base;
    if Resized(g) {
      var resize :- AlignedFloatImageBytes(g.cropWidth, g.detectHeight);
      peak :- CheckedAdd(base, resize);
    }
    assert peak == ResizePeak(g);
    var levels :- LevelLoop(ls, base, peak);
    var pixels := SumPixels(ls);
    ScanScratchLimit(pixels);
    var scan :- ScanScratchBytes(pixels);
    var detector :- DetectorSum(base, levels.1, pixels, scan, c.maxKeypoints);
    var selection :- SelectionSum(detector, pixels, scan, |ls|, c.maxKeypoints);
    r := CheckedAdd(Max(levels.0, selection), MARGIN_BYTES);
  }

  /** `total_scale_space_pixels`: the last pixel base plus the last level's area. */
  method SumPixels(ls: seq<Level>) returns (n: nat)
    ensures n == Pixels(ls)
  {
    n := 0;
    for i := 0 to |ls|
      invariant n == Pixels(ls[..i])
    {
      PixelsConcat(ls[..i], [ls[i]]);
      assert ls[..i + 1] == ls[..i] + [ls[i]];
      n := n + ls[i].width * ls[i].height;
    }
    assert ls[..|ls|] == ls;
  }

  // ----- monotonicity in the detection width --------------------------------------------------------

  predicate Fits(a: Level, b: Level) { a.width <= b.width && a.height <= b.height }

  /** `a` arises from `b` by dropping levels and shrinking the others, in order. */
  ghost predicate Embeds(a: seq<Level>, b: seq<Level>)
    decreases |b|
  {
    || a == []
    || (b != [] && a != [] && Fits(a[0], b[0]) && Embeds(a[1..], b[1..]))
    || (b != [] && Embeds(a, b[1..]))
  }

  lemma {:induction false} EmbedsConcat(a1: seq<Level>, b1: seq<Level>, a2: seq<Level>, b2: seq<Level>)
    requires Embeds(a1, b1) && Embeds(a2, b2)
    ensures Embeds(a1 + a2, b1 + b2)
    decreases |b1|
  {
    if b1 == [] {
      assert a1 + a2 == a2 && b1 + b2 == b2;
    } else if a1 != [] && Fits(a1[0], b1[0]) && Embeds(a1[1..], b1[1..]) {
      EmbedsConcat(a1[1..], b1[1..], a2, b2);
      assert (a1 + a2)[1..] == a1[1..] + a2 && (b1 + b2)[1..] == b1[1..] + b2;
    } else {
      EmbedsConcat(a1, b1[1..], a2, b2);
      assert (b1 + b2)[1..] == b1[1..] + b2;
    }
  }

  lemma {:induction false} BlocksEmbed(w1: nat, h1: nat, n1: nat, w2: nat, h2: nat, n2: nat, octave: nat)
    requires w1 <= w2 && h1 <= h2 && n1 <= n2
    ensures Embeds(Block(w1, h1, octave, n1), Block(w2, h2, octave, n2))
  {
    if n1 > 0 {
      BlocksEmbed(w1, h1, n1 - 1, w2, h2, n2 - 1, octave);
      var l1, l2 := Level(w1, h1, octave, n1 - 1), Level(w2, h2, octave, n2 - 1);
      assert Embeds([l1][1..], [l2][1..]);
      EmbedsConcat(Block(w1, h1, octave, n1 - 1), Block(w2, h2, octave, n2 - 1), [l1], [l2]);
      assert Block(w1, h1, octave, n1) == Block(w1, h1, octave, n1 - 1) + [l1];
      assert Block(w2, h2, octave, n2) == Block(w2, h2, octave, n2 - 1) + [l2];
    }
  }

  lemma {:induction false} LevelsEmbed(w1: nat, h1: nat, w2: nat, h2: nat, octave: nat, maxOctaves: nat, n: nat)
    requires w1 <= w2 && h1 <= h2 && n >= 1
    ensures Embeds(LevelsFrom(w1, h1, octave, maxOctaves, n), LevelsFrom(w2, h2, octave, maxOctaves, n))
    decreases maxOctaves - octave
  {
    if octave < maxOctaves {
      var d := Pow2(octave);
      QuotientMonotone(w1, w2, d);
      QuotientMonotone(h1, h2, d);
      var a, b := Quotient(w1, d), Quotient(h1, d);
      var a', b' := Quotient(w2, d), Quotient(h2, d);
      BlocksEmbed(a, b, Sublevels(a, b, n), a', b', Sublevels(a', b', n), octave);
      LevelsEmbed(w1, h1, w2, h2, octave + 1, maxOctaves, n);
      EmbedsConcat(OctaveBlock(w1, h1, octave, n), OctaveBlock(w2, h2, octave, n),
                   LevelsFrom(w1, h1, octave + 1, maxOctaves, n), LevelsFrom(w2, h2, octave + 1, maxOctaves, n));
    }
  }

  /** The levels after the first embed as well, so the cheaper factor 8 stays on matching levels. */
  lemma {:induction false} TailsEmbed(w1: nat, h1: nat, w2: nat, h2: nat, c: Config)
    requires w1 <= w2 && h1 <= h2 && ValidConfig(c)
    requires 40 <= w1 && 40 <= h1
    ensures var a, b := Levels(w1, h1, c), Levels(w2, h2, c);
      && a != [] && b != []
      && a[0] == Level(w1, h1, 0, 0) && b[0] == Level(w2, h2, 0, 0)
      && Embeds(a, b) && Embeds(a[1..], b[1..])
  {
    var a, b := Levels(w1, h1, c), Levels(w2, h2, c);
    LevelsEmbed(w1, h1, w2, h2, 0, c.maxOctaves, c.numSublevels);
    var n1, n2 := Sublevels(w1, h1, c.numSublevels), Sublevels(w2, h2, c.numSublevels);
    FirstBlock(w1, h1, c);
    FirstBlock(w2, h2, c);
    LevelsEmbed(w1, h1, w2, h2, 1, c.maxOctaves, c.numSublevels);
    TailBlockEmbeds(w1, h1, n1, w2, h2, n2);
    EmbedsConcat(Block(w1, h1, 0, n1)[1..], Block(w2, h2, 0, n2)[1..],
                 LevelsFrom(w1, h1, 1, c.maxOctaves, c.numSublevels),
                 LevelsFrom(w2, h2, 1, c.maxOctaves, c.numSublevels));
  }

  lemma {:induction false} FirstBlock(w: nat, h: nat, c: Config)
    requires ValidConfig(c) && 40 <= w && 40 <= h
    ensures var n := Sublevels(w, h, c.numSublevels);
      && n >= 1
      && Levels(w, h, c) == Block(w, h, 0, n) + LevelsFrom(w, h, 1, c.maxOctaves, c.numSublevels)
      && Levels(w, h, c)[1..] == Block(w, h, 0, n)[1..] + LevelsFrom(w, h, 1, c.maxOctaves, c.numSublevels)
      && Levels(w, h, c)[0] == Level(w, h, 0, 0)
  {
    assert Pow2(0) == 1 && Quotient(w, 1) == w && Quotient(h, 1) == h;
  }

  lemma {:induction false} TailBlockEmbeds(w1: nat, h1: nat, n1: nat, w2: nat, h2: nat, n2: nat)
    requires w1 <= w2 && h1 <= h2 && 1 <= n1 <= n2
    ensures Embeds(Block(w1, h1, 0, n1)[1..], Block(w2, h2, 0, n2)[1..])
  {
    RepeatEmbeds(Block(w1, h1, 0, n1)[1..], Block(w2, h2, 0, n2)[1..]);
  }

  lemma {:induction false} RepeatEmbeds(a: seq<Level>, b: seq<Level>)
    requires |a| <= |b| && forall i :: 0 <= i < |a| ==> Fits(a[i], b[i])
    ensures Embeds(a, b)
  {
    if a != [] {
      RepeatEmbeds(a[1..], b[1..]);
    }
  }

  /** A larger level takes at least as many bytes and pixels. */
  lemma {:induction false} FitsTakesLess(a: Level, b: Level)
    requires Fits(a, b)
    ensures LevelBytes(a) <= LevelBytes(b) && LevelPixels(a) <= LevelPixels(b)
  {
    AlignedBytesMonotone(a.width, a.height, b.width, b.height);
    ProductBound(a.width, b.width, a.height, b.height);
  }

  lemma {:induction false} EmbeddedSums(a: seq<Level>, b: seq<Level>)
    requires Embeds(a, b)
    ensures |a| <= |b| && Retained(a) <= Retained(b) && Pixels(a) <= Pixels(b)
    decreases |b|
  {
    hide LevelBytes, LevelPixels;
    if a != [] {
      if Fits(a[0], b[0]) && Embeds(a[1..], b[1..]) {
        EmbeddedSums(a[1..], b[1..]);
        FitsTakesLess(a[0], b[0]);
      } else {
        EmbeddedSums(a, b[1..]);
      }
    }
  }

  lemma {:induction false} EmbeddedPeak(a: seq<Level>, b: seq<Level>, base1: nat, base2: nat, kept1: nat, kept2: nat)
    requires Embeds(a, b) && base1 <= base2 && kept1 <= kept2
    ensures LevelPeak(a, false, base1, kept1) <= LevelPeak(b, false, base2, kept2)
    decreases |b|
  {
    if a != [] {
      if Fits(a[0], b[0]) && Embeds(a[1..], b[1..]) {
        AlignedBytesMonotone(a[0].width, a[0].height, b[0].width, b[0].height);
        EmbeddedPeak(a[1..], b[1..], base1, base2, kept1 + 4 * LevelBytes(a[0]), kept2 + 4 * LevelBytes(b[0]));
      } else {
        EmbeddedPeak(a, b[1..], base1, base2, kept1, kept2 + 4 * LevelBytes(b[0]));
      }
    }
  }

  /** `Levels` is empty exactly when the detector image is under 40 pixels in one direction. */
  lemma {:induction false} UsableScaleSpace(w: nat, h: nat, c: Config)
    requires ValidConfig(c)
    ensures Levels(w, h, c) == [] <==> w < 40 || h < 40
  {
    if w < 40 || h < 40 {
      NoLevels(w, h, 0, c.maxOctaves, c.numSublevels);
    } else {
      FirstBlock(w, h, c);
    }
  }

  lemma {:induction false} NoLevels(w: nat, h: nat, octave: nat, maxOctaves: nat, n: nat)
    requires w < 40 || h < 40
    ensures LevelsFrom(w, h, octave, maxOctaves, n) == []
    decreases maxOctaves - octave
  {
    if octave < maxOctaves {
      NoLevels(w, h, octave + 1, maxOctaves, n);
    }
  }

  /** Bytes needed when the detection width is limited to `width`; None if no scale space forms. */
  function Workspace(fl: Rounding, frameWidth: nat, frameHeight: nat, c: Config, width: nat): Option<nat>
    requires IsRounding(fl) && ValidFrame(frameWidth, frameHeight) && ValidConfig(c)
    requires 0 < width < 0x1_0000_0000
  {
    var candidate := c.(maxDetectionWidth := width);
    var g :- DetectionGeometry(fl, frameWidth, frameHeight, candidate);
    var ls := Levels(g.detectWidth, g.detectHeight, candidate);
    if ls == [] then None else Some(Peak(g, ls, candidate))
  }

  lemma {:induction false} PeakMonotone(g1: Geometry, g2: Geometry, c1: Config, c2: Config)
    requires Sized(g1) && Sized(g2) && ValidConfig(c1) && ValidConfig(c2)
    requires c1 == c2.(maxDetectionWidth := c1.maxDetectionWidth)
    requires g1.cropWidth == g2.cropWidth && g1.cropHeight == g2.cropHeight
    requires g1.detectWidth <= g2.detectWidth && g1.detectHeight <= g2.detectHeight
    requires 40 <= g1.detectWidth && 40 <= g1.detectHeight
    ensures Peak(g1, Levels(g1.detectWidth, g1.detectHeight, c1), c1)
         <= Peak(g2, Levels(g2.detectWidth, g2.detectHeight, c2), c2)
  {
    var a, b := Levels(g1.detectWidth, g1.detectHeight, c1), Levels(g2.detectWidth, g2.detectHeight, c2);
    TailsEmbed(g1.detectWidth, g1.detectHeight, g2.detectWidth, g2.detectHeight, c2);
    AlignedBytesMonotone(g1.detectWidth, g1.detectHeight, g2.detectWidth, g2.detectHeight);
    EmbeddedSums(a, b);
    SelectionMonotone(BaseBytes(g1), Retained(a), Pixels(a), |a|, BaseBytes(g2), Retained(b), Pixels(b), |b|,
                      c1.maxKeypoints);
    EmbeddedPeak(a[1..], b[1..], BaseBytes(g1), BaseBytes(g2), 4 * LevelBytes(a[0]), 4 * LevelBytes(b[0]));
    ResizeBelowLevels(g1, g2, b);
  }

  lemma {:induction false} SelectionMonotone(base1: nat, kept1: nat, pixels1: nat, levels1: nat,
                          base2: nat, kept2: nat, pixels2: nat, levels2: nat, keypoints: nat)
    requires base1 <= base2 && kept1 <= kept2 && pixels1 <= pixels2 && levels1 <= levels2
    ensures SelectionPeak(base1, kept1, pixels1, levels1, keypoints)
         <= SelectionPeak(base2, kept2, pixels2, levels2, keypoints)
  {
    ScanScratchMonotone(pixels1, pixels2);
  }

  /** When the larger width no longer resizes, its first level alone outweighs the lost buffer. */
  lemma {:induction false} ResizeBelowLevels(g1: Geometry, g2: Geometry, b: seq<Level>)
    requires Sized(g1) && Sized(g2)
    requires g1.cropWidth == g2.cropWidth && g1.cropHeight == g2.cropHeight
    requires g1.detectWidth <= g2.detectWidth && g1.detectHeight <= g2.detectHeight
    requires b != [] && b[0] == Level(g2.detectWidth, g2.detectHeight, 0, 0)
    ensures ResizePeak(g1) <= Max(ResizePeak(g2), LevelPeak(b, true, BaseBytes(g2), 0))
  {
    AlignedBytesMonotone(g1.detectWidth, g1.detectHeight, g2.detectWidth, g2.detectHeight);
    AlignedBytesMonotone(g1.cropWidth, g1.detectHeight, g2.cropWidth, g2.detectHeight);
  }

  /** The property both binary searches rely on: usable widths are upward closed, and the bytes
      needed never shrink as the width grows. */
  lemma {:induction false} WorkspaceMonotone(fl: Rounding, frameWidth: nat, frameHeight: nat, c: Config, w1: nat, w2: nat)
    requires IsRounding(fl) && ValidFrame(frameWidth, frameHeight) && ValidConfig(c)
    requires 0 < w1 <= w2 < 0x1_0000_0000
    requires Workspace(fl, frameWidth, frameHeight, c, w1).Some?
    ensures Workspace(fl, frameWidth, frameHeight, c, w2).Some?
    ensures Workspace(fl, frameWidth, frameHeight, c, w1).value
         <= Workspace(fl, frameWidth, frameHeight, c, w2).value
  {
    var c1, c2 := c.(maxDetectionWidth := w1), c.(maxDetectionWidth := w2);
    GeometryMonotone(fl, frameWidth, frameHeight, c1, c2);
    var g1 := DetectionGeometry(fl, frameWidth, frameHeight, c1).value;
    UsableScaleSpace(g1.detectWidth, g1.detectHeight, c1);
    var g2 := DetectionGeometry(fl, frameWidth, frameHeight, c2).value;
    UsableScaleSpace(g2.detectWidth, g2.detectHeight, c2);
    PeakMonotone(g1, g2, c1, c2);
  }

  // ----- the width search ---------------------------------------------------------------------------

  /** The loops behind the lambda of `fit_gpu_akaze_workspace` compute `Workspace`. */
  method CandidateWorkspace(fl: Rounding, frameWidth: nat, frameHeight: nat, c: Config, width: nat)
    returns (r: Option<nat>)
    requires IsRounding(fl) && ValidFrame(frameWidth, frameHeight) && ValidConfig(c)
    requires 0 < width < 0x1_0000_0000
    ensures r == Workspace(fl, frameWidth, frameHeight, c, width)
  {
    var candidate := c.(maxDetectionWidth := width);
    var g :- DetectionGeometry(fl, frameWidth, frameHeight, candidate);
    var specs :- MakeEvolutionSpecs(g.detectWidth, g.detectHeight, candidate);
    r := PeakWorkspaceBytes(g, specs.0, candidate);
  }

  type WidthCost = nat -> Option<nat>

  /** What the lambda `workspace` answers, for all widths. */
  ghost function WorkspaceOf(fl: Rounding, frameWidth: nat, frameHeight: nat, c: Config): (f: WidthCost)
    requires IsRounding(fl) && ValidFrame(frameWidth, frameHeight) && ValidConfig(c)
    ensures forall w: nat :: f(w) == if 0 < w < 0x1_0000_0000 then Workspace(fl, frameWidth, frameHeight, c, w) else None
  {
    (w: nat) => if 0 < w < 0x1_0000_0000 then Workspace(fl, frameWidth, frameHeight, c, w) else None
  }

  /** Usable widths are upward closed and their bytes never shrink. */
  ghost predicate Monotone(workspace: WidthCost, limit: nat) {
    forall a, b :: 0 < a <= b <= limit && workspace(a).Some? ==>
      workspace(b).Some? && workspace(a).value <= workspace(b).value
  }

  lemma {:induction false} WorkspaceOfMonotone(fl: Rounding, frameWidth: nat, frameHeight: nat, c: Config)
    requires IsRounding(fl) && ValidFrame(frameWidth, frameHeight) && ValidConfig(c)
    ensures Monotone(WorkspaceOf(fl, frameWidth, frameHeight, c), c.maxDetectionWidth)
  {
    var f := WorkspaceOf(fl, frameWidth, frameHeight, c);
    forall a, b | 0 < a <= b <= c.maxDetectionWidth && f(a).Some?
      ensures f(b).Some? && f(a).value <= f(b).value
    {
      WorkspaceMonotone(fl, frameWidth, frameHeight, c, a, b);
    }
  }

  predicate WithinBudget(bytes: Option<nat>, limit: nat) { bytes.Some? && bytes.value <= limit }

  ghost predicate WidthFits(workspace: WidthCost, limit: nat, width: nat) { WithinBudget(workspace(width), limit) }

  datatype FitError = InvalidArgument

  /** The first search: the lowest width that forms a scale space. */
  method LowestUsableWidth(fl: Rounding, frameWidth: nat, frameHeight: nat, c: Config, ghost workspace: WidthCost)
    returns (low: nat)
    requires IsRounding(fl) && ValidFrame(frameWidth, frameHeight) && ValidConfig(c)
    requires workspace == WorkspaceOf(fl, frameWidth, frameHeight, c) && workspace(c.maxDetectionWidth).Some?
    ensures 0 < low <= c.maxDetectionWidth && workspace(low).Some?
    ensures forall w :: 0 < w < low ==> workspace(w).None?
  {
    WorkspaceOfMonotone(fl, frameWidth, frameHeight, c);
    hide Workspace, ValidFrame, IsRounding;
    var high: nat;
    low, high := 1, c.maxDetectionWidth;
    while low < high
      invariant 1 <= low <= high <= c.maxDetectionWidth
      invariant workspace(high).Some?
      invariant forall w :: 0 < w < low ==> workspace(w).None?
    {
      var middle := low + (high - low) / 2;
      var bytes := CandidateWorkspace(fl, frameWidth, frameHeight, c, middle);
      if bytes.Some? {
        high := middle;
      } else {
        low := middle + 1;
      }
    }
  }

  /** The second search: the greatest width within the limit, from one that is known to fit. */
  method GreatestFittingWidth(fl: Rounding, frameWidth: nat, frameHeight: nat, c: Config, limit: nat, start: nat,
                              ghost workspace: WidthCost)
    returns (low: nat)
    requires IsRounding(fl) && ValidFrame(frameWidth, frameHeight) && ValidConfig(c)
    requires workspace == WorkspaceOf(fl, frameWidth, frameHeight, c)
    requires 0 < start <= c.maxDetectionWidth && WidthFits(workspace, limit, start)
    ensures start <= low <= c.maxDetectionWidth && WidthFits(workspace, limit, low)
    ensures forall w :: low < w <= c.maxDetectionWidth ==> !WidthFits(workspace, limit, w)
  {
    WorkspaceOfMonotone(fl, frameWidth, frameHeight, c);
    hide Workspace, ValidFrame, IsRounding;
    var high: nat;
    low, high := start, c.maxDetectionWidth;
    while low < high
      invariant start <= low <= high <= c.maxDetectionWidth
      invariant WidthFits(workspace, limit, low)
      invariant forall w :: high < w <= c.maxDetectionWidth ==> !WidthFits(workspace, limit, w)
    {
      var middle := low + (high - low) / 2 + 1;
      var required := CandidateWorkspace(fl, frameWidth, frameHeight, c, middle);
      if WithinBudget(required, limit) {
        low := middle;
      } else {
        high := middle - 1;
      }
    }
  }

  /** Both searches of `fit_gpu_akaze_workspace`. */
  method SearchWidth(fl: Rounding, frameWidth: nat, frameHeight: nat, c: Config, limit: nat, ghost workspace: WidthCost)
    returns (r: Result<nat, FitError>)
    requires IsRounding(fl) && ValidFrame(frameWidth, frameHeight) && ValidConfig(c)
    requires workspace == WorkspaceOf(fl, frameWidth, frameHeight, c)
    ensures r.Failure? <==>
      || workspace(c.maxDetectionWidth).None?
      || forall w :: 0 < w <= c.maxDetectionWidth ==> workspace(w).None? || workspace(w).value > limit
    ensures r.Success? ==>
      && 0 < r.value <= c.maxDetectionWidth && workspace(r.value).Some? && workspace(r.value).value <= limit
      && forall w :: r.value < w <= c.maxDetectionWidth ==> workspace(w).None? || workspace(w).value > limit
  {
    WorkspaceOfMonotone(fl, frameWidth, frameHeight, c);
    hide Workspace, ValidFrame, IsRounding;
    var configured := CandidateWorkspace(fl, frameWidth, frameHeight, c, c.maxDetectionWidth);
    if configured.None? {
      return Failure(InvalidArgument);
    }
    var low := LowestUsableWidth(fl, frameWidth, frameHeight, c, workspace);
    var minimum := CandidateWorkspace(fl, frameWidth, frameHeight, c, low);
    if !WithinBudget(minimum, limit) {
      return Failure(InvalidArgument);
    }
    low := GreatestFittingWidth(fl, frameWidth, frameHeight, c, limit, low, workspace);
    forall w | low < w <= c.maxDetectionWidth ensures workspace(w).None? || workspace(w).value > limit {
      assert !WidthFits(workspace, limit, w);
    }
    return Success(low);
  }

  /** `fit_gpu_akaze_workspace`: only the width changes, to the greatest one up to the configured
      width that fits; it refuses exactly an invalid input, an unusable configured width, or a limit
      that no width meets. */
  method FitWorkspace(fl: Rounding, frameWidth: nat, frameHeight: nat, c: Config, limit: nat)
    returns (r: Result<Config, FitError>)
    requires IsRounding(fl)
    ensures r.Failure? <==>
      || !ValidFrame(frameWidth, frameHeight) || !ValidConfig(c) || limit == 0
      || var f := WorkspaceOf(fl, frameWidth, frameHeight, c);
         || f(c.maxDetectionWidth).None?
         || forall w :: 0 < w <= c.maxDetectionWidth ==> f(w).None? || f(w).value > limit
    ensures r.Success? ==>
      var f := WorkspaceOf(fl, frameWidth, frameHeight, c);
      var best := r.value.maxDetectionWidth;
      && r.value == c.(maxDetectionWidth := best)
      && 0 < best <= c.maxDetectionWidth && f(best).Some? && f(best).value <= limit
      && forall w :: best < w <= c.maxDetectionWidth ==> f(w).None? || f(w).value > limit
  {
    if !ValidFrame(frameWidth, frameHeight) || !ValidConfig(c) || limit == 0 {
      return Failure(InvalidArgument);
    }
    hide Workspace, WorkspaceOf, IsRounding, ValidFrame, ValidConfig;
    var width := SearchWidth(fl, frameWidth, frameHeight, c, limit, WorkspaceOf(fl, frameWidth, frameHeight, c));
    if width.Failure? {
      return Failure(width.error);
    }
    return Success(c.(maxDetectionWidth := width.value));
  }
}
