/** The allocations `detect`, `gaussian` and `exclusive_scan` really make (gpu_features.cpp), step by
    step on a byte-counting device, against the bound of GpuWorkspace.  Kernels only decide the
    candidate count, which is a parameter; each `Free` stands where the C++ buffer leaves scope. */
module GpuDetect {
  import opened Arithmetic
  import opened Results
  import opened GpuGeometry
  import opened GpuWorkspace

  const MAX_WORKSPACE_BYTES: nat := 2 * 1024 * 1024 * 1024
  const HEADROOM_BYTES: nat := 256 * 1024 * 1024

  /** Device memory: bytes now allocated, and the most ever allocated. */
  class Device {
    var live: nat
    var high: nat

    constructor ()
      ensures live == 0 && high == 0
    {
      live, high := 0, 0;
    }

    method Allocate(bytes: nat)
      modifies this
      ensures live == old(live) + bytes && high == Max(old(high), live)
    {
      live := live + bytes;
      high := Max(high, live);
    }

    method Free(bytes: nat)
      requires bytes <= live
      modifies this
      ensures live == old(live) - bytes && high == old(high)
    {
      live := live - bytes;
    }

    /** `gaussian`: the temporary is released on return, the output stays. */
    method Gaussian(image: nat)
      modifies this
      ensures live == old(live) + image && high == Max(old(high), old(live) + 2 * image)
    {
      Allocate(image);
      Allocate(image);
      Free(image);
    }

    /** `exclusive_scan`: every block-sum and offset buffer is pushed to the caller's scratch. */
    method ExclusiveScan(count: nat)
      requires 0 < count
      modifies this
      ensures live == old(live) + ScanScratch(count) && high == Max(old(high), live)
      decreases count
    {
      var blocks := Blocks(count);
      Allocate(4 * blocks);
      if blocks > 1 {
        Allocate(4 * blocks);
        ExclusiveScan(blocks);
      }
    }

    /** The first level: `lt` blurred from the base, `smooth` a copy of it, contrast buffers in their
        own scope, then derivatives, second derivatives and the response. */
    method FirstLevel(image: nat, contrastFromBase: bool)
      modifies this
      ensures live == old(live) + 4 * image && high == Max(old(high), old(live) + 8 * image)
    {
      Gaussian(image);              // lt
      Allocate(image);              // smooth
      if contrastFromBase {
        Gaussian(image);            // contrast_smooth
        Allocate(image);            // contrast_lx
        Allocate(image);            // contrast_ly
        Free(3 * image);
      }
      FinishLevel(image);
      Free(image);                  // smooth
    }

    /** A later level: the flow derivatives outlive the conductivity and diffusion buffers. */
    method LaterLevel(image: nat)
      modifies this
      ensures live == old(live) + 4 * image && high == Max(old(high), old(live) + 10 * image)
    {
      Allocate(image);              // lt
      Gaussian(image);              // smooth
      Allocate(image);              // flow_lx
      Allocate(image);              // flow_ly
      Allocate(image);              // conductivity
      Allocate(image);              // diffusion_target, swapped with lt but of equal size
      Free(2 * image);
      FinishLevel(image);
      Free(3 * image);              // smooth, flow_lx, flow_ly
    }

    /** detector_lx, detector_ly and response stay with the level; lxx, lyy and lxy do not. */
    method FinishLevel(image: nat)
      modifies this
      ensures live == old(live) + 3 * image && high == Max(old(high), old(live) + 6 * image)
    {
      Allocate(image);
      Allocate(image);
      Allocate(image);
      Allocate(image);
      Allocate(image);
      Allocate(image);
      Free(3 * image);
    }

    method BuildLevels(ls: seq<Level>, base: nat)
      requires live == FIXED_BYTES + base
      modifies this
      ensures live == old(live) + Retained(ls)
      ensures old(high) <= high <= Max(old(high), LevelPeak(ls, true, base, 0))
    {
      var index := 0;
      ghost var retained: nat := 0;
      while index < |ls|
        invariant 0 <= index <= |ls|
        invariant live == old(live) + retained
        invariant retained + Retained(ls[index..]) == Retained(ls)
        invariant old(high) <= high
        invariant Max(high, LevelPeak(ls[index..], index == 0, base, retained))
               <= Max(old(high), LevelPeak(ls, true, base, 0))
      {
        assert ls[index..][0] == ls[index] && ls[index..][1..] == ls[index + 1..];
        var image := LevelBytes(ls[index]);
        if index == 0 {
          var contrastFromBase := |ls| == 1 || ls[1].octave != ls[0].octave;
          FirstLevel(image, contrastFromBase);
        } else {
          LaterLevel(image);
        }
        retained := retained + 4 * image;
        index := index + 1;
      }
    }

    /** Candidate, selection and cache buffers. */
    method AllocateSelection(pixels: nat, candidates: nat, levels: nat)
      modifies this
      ensures live == old(live) + CANDIDATE_BYTES * candidates + SELECTION_LEVEL_BYTES * levels
                      + 8 * candidates + 4 * pixels + 4
      ensures high == Max(old(high), live)
    {
      Allocate(CANDIDATE_BYTES * candidates);
      Allocate(SELECTION_LEVEL_BYTES * levels);
      Allocate(4 * candidates);                 // selected_flags
      Allocate(4 * candidates);                 // cache_indices
      Allocate(4 * pixels);                     // cache_cells
      Allocate(4);                              // cache_count
    }

    /** Radix keys, indices, flags and offsets, and the valid count. */
    method AllocateRadix(candidates: nat)
      modifies this
      ensures live == old(live) + 24 * candidates + 4 && high == Max(old(high), live)
    {
      Allocate(4 * candidates);                 // keys_a
      Allocate(4 * candidates);                 // keys_b
      Allocate(4 * candidates);                 // indices_a
      Allocate(4 * candidates);                 // indices_b
      Allocate(4 * candidates);                 // radix_flags
      Allocate(4 * candidates);                 // radix_offsets
      Allocate(4);                              // valid_count
    }

    /** One scan per key bit; the scratch of all 32 is kept to the end. */
    method RadixScans(candidates: nat)
      requires 0 < candidates
      modifies this
      ensures live == old(live) + 32 * ScanScratch(candidates) && old(high) <= high
      ensures high == Max(old(high), live)
    {
      var bit := 0;
      while bit < 32
        invariant 0 <= bit <= 32
        invariant live == old(live) + bit * ScanScratch(candidates)
        invariant high == if bit == 0 then old(high) else Max(old(high), live)
      {
        ExclusiveScan(candidates);
        bit := bit + 1;
      }
    }

    /** The buffers of the candidate branch, up to the describe launch; all are released after it. */
    method SelectFeatures(pixels: nat, candidates: nat, levels: nat, keypoints: nat)
      requires 0 < candidates
      modifies this
      ensures live == old(live)
      ensures high == Max(old(high), old(live) + CandidateBytes(pixels, candidates, levels, keypoints))
    {
      var start := live;
      AllocateSelection(pixels, candidates, levels);
      AllocateRadix(candidates);
      RadixScans(candidates);
      Allocate(8 * keypoints);                  // descriptor_positions
      Allocate(LEVEL_VIEW_BYTES * levels);      // device_views
      ReleaseTo(start);
    }

    method ReleaseTo(bytes: nat)
      requires bytes <= live
      modifies this
      ensures live == bytes && high == old(high)
    {
      Free(live - bytes);
    }

    /** `detect`.  None is the candidate-count error, after which nothing stays allocated; otherwise
        only the feature set stays.  The high-water mark never passes the bound less its margin,
        whatever the kernels find, and reaches the selection peak when every pixel is a candidate. */
    method Detect(g: Geometry, ls: seq<Level>, c: Config, candidates: nat) returns (kept: Option<nat>)
      requires Sized(g) && ValidConfig(c) && ls == Levels(g.detectWidth, g.detectHeight, c) && ls != []
      requires live == 0 && high == 0
      modifies this
      ensures high + MARGIN_BYTES <= Peak(g, ls, c)
      ensures kept.None? <==> candidates > Pixels(ls)
      ensures live == if kept.Some? then kept.value else 0
      ensures kept.Some? ==> kept.value == (POINT_BYTES + DESCRIPTOR_BYTES) * c.maxKeypoints + 4
      ensures candidates == Pixels(ls) ==>
        high >= SelectionPeak(BaseBytes(g), Retained(ls), Pixels(ls), |ls|, c.maxKeypoints)
    {
      FirstLevelFillsDetector(g, c);
      var pixels := SumPixels(ls);
      var base := BaseBytes(g);
      PrepareBase(g, base);
      assert high <= Max(ResizePeak(g), LevelPeak(ls, true, base, 0));
      BuildLevels(ls, base);
      kept := Select(base, Retained(ls), pixels, candidates, |ls|, c.maxKeypoints);
    }

    /** The base image, the resize buffer in its own scope, and the four fixed buffers. */
    method PrepareBase(g: Geometry, base: nat)
      requires live == 0 && high == 0 && base == BaseBytes(g)
      modifies this
      ensures live == FIXED_BYTES + base && high == Max(ResizePeak(g), FIXED_BYTES + base)
    {
      Allocate(base);
      if Resized(g) {
        var vertical := AlignedBytes(g.cropWidth, g.detectHeight);
        Allocate(vertical);
        Free(vertical);
      }
      Allocate(300 * 4);                        // histogram
      Allocate(4);                              // maximum
      Allocate(4);                              // nonzero
      Allocate(4);                              // contrast
    }

    /** Suppression flags, the scan, the feature set and the candidate branch, over the levels. */
    method Select(base: nat, ghost retained: nat, pixels: nat, candidates: nat, levels: nat, keypoints: nat)
      returns (kept: Option<nat>)
      requires 0 < pixels && live == FIXED_BYTES + base + retained
      modifies this
      ensures high <= Max(old(high), SelectionPeak(base, retained, pixels, levels, keypoints))
      ensures kept.None? <==> candidates > pixels
      ensures live == if kept.Some? then kept.value else 0
      ensures kept.Some? ==> kept.value == (POINT_BYTES + DESCRIPTOR_BYTES) * keypoints + 4
      ensures candidates == pixels ==> high >= SelectionPeak(base, retained, pixels, levels, keypoints)
    {
      SelectionSplits(base, retained, pixels, candidates, levels, keypoints);
      Allocate(4 * pixels);                     // flags
      Allocate(4 * pixels);                     // offsets
      ExclusiveScan(pixels);
      if candidates > pixels {
        ReleaseTo(0);
        return None;
      }
      var output := POINT_BYTES * keypoints + DESCRIPTOR_BYTES * keypoints + 4;
      Allocate(POINT_BYTES * keypoints);
      Allocate(DESCRIPTOR_BYTES * keypoints);
      Allocate(4);
      if candidates != 0 {
        SelectFeatures(pixels, candidates, levels, keypoints);
      }
      ReleaseTo(output);
      return Some(output);
    }
  }

  lemma {:induction false} FirstLevelFillsDetector(g: Geometry, c: Config)
    requires ValidConfig(c) && Levels(g.detectWidth, g.detectHeight, c) != []
    ensures var ls := Levels(g.detectWidth, g.detectHeight, c);
      Pixels(ls) > 0 && FIXED_BYTES + BaseBytes(g) <= LevelPeak(ls, true, BaseBytes(g), 0)
  {
    var ls := Levels(g.detectWidth, g.detectHeight, c);
    UsableScaleSpace(g.detectWidth, g.detectHeight, c);
    FirstBlock(g.detectWidth, g.detectHeight, c);
    ProductBound(1, ls[0].width, 1, ls[0].height);
  }

  function CandidateBytes(pixels: nat, candidates: nat, levels: nat, keypoints: nat): nat {
    CANDIDATE_BYTES * candidates + SELECTION_LEVEL_BYTES * levels + 8 * candidates + 4 * pixels + 8
    + 24 * candidates + 32 * ScanScratch(candidates) + 8 * keypoints + LEVEL_VIEW_BYTES * levels
  }

  /** The accountant charges the worst candidate count, and exactly that at the worst case. */
  lemma {:induction false} SelectionSplits(base: nat, retained: nat, pixels: nat, candidates: nat, levels: nat, keypoints: nat)
    ensures SelectionPeak(base, retained, pixels, levels, keypoints)
         == FIXED_BYTES + base + retained + 8 * pixels + ScanScratch(pixels)
            + (POINT_BYTES + DESCRIPTOR_BYTES) * keypoints + 4 + CandidateBytes(pixels, pixels, levels, keypoints)
    ensures candidates <= pixels ==>
      CandidateBytes(pixels, candidates, levels, keypoints) <= CandidateBytes(pixels, pixels, levels, keypoints)
  {
    if candidates <= pixels {
      ScanScratchMonotone(candidates, pixels);
    }
  }

  datatype DetectError = InvalidInput | OutOfMemory | CandidateOverflow

  /** The admission test around `detect`: an admitted detection never holds more than the free memory
      less the headroom and the margin, nor more than the detector limit less the margin. */
  method AdmitAndDetect(device: Device, fl: Rounding, frameWidth: nat, frameHeight: nat, c: Config,
                        candidates: nat, freeBytes: nat)
    returns (r: Result<nat, DetectError>)
    requires IsRounding(fl) && device.live == 0 && device.high == 0
    modifies device
    ensures r == Failure(InvalidInput) ==> device.high == 0
    ensures r == Failure(OutOfMemory) ==> device.high == 0
    ensures device.high == 0 || device.high + MARGIN_BYTES <= MAX_WORKSPACE_BYTES
    ensures device.high == 0 || device.high + MARGIN_BYTES + HEADROOM_BYTES <= freeBytes
    ensures device.live == if r.Success? then r.value else 0
    ensures r == Failure(InvalidInput) <==>
      || !ValidFrame(frameWidth, frameHeight) || !ValidConfig(c)
      || var need := Workspace(fl, frameWidth, frameHeight, c, c.maxDetectionWidth);
         need.None? || need.value > MAX_WORKSPACE_BYTES
    ensures r == Failure(OutOfMemory) <==>
      && ValidFrame(frameWidth, frameHeight) && ValidConfig(c)
      && var need := Workspace(fl, frameWidth, frameHeight, c, c.maxDetectionWidth);
         need.Some? && need.value <= MAX_WORKSPACE_BYTES && freeBytes < need.value + HEADROOM_BYTES
    ensures r.Success? ==> r.value == 88 * c.maxKeypoints + 4
  {
    if !ValidFrame(frameWidth, frameHeight) || !ValidConfig(c) {
      return Failure(InvalidInput);
    }
    assert c == c.(maxDetectionWidth := c.maxDetectionWidth);
    var g := DetectionGeometry(fl, frameWidth, frameHeight, c);
    if g.None? {
      return Failure(InvalidInput);
    }
    var specs := MakeEvolutionSpecs(g.value.detectWidth, g.value.detectHeight, c);
    if specs.None? {
      return Failure(InvalidInput);
    }
    var workspace := PeakWorkspaceBytes(g.value, specs.value.0, c);
    var bytes := workspace.value;
    if bytes > MAX_WORKSPACE_BYTES {
      return Failure(InvalidInput);
    }
    if freeBytes < HEADROOM_BYTES || bytes > freeBytes - HEADROOM_BYTES {
      return Failure(OutOfMemory);
    }
    var kept := device.Detect(g.value, specs.value.0, c, candidates);
    return if kept.Some? then Success(kept.value) else Failure(CandidateOverflow);
  }
}
