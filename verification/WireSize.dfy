/** How long a success message can be: the hand-computed constants of calibration_worker_protocol.hpp and
    `maximum_calibration_worker_success_frame_bytes`, against the encoder. */
module WireSize {
  import opened Results
  import opened WireBytes
  import opened WireRecords
  import opened WireSuccess
  import opened WireResult

  /** `maximum_calibration_worker_success_frame_bytes`; None is the thrown error. */
  function MaximumSuccessFrame(frames: nat, keypoints: nat): Option<nat> {
    if frames == 0 || frames > MAX_FRAMES || keypoints == 0 || keypoints > MAX_KEYPOINTS then None
    else Some(HEADER_BYTES + FIXED_RESULT_BYTES + frames * (PER_FRAME_BYTES + keypoints * POINT_BYTES))
  }

  // ----- fixed groups ---------------------------------------------------------------------------------------

  lemma {:induction false} GroupSizes()
    ensures TotalSize(CAMERA) == 72 && TotalSize(POSE) == 80 && TotalSize(METRICS) == 40
    ensures TotalSize(SUMMARY) == PER_FRAME_BYTES && TotalSize(QUALITY) == 24 && TotalSize(ROI_POINT) == 16
  {
    WordRuns();
    assert CAMERA[1..][1..] == [W8, W8, W8, W8, W8, W8, W8, W8];
    assert POSE == [W8, W8, W8, W8, W8, W8, W8, W8, W8, W8];
    assert METRICS[1..][1..] == [W8, W8, W8, W8];
  }

  /** Runs of eight-byte words, and such a run with one four-byte word after it. */
  lemma {:induction false} WordRuns()
    ensures TotalSize([W8]) == 8 && TotalSize([W8, W8]) == 16 && TotalSize([W8, W8, W8]) == 24
    ensures TotalSize([W8, W8, W8, W8]) == 32
    ensures TotalSize([W8, W8, W8, W8, W8, W8, W4]) == 52
    ensures TotalSize([W8, W8, W8, W8, W8, W8, W8, W8]) == 64
    ensures TotalSize([W8, W8, W8, W8, W8, W8, W8, W8, W8, W8]) == 80
  {
  }

  // ----- polygons and profiles -------------------------------------------------------------------------------

  lemma {:induction false} RoiListSize(ps: seq<RoiPoint>)
    ensures |EncRoiList(ps)| == 16 * |ps|
  {
    if ps != [] {
      GroupSizes();
      EncFieldsSize(ROI_POINT, [ps[0].x, ps[0].y]);
      RoiListSize(ps[1..]);
    }
  }

  predicate FullRoi(v: Option<Roi>) {
    v.Some? && |v.value.left| == MAX_ROI_POINTS && |v.value.right| == MAX_ROI_POINTS
  }

  lemma {:induction false} RoiSize(v: Option<Roi>)
    requires OkRoi(v)
    ensures |EncRoi(v)| <= ROI_BYTES
    ensures |EncRoi(v)| == ROI_BYTES <==> FullRoi(v)
  {
    if v.Some? {
      hide EncRoiList, FiniteList;
      RoiListSize(v.value.left);
      RoiListSize(v.value.right);
    }
  }

  predicate FullProfile(v: Option<Profile>) {
    v.Some? && |v.value.camera| == MAX_PROFILE_TEXT && |v.value.lens| == MAX_PROFILE_TEXT
    && v.value.path.Some? && |v.value.path.value| == MAX_PATH
  }

  lemma {:induction false} ProfileSize(v: Option<Profile>)
    requires OkProfile(v)
    ensures |EncProfile(v)| <= PROFILE_BYTES
    ensures |EncProfile(v)| == PROFILE_BYTES <==> FullProfile(v)
  {
  }

  lemma {:induction false} QualitySize(q: Option<Quality>)
    ensures |EncQuality(q)| <= 25
    ensures |EncQuality(q)| == 25 <==> q.Some?
  {
    GroupSizes();
    if q.Some? {
      EncFieldsSize(QUALITY, [q.value.meanError, q.value.trimmedError, q.value.angularError]);
    }
  }

  // ----- frames ----------------------------------------------------------------------------------------------

  predicate PointsAtMost(fs: seq<FrameMatches>, keypoints: nat) {
    forall i :: 0 <= i < |fs| ==> |fs[i].points| <= keypoints
  }

  predicate PointsExactly(fs: seq<FrameMatches>, keypoints: nat) {
    forall i :: 0 <= i < |fs| ==> |fs[i].points| == keypoints
  }

  lemma {:induction false} FrameSize(f: FrameMatches)
    ensures |EncFrame(f)| == PER_FRAME_BYTES + |f.points| * POINT_BYTES
  {
    GroupSizes();
    EncFieldsSize(SUMMARY, SummaryFields(f));
    PointsSize(f.points);
  }

  /** `each`, `n` times. */
  function Repeated(n: nat, each: nat): nat { if n == 0 then 0 else each + Repeated(n - 1, each) }

  lemma {:induction false} RepeatedIsProduct(n: nat, each: nat)
    ensures Repeated(n, each) == n * each
  {
    if n > 0 {
      RepeatedIsProduct(n - 1, each);
      assert n * each == each + (n - 1) * each;
    }
  }

  lemma {:induction false} FrameListSize(fs: seq<FrameMatches>, keypoints: nat, each: nat)
    requires PointsAtMost(fs, keypoints) && each == PER_FRAME_BYTES + keypoints * POINT_BYTES
    ensures |EncFrameList(fs)| <= Repeated(|fs|, each)
    ensures |EncFrameList(fs)| == Repeated(|fs|, each) <==> PointsExactly(fs, keypoints)
  {
    if fs != [] {
      AtMostParts(fs, keypoints);
      ExactlyParts(fs, keypoints);
      FrameListParts(fs, 0);
      assert Repeated(|fs|, each) == each + Repeated(|fs[1..]|, each);
      hide EncFrame, EncFrameList, OkFrames, OkFrame, PointsAtMost, PointsExactly, Repeated;
      FrameSize(fs[0]);
      FrameListSize(fs[1..], keypoints, each);
    }
  }

  lemma {:induction false} AtMostParts(fs: seq<FrameMatches>, keypoints: nat)
    requires fs != [] && PointsAtMost(fs, keypoints)
    ensures |fs[0].points| <= keypoints && PointsAtMost(fs[1..], keypoints)
  {
  }

  lemma {:induction false} ExactlyParts(fs: seq<FrameMatches>, keypoints: nat)
    requires fs != []
    ensures PointsExactly(fs, keypoints) <==> |fs[0].points| == keypoints && PointsExactly(fs[1..], keypoints)
  {
    if |fs[0].points| == keypoints && PointsExactly(fs[1..], keypoints) {
      forall i | 0 <= i < |fs| ensures |fs[i].points| == keypoints {
        if i > 0 { assert fs[i] == fs[1..][i - 1]; }
      }
    }
  }

  // ----- the bound ---------------------------------------------------------------------------------------------

  /** A result that fills every field to its limit, with `frames` frames of `keypoints` points each. */
  predicate Full(r: CalibrationResult, frames: nat, keypoints: nat) {
    && FullRoi(r.calibration.roi)
    && FullProfile(r.back.leftProfile) && FullProfile(r.back.rightProfile) && r.back.quality.Some?
    && |r.perFrame| == frames && PointsExactly(r.perFrame, keypoints)
  }

  lemma {:induction false} PartSizes(r: CalibrationResult)
    requires OkParts(r)
    ensures |EncResult(r)| == 72 + 72 + 80 + |EncRoi(r.calibration.roi)| + 40 + 4 + |EncFrameList(r.perFrame)|
      + |EncProfile(r.back.leftProfile)| + |EncProfile(r.back.rightProfile)| + |EncQuality(r.back.quality)|
  {
    hide EncFields, EncRoi, EncProfile, EncQuality, EncFrameList, Digits;
    GroupSizes();
    var c := r.calibration;
    EncFieldsSize(CAMERA, CameraFields(c.left));
    EncFieldsSize(CAMERA, CameraFields(c.right));
    EncFieldsSize(POSE, PoseFields(c.pose));
    EncFieldsSize(METRICS, MetricsFields(c.lensCorrection, c.blendWidth, r.metrics));
  }

  /** A result with at most `frames` frames and at most `keypoints` points in each never encodes past the
      announced maximum, and reaches it exactly when it is full. */
  lemma {:induction false} SuccessFrameBound(r: CalibrationResult, frames: nat, keypoints: nat)
    requires OkParts(r) && |r.perFrame| <= frames && PointsAtMost(r.perFrame, keypoints)
    requires MaximumSuccessFrame(frames, keypoints).Some?
    ensures HEADER_BYTES + |EncResult(r)| <= MaximumSuccessFrame(frames, keypoints).value
    ensures HEADER_BYTES + |EncResult(r)| == MaximumSuccessFrame(frames, keypoints).value
      <==> Full(r, frames, keypoints)
  {
    hide EncResult, EncRoi, EncProfile, EncQuality, EncFrameList, OkFrames, OkRoi, OkProfile, FullRoi, FullProfile;
    hide PointsAtMost, PointsExactly;
    var each := PER_FRAME_BYTES + keypoints * POINT_BYTES;
    PartSizes(r);
    RoiSize(r.calibration.roi);
    ProfileSize(r.back.leftProfile);
    ProfileSize(r.back.rightProfile);
    QualitySize(r.back.quality);
    FrameListSize(r.perFrame, keypoints, each);
    RepeatedMonotone(|r.perFrame|, frames, each);
    RepeatedIsProduct(frames, each);
  }

  lemma {:induction false} RepeatedMonotone(a: nat, b: nat, each: nat)
    requires a <= b && each > 0
    ensures Repeated(a, each) <= Repeated(b, each)
    ensures Repeated(a, each) == Repeated(b, each) <==> a == b
    decreases b
  {
    if a > 0 {
      RepeatedMonotone(a - 1, b - 1, each);
    }
  }

  /** So every legal payload fits the protocol's own limit. */
  lemma {:induction false} PayloadFits(r: CalibrationResult)
    requires OkParts(r)
    ensures |EncResult(r)| <= MAX_PAYLOAD
  {
    hide EncResult, OkRoi, OkProfile;
    FramesBounded(r.perFrame, 0);
    SuccessFrameBound(r, MAX_FRAMES, MAX_KEYPOINTS);
  }

  lemma {:induction false} FramesBounded(fs: seq<FrameMatches>, seen: nat)
    requires OkFrames(fs, seen)
    ensures PointsAtMost(fs, MAX_KEYPOINTS)
  {
    if fs != [] {
      hide FiniteMatches;
      FramesBounded(fs[1..], seen + |fs[0].points|);
      forall i | 0 <= i < |fs| ensures |fs[i].points| <= MAX_KEYPOINTS {
        if i > 0 { assert fs[i] == fs[1..][i - 1]; }
      }
    }
  }
}
