/** Success and failure responses end to end (calibration_worker_protocol.cpp): the whole-result checks, the
    encoders, the decoder, and that they are inverse. */
module WireResponse {
  import Arithmetic
  import opened Results
  import opened WireBytes
  import opened WireRecords
  import opened WireSuccess
  import opened WireResult
  import opened WireSize
  import opened WireFrame

  // ----- whole-result checks ------------------------------------------------------------------------------

  /** Not below 0.0: a clear sign bit, or minus zero. */
  predicate NotNegative(double: Word64) { double <= 0x8000_0000_0000_0000 }

  /** Not above 1.0, for a finite double that is not negative. */
  predicate NotAboveOne(double: Word64) { double <= 0x3FF0_0000_0000_0000 || double == 0x8000_0000_0000_0000 }

  predicate FiniteQuality(q: Option<Quality>) {
    q.Some? ==> IsFinite(q.value.meanError) && IsFinite(q.value.trimmedError) && IsFinite(q.value.angularError)
  }

  predicate QualityInRange(q: Option<Quality>) {
    q.Some? ==> NotNegative(q.value.meanError) && NotNegative(q.value.trimmedError) && NotNegative(q.value.angularError)
  }

  /** `validate_finite_result`; `valid` stands for the calibration's own validation. */
  predicate FiniteResult(r: CalibrationResult, valid: Calibration -> bool) {
    && IsFinite(r.metrics.residual) && IsFinite(r.metrics.confidence) && FiniteQuality(r.back.quality)
    && NotNegative(r.metrics.residual) && NotNegative(r.metrics.confidence) && NotAboveOne(r.metrics.confidence)
    && QualityInRange(r.back.quality)
    && valid(r.calibration)
  }

  /** The counts of one frame: each filter keeps at most what the one before it kept. */
  predicate CountsDescend(f: FrameMatches) {
    && f.keypointsLeft <= MAX_KEYPOINTS && f.keypointsRight <= MAX_KEYPOINTS
    && f.minDescriptors == Min(f.keypointsLeft, f.keypointsRight)
    && f.postRatio <= f.minDescriptors && f.postSpatial <= f.postRatio && f.postRansac <= f.postSpatial
    && |f.points| == f.postRansac
  }

  predicate ConsistentFrames(fs: seq<FrameMatches>, seen: nat) {
    fs == [] ||
    (CountsDescend(fs[0]) && |fs[0].points| + seen <= MAX_CORRESPONDENCES && FiniteMatches(fs[0].points)
     && ConsistentFrames(fs[1..], seen + |fs[0].points|))
  }

  function PointTotal(fs: seq<FrameMatches>): nat { if fs == [] then 0 else |fs[0].points| + PointTotal(fs[1..]) }

  /** `validate_result_counts`. */
  predicate ConsistentCounts(r: CalibrationResult) {
    && ConsistentFrames(r.perFrame, 0)
    && r.metrics.framesUsed == |r.perFrame| && r.metrics.totalMatches != 0
    && r.metrics.totalMatches == PointTotal(r.perFrame)
  }

  lemma {:induction false} ConsistentAreOk(fs: seq<FrameMatches>, seen: nat)
    requires ConsistentFrames(fs, seen)
    ensures OkFrames(fs, seen)
  {
    if fs != [] {
      ConsistentAreOk(fs[1..], seen + |fs[0].points|);
    }
  }

  /** The results a worker can send. */
  predicate Encodable(r: CalibrationResult, valid: Calibration -> bool) {
    && FiniteResult(r, valid) && |r.perFrame| <= MAX_FRAMES && ConsistentCounts(r)
    && OkRoi(r.calibration.roi) && OkProfile(r.back.leftProfile) && OkProfile(r.back.rightProfile)
  }

  /** A finite double that is not below zero. */
  predicate Measure(double: Word64) { double < 0x7FF0_0000_0000_0000 || double == 0x8000_0000_0000_0000 }

  predicate Fraction(double: Word64) { double <= 0x3FF0_0000_0000_0000 || double == 0x8000_0000_0000_0000 }

  /** One frame of a result that can be sent. */
  predicate SendableFrame(f: FrameMatches) {
    && f.keypointsLeft <= 8192 && f.keypointsRight <= 8192
    && (f.minDescriptors == f.keypointsLeft || f.minDescriptors == f.keypointsRight)
    && f.minDescriptors <= f.keypointsLeft && f.minDescriptors <= f.keypointsRight
    && |f.points| == f.postRansac <= f.postSpatial <= f.postRatio <= f.minDescriptors
    && forall i :: 0 <= i < |f.points| ==>
         && IsFinite(f.points[i].leftX) && IsFinite(f.points[i].leftY)
         && IsFinite(f.points[i].rightX) && IsFinite(f.points[i].rightY)
         && IsFinite(f.points[i].leftPixel) && IsFinite(f.points[i].rightPixel)
  }

  lemma {:induction false} FramesMean(fs: seq<FrameMatches>, seen: nat)
    requires seen <= 2097152
    ensures ConsistentFrames(fs, seen) <==>
      (forall i :: 0 <= i < |fs| ==> SendableFrame(fs[i])) && seen + PointTotal(fs) <= 2097152
  {
    if fs != [] {
      FiniteMatchesMean(fs[0].points);
      assert SendableFrame(fs[0]) <==> CountsDescend(fs[0]) && FiniteMatches(fs[0].points);
      hide SendableFrame, CountsDescend, FiniteMatches;
      if seen + |fs[0].points| <= 2097152 {
        FramesMean(fs[1..], seen + |fs[0].points|);
      }
      assert forall i :: 1 <= i < |fs| ==> fs[i] == fs[1..][i - 1];
    }
  }

  lemma {:induction false} MetricsMean(r: CalibrationResult, valid: Calibration -> bool)
    ensures FiniteResult(r, valid) <==>
      && Measure(r.metrics.residual) && Measure(r.metrics.confidence) && Fraction(r.metrics.confidence)
      && (r.back.quality.Some? ==>
            Measure(r.back.quality.value.meanError) && Measure(r.back.quality.value.trimmedError)
            && Measure(r.back.quality.value.angularError))
      && valid(r.calibration)
  {
    forall w: Word64 ensures Measure(w) <==> IsFinite(w) && NotNegative(w) {
      FiniteMagnitude(w);
    }
    hide IsFinite, NotNegative, Measure;
  }

  /** Everything that makes a result sendable, and so everything an answered result is known to satisfy: a valid
      calibration, finite measures that are not negative, a confidence up to one, at most 256 frames whose counts
      descend and whose points are finite, totals that add up to something, at most 256 finite points in each field
      polygon, and texts within their limits. */
  lemma {:induction false} EncodableMeans(r: CalibrationResult, valid: Calibration -> bool)
    ensures Encodable(r, valid) <==>
      && valid(r.calibration)
      && Measure(r.metrics.residual) && Measure(r.metrics.confidence) && Fraction(r.metrics.confidence)
      && (r.back.quality.Some? ==>
            Measure(r.back.quality.value.meanError) && Measure(r.back.quality.value.trimmedError)
            && Measure(r.back.quality.value.angularError))
      && r.metrics.framesUsed == |r.perFrame| <= 256
      && 0 < r.metrics.totalMatches == PointTotal(r.perFrame) <= 2097152
      && (forall i :: 0 <= i < |r.perFrame| ==> SendableFrame(r.perFrame[i]))
      && (r.calibration.roi.Some? ==>
            SendablePolygon(r.calibration.roi.value.left) && SendablePolygon(r.calibration.roi.value.right))
      && SendableProfile(r.back.leftProfile) && SendableProfile(r.back.rightProfile)
  {
    MetricsMean(r, valid);
    FramesMean(r.perFrame, 0);
    hide FiniteResult, ConsistentFrames, SendableFrame, Measure, Fraction, FiniteList, PointTotal;
    if r.calibration.roi.Some? {
      PolygonMeans(r.calibration.roi.value.left);
      PolygonMeans(r.calibration.roi.value.right);
    }
  }

  predicate SendablePolygon(ps: seq<RoiPoint>) {
    |ps| <= 256 && forall i :: 0 <= i < |ps| ==> IsFinite(ps[i].x) && IsFinite(ps[i].y)
  }

  predicate SendableProfile(v: Option<Profile>) {
    v.Some? ==>
      |v.value.camera| <= 4096 && |v.value.lens| <= 4096 && (v.value.path.Some? ==> |v.value.path.value| <= 16384)
  }

  lemma {:induction false} PolygonMeans(ps: seq<RoiPoint>)
    ensures OkRoiPoints(ps) <==> SendablePolygon(ps)
  {
    FiniteListMeans(ps);
  }

  lemma {:induction false} EncodableIsOk(r: CalibrationResult, valid: Calibration -> bool)
    ensures Encodable(r, valid) <==> OkParts(r) && FiniteResult(r, valid) && ConsistentCounts(r)
  {
    hide ConsistentFrames, OkFrames, FiniteResult, OkRoi, OkProfile;
    if ConsistentCounts(r) {
      ConsistentAreOk(r.perFrame, 0);
    }
  }

  /** `validate_result_counts` as the loop it is. */
  method ValidateResultCounts(r: CalibrationResult) returns (ok: bool)
    ensures ok <==> ConsistentCounts(r)
  {
    hide CountsDescend, FiniteMatches;
    var correspondences: nat := 0;
    var i := 0;
    assert r.perFrame[0..] == r.perFrame;
    while i < |r.perFrame|
      invariant 0 <= i <= |r.perFrame| && correspondences <= MAX_CORRESPONDENCES
      invariant ConsistentFrames(r.perFrame, 0) <==> ConsistentFrames(r.perFrame[i..], correspondences)
      invariant PointTotal(r.perFrame) == correspondences + PointTotal(r.perFrame[i..])
    {
      var f := r.perFrame[i];
      assert r.perFrame[i..][0] == f && r.perFrame[i..][1..] == r.perFrame[i + 1..];
      if !CountsDescend(f) { return false; }
      if |f.points| > MAX_CORRESPONDENCES - correspondences { return false; }
      if !FiniteMatches(f.points) { return false; }
      correspondences := correspondences + |f.points|;
      i := i + 1;
    }
    return r.metrics.framesUsed == |r.perFrame| && r.metrics.totalMatches != 0
           && r.metrics.totalMatches == correspondences;
  }

  // ----- the specifications --------------------------------------------------------------------------------

  function SuccessFrame(r: CalibrationResult, valid: Calibration -> bool): Option<Bytes> {
    if Encodable(r, valid) then Frame(Message.Success, EncResult(r)) else None
  }

  function FailureText(message: Bytes): Bytes { message[..Min(|message|, MAX_ERROR)] }

  function FailureFrame(message: Bytes): Option<Bytes> { Frame(Message.Failure, EncText(FailureText(message))) }

  datatype Response = Answer(result: CalibrationResult) | Failed(message: Bytes) | Rejected

  function DecFailure(payload: Bytes): Option<Bytes> {
    var (text, o) :- DecText(payload, 0, MAX_ERROR);
    if o != |payload| then None else Some(text)
  }

  /** `decode_calibration_worker_response`: a failure message is thrown with its text. */
  function DecResponse(b: Bytes, valid: Calibration -> bool): Response {
    var parsed := ParseFrame(b);
    if parsed.None? then Rejected
    else
      match parsed.value.0
      case Request => Rejected
      case Failure =>
        var text := DecFailure(parsed.value.1);
        if text.None? then Rejected else Failed(text.value)
      case Success =>
        var r := DecResult(parsed.value.1);
        if r.None? || !FiniteResult(r.value, valid) || !ConsistentCounts(r.value) then Rejected else Answer(r.value)
  }

  // ----- inverse --------------------------------------------------------------------------------------------

  lemma {:induction false} ResultNotEmpty(r: CalibrationResult)
    requires OkParts(r)
    ensures 0 < |EncResult(r)|
  {
    PartSizes(r);
  }

  /** The success codec is a bijection: the decoder answers `r` on exactly the one frame the encoder makes of
      `r`, and the encoder makes one for exactly the encodable results. */
  lemma {:induction false} SuccessBijection(b: Bytes, r: CalibrationResult, valid: Calibration -> bool)
    ensures DecResponse(b, valid) == Answer(r) <==> SuccessFrame(r, valid) == Some(b)
    ensures SuccessFrame(r, valid).Some? <==> Encodable(r, valid)
  {
    hide Frame, ParseFrame, DecResult, EncResult, FiniteResult, ConsistentCounts, OkParts, Encodable, DecFailure;
    EncodableIsOk(r, valid);
    if Encodable(r, valid) {
      PayloadFits(r);
      ResultNotEmpty(r);
      SuccessFramed(r);
      ResultDecodes(r);
      FramingExact(b, Message.Success, EncResult(r));
    }
    if DecResponse(b, valid) == Answer(r) {
      var payload := ParseFrame(b).value.1;
      ResultAccepted(payload);
      FramingExact(b, Message.Success, payload);
    }
  }

  lemma {:induction false} SuccessFramed(r: CalibrationResult)
    requires 0 < |EncResult(r)| <= MAX_PAYLOAD
    ensures Frame(Message.Success, EncResult(r)).Some?
  {
    hide EncResult, EncHeader;
  }

  lemma {:induction false} TextFailure(payload: Bytes, text: Bytes)
    ensures DecFailure(payload) == Some(text) <==> |text| <= MAX_ERROR && payload == EncText(text)
  {
    hide At, EncText, DecText;
    TextExact(payload, 0, MAX_ERROR, text, |payload|);
    if |EncText(text)| == |payload| {
      WholeIs(payload, EncText(text));
    }
  }

  /** A failure always goes out, and comes back as its text cut to the limit; only such frames are failures. */
  lemma {:induction false} FailureRoundTrip(message: Bytes, b: Bytes, text: Bytes, valid: Calibration -> bool)
    ensures FailureFrame(message).Some?
    ensures DecResponse(FailureFrame(message).value, valid) == Failed(FailureText(message))
    ensures DecResponse(b, valid) == Failed(text) ==> |text| <= MAX_ERROR && FailureFrame(text) == Some(b)
  {
    hide ParseFrame, DecFailure, EncHeader, DecResult, FiniteResult, ConsistentCounts;
    var sent := EncText(FailureText(message));
    FramingExact(FailureFrame(message).value, Message.Failure, sent);
    TextFailure(sent, FailureText(message));
    if DecResponse(b, valid) == Failed(text) {
      var payload := ParseFrame(b).value.1;
      TextFailure(payload, text);
      FramingExact(b, Message.Failure, payload);
      assert FailureText(text) == text;
    }
  }

  // ----- the encoders and the decoder -----------------------------------------------------------------------

  /** `encode_calibration_worker_success`. */
  method EncodeSuccess(r: CalibrationResult, valid: Calibration -> bool) returns (sent: Option<Bytes>)
    ensures sent == SuccessFrame(r, valid)
  {
    hide EncResult, ConsistentCounts, FiniteResult, OkRoi, OkProfile, OkParts, Frame;
    if !FiniteResult(r, valid) { return None; }
    if |r.perFrame| > MAX_FRAMES { return None; }
    var ok := ValidateResultCounts(r);
    if !ok { return None; }
    CountsWritable(r);
    var w := new Writer();
    var done := WriteResult(w, r);
    EncodableIsOk(r, valid);
    if Encodable(r, valid) {
      PayloadFits(r);
      assert [] + EncResult(r) == EncResult(r);
    }
    if done.None? { return None; }
    sent := MakeFrame(Message.Success, w.bytes);
  }

  lemma {:induction false} CountsWritable(r: CalibrationResult)
    requires ConsistentCounts(r) && |r.perFrame| <= MAX_FRAMES
    ensures PointsWritable(r)
  {
    hide ConsistentFrames, OkFrames;
    ConsistentAreOk(r.perFrame, 0);
    FramesBounded(r.perFrame, 0);
    forall f | f in r.perFrame ensures |f.points| <= MAX_KEYPOINTS {
      var i :| 0 <= i < |r.perFrame| && r.perFrame[i] == f;
    }
  }

  /** `encode_calibration_worker_failure`. */
  method EncodeFailure(message: Bytes) returns (sent: Option<Bytes>)
    ensures sent == FailureFrame(message)
  {
    hide EncText, Frame;
    var w := new Writer();
    TextLength(FailureText(message));
    var done := w.Text(FailureText(message), MAX_ERROR);
    assert [] + EncText(FailureText(message)) == EncText(FailureText(message));
    assert done.Some?;
    sent := MakeFrame(Message.Failure, w.bytes);
  }

  lemma {:induction false} TextLength(text: Bytes)
    ensures |EncText(text)| == 4 + |text|
  {
  }

  /** `decode_calibration_worker_response`. */
  method DecodeResponse(b: Bytes, valid: Calibration -> bool) returns (r: Response)
    ensures r == DecResponse(b, valid)
  {
    hide ParseFrame, DecText, DecResult, FiniteResult, ConsistentCounts;
    var parsed := Parse(b);
    if parsed.None? || parsed.value.0.Request? { return Rejected; }
    var payload := parsed.value.1;
    if parsed.value.0.Failure? {
      var rd := new Reader(payload);
      var text := rd.Text(MAX_ERROR);
      if text.None? || rd.offset != |payload| { return Rejected; }
      return Failed(text.value);
    }
    var result := ReadResult(payload);
    if result.None? || !FiniteResult(result.value, valid) { return Rejected; }
    var ok := ValidateResultCounts(result.value);
    return if ok then Answer(result.value) else Rejected;
  }

  // ----- the maximum is attained ---------------------------------------------------------------------------

  function FullFrame(points: seq<MatchedPoint>): FrameMatches
    requires |points| <= MAX_KEYPOINTS
  {
    FrameMatches(|points|, |points|, |points|, |points|, |points|, |points|, points)
  }

  function FullFrames(n: nat, f: FrameMatches): (fs: seq<FrameMatches>)
    ensures |fs| == n
  {
    if n == 0 then [] else [f] + FullFrames(n - 1, f)
  }

  /** The same points in every frame, the same profile on both sides, a perfect quality. */
  function FullResult(c: Calibration, frames: Word64, points: seq<MatchedPoint>, profile: Profile, total: Word64)
    : CalibrationResult
    requires |points| <= MAX_KEYPOINTS
  {
    CalibrationResult(c, Metrics(total, frames, 0, 0), FullFrames(frames, FullFrame(points)),
                      Back(Some(profile), Some(profile), Some(Quality(0, 0, 0))))
  }

  lemma {:induction false} FullFramesConsistent(n: nat, f: FrameMatches, seen: nat)
    requires CountsDescend(f) && FiniteMatches(f.points)
    requires seen + Repeated(n, |f.points|) <= MAX_CORRESPONDENCES
    ensures ConsistentFrames(FullFrames(n, f), seen) && PointTotal(FullFrames(n, f)) == Repeated(n, |f.points|)
    ensures PointsExactly(FullFrames(n, f), |f.points|)
  {
    if n > 0 {
      hide CountsDescend, FiniteMatches;
      assert FullFrames(n, f)[1..] == FullFrames(n - 1, f);
      FullFramesConsistent(n - 1, f, seen + |f.points|);
      hide PointsExactly;
      ExactlyParts(FullFrames(n, f), |f.points|);
    }
  }

  /** For every pair of limits the announced maximum is reached by a result the worker can send: any valid
      calibration with full field polygons extends to one. */
  lemma {:induction false} MaximumAttained(c: Calibration, frames: nat, points: seq<MatchedPoint>, profile: Profile,
                                           valid: Calibration -> bool)
    requires valid(c) && FullRoi(c.roi) && OkRoi(c.roi)
    requires FiniteMatches(points) && FullProfile(Some(profile))
    requires MaximumSuccessFrame(frames, |points|).Some?
    ensures frames * |points| <= MAX_CORRESPONDENCES
    ensures var r := FullResult(c, frames, points, profile, frames * |points|);
      Encodable(r, valid) && HEADER_BYTES + |EncResult(r)| == MaximumSuccessFrame(frames, |points|).value
  {
    hide EncResult, OkRoi, FullRoi, FiniteMatches;
    Arithmetic.ProductBound(frames, MAX_FRAMES, |points|, MAX_KEYPOINTS);
    var total := frames * |points|;
    var r := FullResult(c, frames, points, profile, total);
    FullCounts(c, frames, points, profile, total);
    hide Encodable, ConsistentCounts, FiniteResult, OkProfile, OkParts, PointsExactly, PointsAtMost;
    EncodableIsOk(r, valid);
    SuccessFrameBound(r, frames, |points|);
  }

  lemma {:induction false} FullCounts(c: Calibration, frames: nat, points: seq<MatchedPoint>, profile: Profile,
                                      total: nat)
    requires MaximumSuccessFrame(frames, |points|).Some? && FiniteMatches(points)
    requires total == frames * |points| <= MAX_CORRESPONDENCES
    ensures var r := FullResult(c, frames, points, profile, total);
      ConsistentCounts(r) && |r.perFrame| == frames && PointsExactly(r.perFrame, |points|)
  {
    hide FiniteMatches, PointsExactly;
    RepeatedIsProduct(frames, |points|);
    Arithmetic.MultipleAtLeast(frames, |points|);
    FullFramesConsistent(frames, FullFrame(points), 0);
  }

}
