/** The whole payload of a success message (calibration_worker_protocol.cpp): what the writer emits, what
    the reader accepts, the checks on a result, and how long a payload can be. */
module WireResult {
  import opened Results
  import opened WireBytes
  import opened WireRecords
  import opened WireSuccess

  // ----- the calibration -----------------------------------------------------------------------------------

  datatype Layout = Layout(
    cameraAxisOffset: Word64, intersect: Word64, xTy: Word64, xRz: Word64, zRx: Word64, xRx: Word64, zRz: Word64)

  /** The nine doubles and the signed offset that follow the two cameras. */
  datatype Pose = Pose(layout: Layout, rigTilt: Word64, rigRoll: Word64, syncOffset: Int64)

  const POSE: seq<Width> := [W8, W8, W8, W8, W8, W8, W8, W8, W8, W8]

  function PoseFields(p: Pose): (v: seq<nat>)
    ensures FitAll(POSE, v)
  {
    var l := p.layout;
    [l.cameraAxisOffset, l.intersect, l.xTy, l.xRz, l.zRx, l.xRx, l.zRz, p.rigTilt, p.rigRoll, Bits(p.syncOffset)]
  }

  function PoseOf(v: seq<nat>): (p: Pose)
    requires FitAll(POSE, v)
    ensures PoseFields(p) == v
  {
    Pose(Layout(v[0], v[1], v[2], v[3], v[4], v[5], v[6]), v[7], v[8], Signed(v[9]))
  }

  function EncPose(p: Pose): Bytes { EncFields(POSE, PoseFields(p)) }

  function DecPose(s: Bytes, o: nat): (r: Option<(Pose, nat)>)
    requires o <= |s|
    ensures r.Some? ==> r.value.1 <= |s|
  {
    var (v, o1) :- DecFields(POSE, s, o);
    Some((PoseOf(v), o1))
  }

  lemma {:induction false} PoseExact(s: Bytes, o: nat, p: Pose, o': nat)
    requires o <= |s|
    ensures DecPose(s, o) == Some((p, o')) <==> At(s, o, EncPose(p)) && o' == o + |EncPose(p)|
  {
    hide At, EncFields, DecFields;
    FieldsExact(POSE, s, o, PoseFields(p), o');
    SignedOfBits(p.syncOffset);
    assert PoseOf(PoseFields(p)) == p;
  }

  datatype Calibration = Calibration(
    left: Camera, right: Camera, pose: Pose, roi: Option<Roi>, lensCorrection: Word32, blendWidth: Word32)

  /** Lens correction and blend width, then the four result metrics. */
  datatype Metrics = Metrics(totalMatches: Word64, framesUsed: Word64, residual: Word64, confidence: Word64)

  const METRICS: seq<Width> := [W4, W4, W8, W8, W8, W8]

  function MetricsFields(lens: Word32, blend: Word32, m: Metrics): (v: seq<nat>)
    ensures FitAll(METRICS, v)
  {
    [lens, blend, m.totalMatches, m.framesUsed, m.residual, m.confidence]
  }

  lemma {:induction false} MetricsKnown(v: seq<nat>, lens: Word32, blend: Word32, m: Metrics)
    requires FitAll(METRICS, v)
    ensures v == MetricsFields(lens, blend, m)
      <==> v[0] == lens && v[1] == blend && Metrics(v[2], v[3], v[4], v[5]) == m
  {
  }

  /** Cameras, pose and field polygons: the front of the payload. */
  function EncFront(c: Calibration): Bytes {
    EncCamera(c.left) + EncCamera(c.right) + EncPose(c.pose) + EncRoi(c.roi)
  }

  /** The decoded front, its last two fields still to come. */
  function DecFront(s: Bytes): (r: Option<(Calibration, nat)>)
    ensures r.Some? ==> r.value.1 <= |s| && r.value.0.lensCorrection == 0 && r.value.0.blendWidth == 0
  {
    var (left, o1) :- DecCamera(s, 0);
    var (right, o2) :- DecCamera(s, o1);
    var (pose, o3) :- DecPose(s, o2);
    var (roi, o4) :- DecRoi(s, o3);
    Some((Calibration(left, right, pose, roi, 0, 0), o4))
  }

  lemma {:induction false} FrontExact(s: Bytes, c: Calibration, o': nat)
    ensures DecFront(s) == Some((c.(lensCorrection := 0, blendWidth := 0), o'))
      <==> OkRoi(c.roi) && At(s, 0, EncFront(c)) && o' == |EncFront(c)|
  {
    hide At, EncCamera, DecCamera, EncPose, DecPose, EncRoi, DecRoi, OkRoi;
    var a, b, p := EncCamera(c.left), EncCamera(c.right), EncPose(c.pose);
    AtConcat4(s, 0, a, b, p, EncRoi(c.roi));
    CameraExact(s, 0, c.left, |a|);
    if DecFront(s) == Some((c.(lensCorrection := 0, blendWidth := 0), o')) {
      var o1 := DecCamera(s, 0).value.1;
      CameraExact(s, 0, c.left, o1);
      var o2 := DecCamera(s, o1).value.1;
      CameraExact(s, o1, c.right, o2);
      PoseExact(s, o2, c.pose, DecPose(s, o2).value.1);
      RoiExact(s, o2 + |p|, c.roi, o');
    }
    if OkRoi(c.roi) && At(s, 0, EncFront(c)) && o' == |EncFront(c)| {
      CameraExact(s, |a|, c.right, |a| + |b|);
      PoseExact(s, |a| + |b|, c.pose, |a| + |b| + |p|);
      RoiExact(s, |a| + |b| + |p|, c.roi, o');
    }
  }

  // ----- profiles and quality ---------------------------------------------------------------------------------

  datatype Quality = Quality(meanError: Word64, trimmedError: Word64, angularError: Word64)

  const QUALITY: seq<Width> := [W8, W8, W8]

  function EncQuality(q: Option<Quality>): Bytes {
    if q.None? then EncField(WB, 0)
    else EncField(WB, 1) + EncFields(QUALITY, [q.value.meanError, q.value.trimmedError, q.value.angularError])
  }

  function DecQuality(s: Bytes, o: nat): (r: Option<(Option<Quality>, nat)>)
    ensures r.Some? ==> r.value.1 <= |s|
  {
    var (present, o1) :- DecField(WB, s, o);
    if present == 0 then Some((None, o1))
    else
      var (v, o2) :- DecFields(QUALITY, s, o1);
      Some((Some(Quality(v[0], v[1], v[2])), o2))
  }

  lemma {:induction false} QualityExact(s: Bytes, o: nat, q: Option<Quality>, o': nat)
    ensures DecQuality(s, o) == Some((q, o')) <==> At(s, o, EncQuality(q)) && o' == o + |EncQuality(q)|
  {
    hide At, EncField, DecField, EncFields, DecFields;
    FieldExact(WB, s, o, Bit(q.Some?), o + 1);
    if q.Some? {
      var v := [q.value.meanError, q.value.trimmedError, q.value.angularError];
      AtConcat(s, o, EncField(WB, 1), EncFields(QUALITY, v));
      if o + 1 <= |s| {
        FieldsExact(QUALITY, s, o + 1, v, o');
        var d := DecFields(QUALITY, s, o + 1);
        if d.Some? {
          assert d.value.0 == [d.value.0[0], d.value.0[1], d.value.0[2]];
        }
      }
    }
  }

  /** The back of the payload: both lens profiles and the quality. */
  datatype Back = Back(leftProfile: Option<Profile>, rightProfile: Option<Profile>, quality: Option<Quality>)

  function EncBack(b: Back): Bytes { EncProfile(b.leftProfile) + EncProfile(b.rightProfile) + EncQuality(b.quality) }

  function DecBack(s: Bytes, o: nat): (r: Option<(Back, nat)>)
    ensures r.Some? ==> r.value.1 <= |s|
  {
    var (left, o1) :- DecProfile(s, o);
    var (right, o2) :- DecProfile(s, o1);
    var (quality, o3) :- DecQuality(s, o2);
    Some((Back(left, right, quality), o3))
  }

  lemma {:induction false} BackExact(s: Bytes, o: nat, b: Back, o': nat)
    ensures DecBack(s, o) == Some((b, o'))
      <==> OkProfile(b.leftProfile) && OkProfile(b.rightProfile) && At(s, o, EncBack(b)) && o' == o + |EncBack(b)|
  {
    hide At, EncProfile, DecProfile, OkProfile, EncQuality, DecQuality;
    var l, r := EncProfile(b.leftProfile), EncProfile(b.rightProfile);
    AtConcat3(s, o, l, r, EncQuality(b.quality));
    if DecBack(s, o) == Some((b, o')) {
      var o1 := DecProfile(s, o).value.1;
      ProfileExact(s, o, b.leftProfile, o1);
      var o2 := DecProfile(s, o1).value.1;
      ProfileExact(s, o1, b.rightProfile, o2);
      QualityExact(s, o2, b.quality, o');
    }
    if OkProfile(b.leftProfile) && OkProfile(b.rightProfile) && At(s, o, EncBack(b)) && o' == o + |EncBack(b)| {
      ProfileExact(s, o, b.leftProfile, o + |l|);
      ProfileExact(s, o + |l|, b.rightProfile, o + |l| + |r|);
      QualityExact(s, o + |l| + |r|, b.quality, o');
    }
  }

  // ----- the payload -------------------------------------------------------------------------------------------

  datatype CalibrationResult = CalibrationResult(
    calibration: Calibration, metrics: Metrics, perFrame: seq<FrameMatches>, back: Back)

  function EncMetrics(r: CalibrationResult): Bytes {
    EncFields(METRICS, MetricsFields(r.calibration.lensCorrection, r.calibration.blendWidth, r.metrics))
  }

  function EncResult(r: CalibrationResult): Bytes {
    EncFront(r.calibration) + EncMetrics(r) + EncFrames(r.perFrame) + EncBack(r.back)
  }

  /** What the reader demands before the whole-result checks. */
  predicate OkParts(r: CalibrationResult) {
    OkRoi(r.calibration.roi) && |r.perFrame| <= MAX_FRAMES && OkFrames(r.perFrame, 0)
    && OkProfile(r.back.leftProfile) && OkProfile(r.back.rightProfile)
  }

  function DecMetrics(s: Bytes, o: nat, c: Calibration): (r: Option<((Calibration, Metrics), nat)>)
    requires o <= |s|
    ensures r.Some? ==> r.value.1 <= |s|
  {
    var (v, o1) :- DecFields(METRICS, s, o);
    Some(((c.(lensCorrection := v[0], blendWidth := v[1]), Metrics(v[2], v[3], v[4], v[5])), o1))
  }

  /** The reader's pass over the payload, ending where it must: at the last byte. */
  function DecResult(s: Bytes): Option<CalibrationResult> {
    var (front, o1) :- DecFront(s);
    var ((calibration, metrics), o2) :- DecMetrics(s, o1, front);
    var (perFrame, o3) :- DecFrames(s, o2);
    var (back, o4) :- DecBack(s, o3);
    if o4 != |s| then None else Some(CalibrationResult(calibration, metrics, perFrame, back))
  }

  lemma {:induction false} MetricsExact(s: Bytes, o: nat, front: Calibration, r: CalibrationResult, o': nat)
    requires o <= |s| && front == r.calibration.(lensCorrection := 0, blendWidth := 0)
    ensures DecMetrics(s, o, front) == Some(((r.calibration, r.metrics), o'))
      <==> At(s, o, EncMetrics(r)) && o' == o + |EncMetrics(r)|
  {
    hide At, EncFields, DecFields, MetricsFields;
    var c := r.calibration;
    FieldsExact(METRICS, s, o, MetricsFields(c.lensCorrection, c.blendWidth, r.metrics), o');
    MetricsKnown(MetricsFields(c.lensCorrection, c.blendWidth, r.metrics), c.lensCorrection, c.blendWidth, r.metrics);
    if DecFields(METRICS, s, o).Some? {
      MetricsKnown(DecFields(METRICS, s, o).value.0, c.lensCorrection, c.blendWidth, r.metrics);
    }
  }

  /** Every legal result reads back from its encoding ... */
  lemma {:induction false} ResultDecodes(r: CalibrationResult)
    requires OkParts(r)
    ensures DecResult(EncResult(r)) == Some(r)
  {
    hide At, EncFront, DecFront, EncMetrics, DecMetrics, EncFrames, DecFrames, EncBack, DecBack, OkFrames, OkRoi, OkProfile;
    var s := EncResult(r);
    var a, m, f := EncFront(r.calibration), EncMetrics(r), EncFrames(r.perFrame);
    AtWhole(s);
    AtConcat4(s, 0, a, m, f, EncBack(r.back));
    FrontExact(s, r.calibration, |a|);
    MetricsExact(s, |a|, r.calibration.(lensCorrection := 0, blendWidth := 0), r, |a| + |m|);
    FramesExact(s, |a| + |m|, r.perFrame, |a| + |m| + |f|);
    BackExact(s, |a| + |m| + |f|, r.back, |s|);
  }

  /** ... and every payload the reader accepts is the encoding of the legal result it returns. */
  lemma {:induction false} ResultAccepted(s: Bytes)
    requires DecResult(s).Some?
    ensures OkParts(DecResult(s).value) && s == EncResult(DecResult(s).value)
  {
    hide At, EncFront, DecFront, EncMetrics, DecMetrics, EncFrames, DecFrames, EncBack, DecBack, OkFrames, OkRoi, OkProfile;
    var r := DecResult(s).value;
    var (front, o1) := DecFront(s).value;
    MetricsFront(s, o1, front);
    FrontExact(s, r.calibration, o1);
    var o2 := DecMetrics(s, o1, front).value.1;
    MetricsExact(s, o1, front, r, o2);
    var o3 := DecFrames(s, o2).value.1;
    FramesExact(s, o2, r.perFrame, o3);
    BackExact(s, o3, r.back, |s|);
    AtConcat4(s, 0, EncFront(r.calibration), EncMetrics(r), EncFrames(r.perFrame), EncBack(r.back));
    WholeAt(s, EncResult(r));
  }

  lemma {:induction false} MetricsFront(s: Bytes, o: nat, front: Calibration)
    requires o <= |s| && DecMetrics(s, o, front).Some?
    requires front.lensCorrection == 0 && front.blendWidth == 0
    ensures front == DecMetrics(s, o, front).value.0.0.(lensCorrection := 0, blendWidth := 0)
  {
  }

  lemma {:induction false} AtWhole(s: Bytes)
    ensures At(s, 0, s)
  {
  }

  lemma {:induction false} WholeAt(s: Bytes, e: Bytes)
    requires At(s, 0, e) && |e| == |s|
    ensures s == e
  {
  }

  // ----- the writer and the reader ------------------------------------------------------------------------------

  method WriteFront(w: Writer, c: Calibration) returns (r: Option<()>)
    requires |w.bytes| <= MAX_PAYLOAD
    modifies w
    ensures !OkRoi(c.roi) ==> r.None?
    ensures OkRoi(c.roi) ==> Appended(old(w.bytes), EncFront(c), r.Some?, w.bytes)
  {
    hide EncFields, EncCamera, EncRoi, OkRoi;
    Append4(w.bytes, EncCamera(c.left), EncCamera(c.right), EncPose(c.pose), EncRoi(c.roi));
    var _ :- WriteCamera(w, c.left);
    var _ :- WriteCamera(w, c.right);
    var _ :- w.Fields(POSE, PoseFields(c.pose));
    r := WriteRoi(w, c.roi);
  }

  method WriteQuality(w: Writer, q: Option<Quality>) returns (r: Option<()>)
    requires |w.bytes| <= MAX_PAYLOAD
    modifies w
    ensures Appended(old(w.bytes), EncQuality(q), r.Some?, w.bytes)
  {
    hide EncField, EncFields;
    if q.None? {
      r := w.Boolean(false);
    } else {
      var v := [q.value.meanError, q.value.trimmedError, q.value.angularError];
      Append2(w.bytes, EncField(WB, 1), EncFields(QUALITY, v));
      var _ :- w.Boolean(true);
      r := w.Fields(QUALITY, v);
    }
  }

  method WriteBack(w: Writer, b: Back) returns (r: Option<()>)
    requires |w.bytes| <= MAX_PAYLOAD
    modifies w
    ensures !OkProfile(b.leftProfile) || !OkProfile(b.rightProfile) ==> r.None?
    ensures OkProfile(b.leftProfile) && OkProfile(b.rightProfile) ==> Appended(old(w.bytes), EncBack(b), r.Some?, w.bytes)
  {
    hide EncProfile, EncQuality, OkProfile;
    Append3(w.bytes, EncProfile(b.leftProfile), EncProfile(b.rightProfile), EncQuality(b.quality));
    var _ :- WriteProfile(w, b.leftProfile);
    var _ :- WriteProfile(w, b.rightProfile);
    r := WriteQuality(w, b.quality);
  }

  predicate PointsWritable(r: CalibrationResult) {
    |r.perFrame| <= MAX_FRAMES && forall f :: f in r.perFrame ==> |f.points| <= MAX_KEYPOINTS
  }

  /** The straight line of writes, after the whole-result checks settled the counts. */
  method WriteResult(w: Writer, result: CalibrationResult) returns (r: Option<()>)
    requires |w.bytes| <= MAX_PAYLOAD && PointsWritable(result)
    modifies w
    ensures !OkRoi(result.calibration.roi) || !OkProfile(result.back.leftProfile) || !OkProfile(result.back.rightProfile)
      ==> r.None?
    ensures OkRoi(result.calibration.roi) && OkProfile(result.back.leftProfile) && OkProfile(result.back.rightProfile)
      ==> Appended(old(w.bytes), EncResult(result), r.Some?, w.bytes)
  {
    hide EncFront, EncFields, EncFrames, EncBack, OkRoi, OkProfile, MetricsFields;
    Append4(w.bytes, EncFront(result.calibration), EncMetrics(result), EncFrames(result.perFrame), EncBack(result.back));
    var c := result.calibration;
    var _ :- WriteFront(w, c);
    var _ :- w.Fields(METRICS, MetricsFields(c.lensCorrection, c.blendWidth, result.metrics));
    var _ :- WriteFrames(w, result.perFrame);
    r := WriteBack(w, result.back);
  }

  method ReadFront(rd: Reader) returns (r: Option<Calibration>)
    requires rd.Valid() && rd.offset == 0
    modifies rd
    ensures rd.Valid() && Read(DecFront(rd.bytes), r, rd.offset)
  {
    hide DecCamera, DecFields, DecRoi;
    var left :- ReadCamera(rd);
    var right :- ReadCamera(rd);
    var v :- rd.Fields(POSE);
    var roi :- ReadRoi(rd);
    return Some(Calibration(left, right, PoseOf(v), roi, 0, 0));
  }

  method ReadQuality(rd: Reader) returns (r: Option<Option<Quality>>)
    requires rd.Valid()
    modifies rd
    ensures rd.Valid() && Read(DecQuality(rd.bytes, old(rd.offset)), r, rd.offset)
  {
    hide DecField, DecFields;
    var present :- rd.Boolean();
    if !present { return Some(None); }
    var v :- rd.Fields(QUALITY);
    return Some(Some(Quality(v[0], v[1], v[2])));
  }

  method ReadBack(rd: Reader) returns (r: Option<Back>)
    requires rd.Valid()
    modifies rd
    ensures rd.Valid() && Read(DecBack(rd.bytes, old(rd.offset)), r, rd.offset)
  {
    hide DecProfile, DecQuality;
    var left :- ReadProfile(rd);
    var right :- ReadProfile(rd);
    var quality :- ReadQuality(rd);
    return Some(Back(left, right, quality));
  }

  /** The straight line of reads, to the last byte. */
  method ReadResult(payload: Bytes) returns (r: Option<CalibrationResult>)
    ensures r == DecResult(payload)
  {
    hide DecFront, DecFields, DecFrames, DecBack;
    var rd := new Reader(payload);
    var front :- ReadFront(rd);
    var v :- rd.Fields(METRICS);
    var perFrame :- ReadFrames(rd);
    var back :- ReadBack(rd);
    if rd.offset != |payload| { return None; }
    var c := front.(lensCorrection := v[0], blendWidth := v[1]);
    return Some(CalibrationResult(c, Metrics(v[2], v[3], v[4], v[5]), perFrame, back));
  }
}
