/** The body of a success message (calibration_worker_protocol.cpp): per-frame matches, the calibration,
    the result metrics, and the two whole-result checks both sides run. */
module WireSuccess {
  import opened Results
  import opened WireBytes
  import opened WireRecords

  // ----- matched points --------------------------------------------------------------------------------

  datatype MatchedPoint = MatchedPoint(
    leftX: Word64, leftY: Word64, rightX: Word64, rightY: Word64, leftPixel: Word64, rightPixel: Word64)

  const POINT: seq<Width> := [W8, W8, W8, W8, W8, W8]

  function PointFields(p: MatchedPoint): (v: seq<nat>)
    ensures FitAll(POINT, v)
  {
    [p.leftX, p.leftY, p.rightX, p.rightY, p.leftPixel, p.rightPixel]
  }

  function PointOf(v: seq<nat>): (p: MatchedPoint)
    requires FitAll(POINT, v)
    ensures PointFields(p) == v
  {
    MatchedPoint(v[0], v[1], v[2], v[3], v[4], v[5])
  }

  predicate FiniteMatch(p: MatchedPoint) {
    IsFinite(p.leftX) && IsFinite(p.leftY) && IsFinite(p.rightX) && IsFinite(p.rightY)
    && IsFinite(p.leftPixel) && IsFinite(p.rightPixel)
  }

  predicate FiniteMatches(ps: seq<MatchedPoint>) {
    ps == [] || (FiniteMatch(ps[0]) && FiniteMatches(ps[1..]))
  }

  lemma {:induction false} FiniteMatchesMean(ps: seq<MatchedPoint>)
    ensures FiniteMatches(ps) <==> forall i :: 0 <= i < |ps| ==>
      && IsFinite(ps[i].leftX) && IsFinite(ps[i].leftY) && IsFinite(ps[i].rightX) && IsFinite(ps[i].rightY)
      && IsFinite(ps[i].leftPixel) && IsFinite(ps[i].rightPixel)
  {
    hide IsFinite;
    if ps != [] {
      FiniteMatchesMean(ps[1..]);
      assert forall i :: 1 <= i < |ps| ==> ps[i] == ps[1..][i - 1];
    }
  }

  function EncPoint(p: MatchedPoint): Bytes { EncFields(POINT, PointFields(p)) }

  function EncPoints(ps: seq<MatchedPoint>): Bytes {
    if ps == [] then [] else EncPoint(ps[0]) + EncPoints(ps[1..])
  }

  function DecPoint(s: Bytes, o: nat): (r: Option<(MatchedPoint, nat)>)
    requires o <= |s|
    ensures r.Some? ==> r.value.1 <= |s|
  {
    var (v, o1) :- DecFields(POINT, s, o);
    if FiniteMatch(PointOf(v)) then Some((PointOf(v), o1)) else None
  }

  function DecPoints(n: nat, s: Bytes, o: nat): (r: Option<(seq<MatchedPoint>, nat)>)
    requires o <= |s|
    ensures r.Some? ==> r.value.1 <= |s| && |r.value.0| == n
  {
    if n == 0 then Some(([], o))
    else
      var (p, o1) :- DecPoint(s, o);
      var (rest, o2) :- DecPoints(n - 1, s, o1);
      Some(([p] + rest, o2))
  }

  lemma {:induction false} PointExact(s: Bytes, o: nat, p: MatchedPoint, o': nat)
    requires o <= |s|
    ensures DecPoint(s, o) == Some((p, o'))
      <==> FiniteMatch(p) && At(s, o, EncPoint(p)) && o' == o + |EncPoint(p)|
  {
    hide At, EncFields, DecFields, FiniteMatch;
    FieldsExact(POINT, s, o, PointFields(p), o');
    assert PointOf(PointFields(p)) == p;
  }

  lemma {:induction false} PointsExact(n: nat, s: Bytes, o: nat, ps: seq<MatchedPoint>, o': nat)
    requires o <= |s|
    ensures DecPoints(n, s, o) == Some((ps, o'))
      <==> |ps| == n && FiniteMatches(ps) && At(s, o, EncPoints(ps)) && o' == o + |EncPoints(ps)|
  {
    if n > 0 && |ps| == n {
      hide At, EncPoint, DecPoint, FiniteMatch;
      var o1 := o + |EncPoint(ps[0])|;
      AtConcat(s, o, EncPoint(ps[0]), EncPoints(ps[1..]));
      PointExact(s, o, ps[0], o1);
      if DecPoint(s, o).Some? {
        PointExact(s, o, DecPoint(s, o).value.0, DecPoint(s, o).value.1);
      }
      if DecPoint(s, o) == Some((ps[0], o1)) {
        PointsExact(n - 1, s, o1, ps[1..], o');
      }
      assert ps == [ps[0]] + ps[1..];
    }
  }

  lemma {:induction false} PointSize(p: MatchedPoint)
    ensures |EncPoint(p)| == POINT_BYTES
  {
    EncFieldsSize(POINT, PointFields(p));
    assert POINT[1..][1..][1..] == [W8, W8, W8];
    assert TotalSize([W8, W8, W8]) == 24;
  }

  lemma {:induction false} PointsSize(ps: seq<MatchedPoint>)
    ensures |EncPoints(ps)| == |ps| * POINT_BYTES
  {
    if ps != [] {
      hide EncPoint;
      PointSize(ps[0]);
      PointsSize(ps[1..]);
    }
  }

  lemma {:induction false} PointsSplit(s: Bytes, ps: seq<MatchedPoint>, i: nat)
    requires i < |ps|
    ensures s + EncPoints(ps[i..]) == s + EncPoint(ps[i]) + EncPoints(ps[i + 1..])
    ensures |s + EncPoints(ps[i..])| >= |s| + |EncPoint(ps[i])|
  {
    hide EncPoint;
    assert ps[i..][0] == ps[i] && ps[i..][1..] == ps[i + 1..];
    Append2(s, EncPoint(ps[i]), EncPoints(ps[i + 1..]));
  }

  method WritePoints(w: Writer, ps: seq<MatchedPoint>) returns (r: Option<()>)
    requires |w.bytes| <= MAX_PAYLOAD
    modifies w
    ensures Appended(old(w.bytes), EncPoints(ps), r.Some?, w.bytes)
  {
    hide EncFields;
    var i := 0;
    assert ps[0..] == ps;
    while i < |ps|
      invariant 0 <= i <= |ps| && |w.bytes| <= MAX_PAYLOAD
      invariant w.bytes + EncPoints(ps[i..]) == old(w.bytes) + EncPoints(ps)
    {
      PointsSplit(w.bytes, ps, i);
      var _ :- w.Fields(POINT, PointFields(ps[i]));
      i := i + 1;
    }
    return Some(());
  }

  lemma {:induction false} PointsStep(done: seq<MatchedPoint>, n: nat, s: Bytes, o: nat)
    requires n > 0 && o <= |s|
    ensures After(done, DecPoints(n, s, o)) ==
      if DecPoint(s, o).None? then None
      else After(done + [DecPoint(s, o).value.0], DecPoints(n - 1, s, DecPoint(s, o).value.1))
  {
    hide DecPoint, After;
    AfterNone(done);
    if DecPoint(s, o).Some? {
      var (p, o1) := DecPoint(s, o).value;
      AfterNone(done + [p]);
      if DecPoints(n - 1, s, o1).Some? {
        AfterOne(done, p, DecPoints(n - 1, s, o1).value.0, DecPoints(n - 1, s, o1).value.1);
      }
    }
  }

  lemma {:induction false} PointsEnd(done: seq<MatchedPoint>, s: Bytes, o: nat)
    requires o <= |s|
    ensures After(done, DecPoints(0, s, o)) == Some((done, o))
  {
    AfterAll(done, o);
  }

  method ReadPoint(rd: Reader) returns (r: Option<MatchedPoint>)
    requires rd.Valid()
    modifies rd
    ensures rd.Valid() && Read(DecPoint(rd.bytes, old(rd.offset)), r, rd.offset)
  {
    hide DecFields, FiniteMatch;
    var v :- rd.Fields(POINT);
    if !FiniteMatch(PointOf(v)) { return None; }
    return Some(PointOf(v));
  }

  method ReadPoints(rd: Reader, count: nat) returns (r: Option<seq<MatchedPoint>>)
    requires rd.Valid()
    modifies rd
    ensures rd.Valid() && Read(DecPoints(count, rd.bytes, old(rd.offset)), r, rd.offset)
  {
    hide DecPoint, DecPoints, After;
    var points: seq<MatchedPoint> := [];
    var i: nat := 0;
    while i < count
      invariant 0 <= i <= count && rd.Valid()
      invariant DecPoints(count, rd.bytes, old(rd.offset)) == After(points, DecPoints(count - i, rd.bytes, rd.offset))
    {
      PointsStep(points, count - i, rd.bytes, rd.offset);
      var p :- ReadPoint(rd);
      points := points + [p];
      i := i + 1;
    }
    PointsEnd(points, rd.bytes, rd.offset);
    return Some(points);
  }

  // ----- frame summaries ---------------------------------------------------------------------------------

  datatype FrameMatches = FrameMatches(
    keypointsLeft: Word64, keypointsRight: Word64, minDescriptors: Word64,
    postRatio: Word64, postSpatial: Word64, postRansac: Word64, points: seq<MatchedPoint>)

  const SUMMARY: seq<Width> := [W8, W8, W8, W8, W8, W8, W4]

  function SummaryFields(f: FrameMatches): (v: seq<nat>)
    ensures |v| == |SUMMARY|
  {
    [f.keypointsLeft, f.keypointsRight, f.minDescriptors, f.postRatio, f.postSpatial, f.postRansac, |f.points|]
  }

  function FrameOf(v: seq<nat>, ps: seq<MatchedPoint>): FrameMatches
    requires FitAll(SUMMARY, v)
  {
    FrameMatches(v[0], v[1], v[2], v[3], v[4], v[5], ps)
  }

  /** What the reader demands of one frame when `seen` points came before it. */
  predicate OkFrame(f: FrameMatches, seen: nat) {
    |f.points| == f.postRansac && |f.points| <= MAX_KEYPOINTS && |f.points| + seen <= MAX_CORRESPONDENCES
    && FiniteMatches(f.points)
  }

  predicate OkFrames(fs: seq<FrameMatches>, seen: nat) {
    fs == [] || (OkFrame(fs[0], seen) && OkFrames(fs[1..], seen + |fs[0].points|))
  }

  function EncFrame(f: FrameMatches): Bytes { EncFields(SUMMARY, SummaryFields(f)) + EncPoints(f.points) }

  function EncFrameList(fs: seq<FrameMatches>): Bytes {
    if fs == [] then [] else EncFrame(fs[0]) + EncFrameList(fs[1..])
  }

  function EncFrames(fs: seq<FrameMatches>): Bytes { EncField(W4, |fs|) + EncFrameList(fs) }

  /** The point-count tests of the reader, with `left` bytes still unread. */
  predicate CountAccepted(v: seq<nat>, seen: nat, left: nat)
    requires FitAll(SUMMARY, v)
  {
    v[6] <= MAX_KEYPOINTS && v[6] == v[5] && v[6] + seen <= MAX_CORRESPONDENCES && v[6] <= left / POINT_BYTES
  }

  function DecFrame(s: Bytes, o: nat, seen: nat): (r: Option<(FrameMatches, nat)>)
    requires o <= |s|
    ensures r.Some? ==> r.value.1 <= |s| && |r.value.0.points| + seen <= MAX_CORRESPONDENCES
  {
    var (v, o1) :- DecFields(SUMMARY, s, o);
    if !CountAccepted(v, seen, |s| - o1) then None
    else
      var (ps, o2) :- DecPoints(v[6], s, o1);
      Some((FrameOf(v, ps), o2))
  }

  function DecFrameList(n: nat, s: Bytes, o: nat, seen: nat): (r: Option<(seq<FrameMatches>, nat)>)
    requires o <= |s|
    ensures r.Some? ==> r.value.1 <= |s| && |r.value.0| == n
  {
    if n == 0 then Some(([], o))
    else
      var (f, o1) :- DecFrame(s, o, seen);
      var (rest, o2) :- DecFrameList(n - 1, s, o1, seen + |f.points|);
      Some(([f] + rest, o2))
  }

  function DecFrames(s: Bytes, o: nat): (r: Option<(seq<FrameMatches>, nat)>)
    ensures r.Some? ==> r.value.1 <= |s|
  {
    var (n, o1) :- DecField(W4, s, o);
    if n > MAX_FRAMES then None else DecFrameList(n, s, o1, 0)
  }

  lemma {:induction false} SummaryFits(f: FrameMatches)
    ensures |f.points| < 0x1_0000_0000 <==> FitAll(SUMMARY, SummaryFields(f))
  {
    assert FitsWidth(SUMMARY[6], SummaryFields(f)[6]) <==> |f.points| < 0x1_0000_0000;
  }

  lemma {:induction false} SummaryOf(v: seq<nat>, ps: seq<MatchedPoint>, f: FrameMatches)
    requires FitAll(SUMMARY, v) && v[6] == |ps|
    ensures FrameOf(v, ps) == f <==> v == SummaryFields(f) && ps == f.points
  {
    if FrameOf(v, ps) == f {
      assert v == SummaryFields(f);
    }
  }

  /** A frame the reader accepts leaves room for its points. */
  lemma {:induction false} PointsFitRest(s: Bytes, o: nat, ps: seq<MatchedPoint>)
    requires o <= |s| && At(s, o, EncPoints(ps))
    ensures |ps| <= (|s| - o) / POINT_BYTES
  {
    AtBound(s, o, EncPoints(ps));
    PointsSize(ps);
  }

  lemma {:induction false} FrameExact(s: Bytes, o: nat, seen: nat, f: FrameMatches, o': nat)
    requires o <= |s|
    ensures DecFrame(s, o, seen) == Some((f, o'))
      <==> OkFrame(f, seen) && At(s, o, EncFrame(f)) && o' == o + |EncFrame(f)|
  {
    hide At, EncFields, DecFields, EncPoints, DecPoints, FiniteMatches, FitAll, SummaryFields, FrameOf;
    var e := EncFields(SUMMARY, SummaryFields(f));
    AtConcat(s, o, e, EncPoints(f.points));
    FieldsExact(SUMMARY, s, o, SummaryFields(f), o + |e|);
    SummaryFits(f);
    SummaryLast(f);
    if OkFrame(f, seen) && At(s, o, EncFrame(f)) && o' == o + |EncFrame(f)| {
      assert DecFields(SUMMARY, s, o) == Some((SummaryFields(f), o + |e|));
      PointsExact(|f.points|, s, o + |e|, f.points, o');
      PointsFitRest(s, o + |e|, f.points);
      SummaryOf(SummaryFields(f), f.points, f);
    }
    if DecFrame(s, o, seen) == Some((f, o')) {
      var (v, o1) := DecFields(SUMMARY, s, o).value;
      SummaryOf(v, DecPoints(v[6], s, o1).value.0, f);
      FieldsExact(SUMMARY, s, o, v, o1);
      PointsExact(|f.points|, s, o1, f.points, o');
    }
  }

  lemma {:induction false} SummaryLast(f: FrameMatches)
    ensures |SummaryFields(f)| == 7 && SummaryFields(f)[5] == f.postRansac && SummaryFields(f)[6] == |f.points|
  {
  }

  /** The first frame decides how a list of frames decodes. */
  lemma {:induction false} FrameListHead(n: nat, s: Bytes, o: nat, seen: nat, fs: seq<FrameMatches>, o': nat)
    requires o <= |s| && n > 0 && fs != []
    ensures DecFrameList(n, s, o, seen) == Some((fs, o')) <==>
      && DecFrame(s, o, seen).Some? && DecFrame(s, o, seen).value.0 == fs[0]
      && DecFrameList(n - 1, s, DecFrame(s, o, seen).value.1, seen + |fs[0].points|) == Some((fs[1..], o'))
  {
    hide DecFrame;
    assert fs == [fs[0]] + fs[1..];
  }

  lemma {:induction false} FrameListParts(fs: seq<FrameMatches>, seen: nat)
    requires fs != []
    ensures EncFrameList(fs) == EncFrame(fs[0]) + EncFrameList(fs[1..])
    ensures OkFrames(fs, seen) <==> OkFrame(fs[0], seen) && OkFrames(fs[1..], seen + |fs[0].points|)
  {
  }

  lemma {:induction false} FrameListEmpty(s: Bytes, o: nat, seen: nat)
    requires o <= |s|
    ensures DecFrameList(0, s, o, seen) == Some(([], o)) && OkFrames([], seen) && EncFrameList([]) == []
    ensures At(s, o, [])
  {
  }

  lemma {:induction false} FrameListExact(n: nat, s: Bytes, o: nat, seen: nat, fs: seq<FrameMatches>, o': nat)
    requires o <= |s|
    ensures DecFrameList(n, s, o, seen) == Some((fs, o'))
      <==> |fs| == n && OkFrames(fs, seen) && At(s, o, EncFrameList(fs)) && o' == o + |EncFrameList(fs)|
  {
    hide At, EncFrame, DecFrame, OkFrame, DecFrameList, EncFrameList, OkFrames;
    if n == 0 {
      FrameListEmpty(s, o, seen);
    } else if |fs| == n {
      FrameListHead(n, s, o, seen, fs, o');
      FrameListParts(fs, seen);
      var o1 := o + |EncFrame(fs[0])|;
      AtConcat(s, o, EncFrame(fs[0]), EncFrameList(fs[1..]));
      FrameExact(s, o, seen, fs[0], o1);
      if DecFrame(s, o, seen).Some? {
        FrameExact(s, o, seen, DecFrame(s, o, seen).value.0, DecFrame(s, o, seen).value.1);
      }
      if DecFrame(s, o, seen) == Some((fs[0], o1)) {
        FrameListExact(n - 1, s, o1, seen + |fs[0].points|, fs[1..], o');
      }
    }
  }

  lemma {:induction false} FramesExact(s: Bytes, o: nat, fs: seq<FrameMatches>, o': nat)
    ensures DecFrames(s, o) == Some((fs, o'))
      <==> |fs| <= MAX_FRAMES && OkFrames(fs, 0) && At(s, o, EncFrames(fs)) && o' == o + |EncFrames(fs)|
  {
    hide At, EncField, DecField, EncFrameList, DecFrameList, OkFrames;
    FieldExact(W4, s, o, |fs|, o + 4);
    AtConcat(s, o, EncField(W4, |fs|), EncFrameList(fs));
    if o + 4 <= |s| {
      FrameListExact(|fs|, s, o + 4, 0, fs, o');
    }
  }

  lemma {:induction false} FrameListSplit(s: Bytes, fs: seq<FrameMatches>, i: nat)
    requires i < |fs|
    ensures s + EncFrameList(fs[i..])
      == s + EncFields(SUMMARY, SummaryFields(fs[i])) + EncPoints(fs[i].points) + EncFrameList(fs[i + 1..])
  {
    hide EncFields, EncPoints, SummaryFields;
    assert fs[i..][0] == fs[i] && fs[i..][1..] == fs[i + 1..];
    Append2(s, EncFields(SUMMARY, SummaryFields(fs[i])), EncPoints(fs[i].points));
    Append2(s, EncFrame(fs[i]), EncFrameList(fs[i + 1..]));
  }

  method WriteFrames(w: Writer, fs: seq<FrameMatches>) returns (r: Option<()>)
    requires |w.bytes| <= MAX_PAYLOAD
    requires |fs| <= MAX_FRAMES && forall f :: f in fs ==> |f.points| <= MAX_KEYPOINTS
    modifies w
    ensures Appended(old(w.bytes), EncFrames(fs), r.Some?, w.bytes)
  {
    hide EncField, EncFields, EncPoints, SummaryFields;
    Append2(w.bytes, EncField(W4, |fs|), EncFrameList(fs));
    var _ :- w.U32(|fs|);
    var i := 0;
    assert fs[0..] == fs;
    while i < |fs|
      invariant 0 <= i <= |fs| && |w.bytes| <= MAX_PAYLOAD
      invariant w.bytes + EncFrameList(fs[i..]) == old(w.bytes) + EncFrames(fs)
    {
      FrameListSplit(w.bytes, fs, i);
      SummaryFits(fs[i]);
      var _ :- w.Fields(SUMMARY, SummaryFields(fs[i]));
      var _ :- WritePoints(w, fs[i].points);
      i := i + 1;
    }
    return Some(());
  }

  method ReadFrame(rd: Reader, seen: nat) returns (r: Option<FrameMatches>)
    requires rd.Valid() && seen <= MAX_CORRESPONDENCES
    modifies rd
    ensures rd.Valid() && Read(DecFrame(rd.bytes, old(rd.offset), seen), r, rd.offset)
    ensures r.Some? ==> |r.value.points| + seen <= MAX_CORRESPONDENCES
  {
    hide DecFields, DecPoints;
    var v :- rd.Fields(SUMMARY);
    var count := v[6];
    if count > MAX_KEYPOINTS { return None; }
    if count != v[5] { return None; }
    if count > MAX_CORRESPONDENCES - seen { return None; }
    if count > (|rd.bytes| - rd.offset) / POINT_BYTES { return None; }
    var points :- ReadPoints(rd, count);
    return Some(FrameOf(v, points));
  }

  lemma {:induction false} FrameListStep(done: seq<FrameMatches>, n: nat, s: Bytes, o: nat, seen: nat)
    requires n > 0 && o <= |s|
    ensures After(done, DecFrameList(n, s, o, seen)) ==
      if DecFrame(s, o, seen).None? then None
      else
        After(done + [DecFrame(s, o, seen).value.0],
              DecFrameList(n - 1, s, DecFrame(s, o, seen).value.1, seen + |DecFrame(s, o, seen).value.0.points|))
  {
    hide DecFrame, After;
    AfterNone(done);
    if DecFrame(s, o, seen).Some? {
      var (f, o1) := DecFrame(s, o, seen).value;
      AfterNone(done + [f]);
      var rest := DecFrameList(n - 1, s, o1, seen + |f.points|);
      if rest.Some? {
        AfterOne(done, f, rest.value.0, rest.value.1);
      }
    }
  }

  lemma {:induction false} FrameListEnd(done: seq<FrameMatches>, s: Bytes, o: nat, seen: nat)
    requires o <= |s|
    ensures After(done, DecFrameList(0, s, o, seen)) == Some((done, o))
  {
    AfterAll(done, o);
  }

  method ReadFrameList(rd: Reader, count: nat) returns (r: Option<seq<FrameMatches>>)
    requires rd.Valid()
    modifies rd
    ensures rd.Valid() && Read(DecFrameList(count, rd.bytes, old(rd.offset), 0), r, rd.offset)
  {
    hide DecFrame, DecFrameList, After;
    var frames: seq<FrameMatches> := [];
    var seen: nat := 0;
    var i: nat := 0;
    while i < count
      invariant 0 <= i <= count && rd.Valid() && seen <= MAX_CORRESPONDENCES
      invariant DecFrameList(count, rd.bytes, old(rd.offset), 0)
             == After(frames, DecFrameList(count - i, rd.bytes, rd.offset, seen))
    {
      FrameListStep(frames, count - i, rd.bytes, rd.offset, seen);
      var f :- ReadFrame(rd, seen);
      seen := seen + |f.points|;
      frames := frames + [f];
      i := i + 1;
    }
    FrameListEnd(frames, rd.bytes, rd.offset, seen);
    return Some(frames);
  }

  method ReadFrames(rd: Reader) returns (r: Option<seq<FrameMatches>>)
    requires rd.Valid()
    modifies rd
    ensures rd.Valid() && Read(DecFrames(rd.bytes, old(rd.offset)), r, rd.offset)
  {
    var count :- rd.U32();
    if count > MAX_FRAMES { return None; }
    r := ReadFrameList(rd, count);
  }
}
