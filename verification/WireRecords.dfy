/** The records inside a worker message (calibration_worker_protocol.cpp): cameras, field-of-interest
    polygons, lens profiles, file identities and per-frame matches.  Each record has an encoding, a
    decoder, the writer and reader code, and an exactness lemma tying decoder and encoding. */
module WireRecords {
  import opened Results
  import opened WireBytes

  // ----- scalars on the wire -------------------------------------------------------------------------

  type Int64 = i: int | -0x8000_0000_0000_0000 <= i < 0x8000_0000_0000_0000

  /** `std::bit_cast` of a signed word. */
  function Bits(i: Int64): Word64 { if i < 0 then i + 0x1_0000_0000_0000_0000 else i }

  function Signed(w: Word64): (i: Int64)
    ensures Bits(i) == w
  {
    if w < 0x8000_0000_0000_0000 then w else w - 0x1_0000_0000_0000_0000
  }

  lemma {:induction false} SignedOfBits(i: Int64)
    ensures Signed(Bits(i)) == i
  {
  }

  /** A double is finite when its exponent field is not all ones. */
  predicate IsFinite(double: Word64) { (double / 0x10_0000_0000_0000) % 0x800 != 0x7FF }

  /** That is, the magnitude lies below that of infinity. */
  lemma {:induction false} FiniteMagnitude(double: Word64)
    ensures IsFinite(double) <==> double % 0x8000_0000_0000_0000 < 0x7FF0_0000_0000_0000
  {
    var sign, rest := double / 0x8000_0000_0000_0000, double % 0x8000_0000_0000_0000;
    assert double / 0x10_0000_0000_0000 == 0x800 * sign + rest / 0x10_0000_0000_0000;
  }

  lemma {:induction false} FiniteListMeans(ps: seq<RoiPoint>)
    ensures FiniteList(ps) <==> forall i :: 0 <= i < |ps| ==> IsFinite(ps[i].x) && IsFinite(ps[i].y)
  {
    hide IsFinite;
    if ps != [] {
      FiniteListMeans(ps[1..]);
      assert forall i :: 1 <= i < |ps| ==> ps[i] == ps[1..][i - 1];
    }
  }

  // ----- concatenations ------------------------------------------------------------------------------

  lemma {:induction false} AtConcat3(s: Bytes, o: nat, a: Bytes, b: Bytes, c: Bytes)
    ensures At(s, o, a + b + c) <==> At(s, o, a) && At(s, o + |a|, b) && At(s, o + |a| + |b|, c)
  {
    AtConcat(s, o, a + b, c);
    AtConcat(s, o, a, b);
  }

  lemma {:induction false} AtConcat4(s: Bytes, o: nat, a: Bytes, b: Bytes, c: Bytes, d: Bytes)
    ensures At(s, o, a + b + c + d)
      <==> At(s, o, a) && At(s, o + |a|, b) && At(s, o + |a| + |b|, c) && At(s, o + |a| + |b| + |c|, d)
  {
    AtConcat(s, o, a + b + c, d);
    AtConcat3(s, o, a, b, c);
  }

  lemma {:induction false} Append2(s: Bytes, a: Bytes, b: Bytes)
    ensures s + a + b == s + (a + b)
  {
  }

  lemma {:induction false} Append3(s: Bytes, a: Bytes, b: Bytes, c: Bytes)
    ensures s + a + b + c == s + (a + b + c)
  {
  }

  lemma {:induction false} Append4(s: Bytes, a: Bytes, b: Bytes, c: Bytes, d: Bytes)
    ensures s + a + b + c + d == s + (a + b + c + d)
  {
  }

  // ----- optional 64-bit words and texts ---------------------------------------------------------------

  function EncOptText(v: Option<Bytes>): Bytes {
    if v.None? then EncField(WB, 0) else EncField(WB, 1) + EncText(v.value)
  }

  predicate OkOptText(v: Option<Bytes>, maximum: nat) { v.Some? ==> |v.value| <= maximum }

  function DecOptText(s: Bytes, o: nat, maximum: nat): (r: Option<(Option<Bytes>, nat)>)
    ensures r.Some? ==> r.value.1 <= |s|
  {
    var (present, o1) :- DecField(WB, s, o);
    if present == 0 then Some((None, o1))
    else
      var (v, o2) :- DecText(s, o1, maximum);
      Some((Some(v), o2))
  }

  lemma {:induction false} OptTextExact(s: Bytes, o: nat, maximum: Word32, v: Option<Bytes>, o': nat)
    ensures DecOptText(s, o, maximum) == Some((v, o'))
      <==> OkOptText(v, maximum) && At(s, o, EncOptText(v)) && o' == o + |EncOptText(v)|
  {
    hide At, EncField, DecField, EncText, DecText;
    FieldExact(WB, s, o, Bit(v.Some?), o + 1);
    if v.Some? {
      AtConcat(s, o, EncField(WB, 1), EncText(v.value));
      TextExact(s, o + 1, maximum, v.value, o');
    }
  }

  method WriteOptText(w: Writer, v: Option<Bytes>, maximum: Word32) returns (r: Option<()>)
    requires |w.bytes| <= MAX_PAYLOAD
    modifies w
    ensures !OkOptText(v, maximum) ==> r.None?
    ensures OkOptText(v, maximum) ==> Appended(old(w.bytes), EncOptText(v), r.Some?, w.bytes)
  {
    hide EncField, EncText;
    if v.Some? { Append2(w.bytes, EncField(WB, 1), EncText(v.value)); }
    var _ :- w.Boolean(v.Some?);
    if v.Some? {
      var _ :- w.Text(v.value, maximum);
    }
    return Some(());
  }

  method ReadOptText(rd: Reader, maximum: nat) returns (r: Option<Option<Bytes>>)
    requires rd.Valid()
    modifies rd
    ensures rd.Valid() && Read(DecOptText(rd.bytes, old(rd.offset), maximum), r, rd.offset)
  {
    var present :- rd.Boolean();
    if !present { return Some(None); }
    var v :- rd.Text(maximum);
    return Some(Some(v));
  }

  // ----- cameras ---------------------------------------------------------------------------------------

  datatype Camera = Camera(
    width: Word32, height: Word32, fx: Word64, fy: Word64, cx: Word64, cy: Word64,
    d0: Word64, d1: Word64, d2: Word64, d3: Word64)

  const CAMERA: seq<Width> := [W4, W4, W8, W8, W8, W8, W8, W8, W8, W8]

  function CameraFields(c: Camera): (v: seq<nat>)
    ensures FitAll(CAMERA, v)
  {
    [c.width, c.height, c.fx, c.fy, c.cx, c.cy, c.d0, c.d1, c.d2, c.d3]
  }

  function CameraOf(v: seq<nat>): (c: Camera)
    requires FitAll(CAMERA, v)
    ensures CameraFields(c) == v
  {
    Camera(v[0], v[1], v[2], v[3], v[4], v[5], v[6], v[7], v[8], v[9])
  }

  function EncCamera(c: Camera): Bytes { EncFields(CAMERA, CameraFields(c)) }

  function DecCamera(s: Bytes, o: nat): (r: Option<(Camera, nat)>)
    requires o <= |s|
    ensures r.Some? ==> r.value.1 <= |s|
  {
    var (v, o1) :- DecFields(CAMERA, s, o);
    Some((CameraOf(v), o1))
  }

  lemma {:induction false} CameraExact(s: Bytes, o: nat, c: Camera, o': nat)
    requires o <= |s|
    ensures DecCamera(s, o) == Some((c, o')) <==> At(s, o, EncCamera(c)) && o' == o + |EncCamera(c)|
  {
    FieldsExact(CAMERA, s, o, CameraFields(c), o');
    assert CameraOf(CameraFields(c)) == c;
  }

  method WriteCamera(w: Writer, c: Camera) returns (r: Option<()>)
    requires |w.bytes| <= MAX_PAYLOAD
    modifies w
    ensures Appended(old(w.bytes), EncCamera(c), r.Some?, w.bytes)
  {
    r := w.Fields(CAMERA, CameraFields(c));
  }

  method ReadCamera(rd: Reader) returns (r: Option<Camera>)
    requires rd.Valid()
    modifies rd
    ensures rd.Valid() && Read(DecCamera(rd.bytes, old(rd.offset)), r, rd.offset)
  {
    var v :- rd.Fields(CAMERA);
    return Some(CameraOf(v));
  }

  // ----- field-of-interest polygons ---------------------------------------------------------------------

  datatype RoiPoint = RoiPoint(x: Word64, y: Word64)

  const ROI_POINT: seq<Width> := [W8, W8]

  predicate FinitePoint(p: RoiPoint) { IsFinite(p.x) && IsFinite(p.y) }

  predicate FiniteList(ps: seq<RoiPoint>) { ps == [] || (FinitePoint(ps[0]) && FiniteList(ps[1..])) }

  predicate OkRoiPoints(ps: seq<RoiPoint>) { |ps| <= MAX_ROI_POINTS && FiniteList(ps) }

  function EncRoiPoint(p: RoiPoint): Bytes { EncFields(ROI_POINT, [p.x, p.y]) }

  function EncRoiList(ps: seq<RoiPoint>): Bytes {
    if ps == [] then [] else EncRoiPoint(ps[0]) + EncRoiList(ps[1..])
  }

  function EncRoiPoints(ps: seq<RoiPoint>): Bytes { EncField(W4, |ps|) + EncRoiList(ps) }

  function DecRoiPoint(s: Bytes, o: nat): (r: Option<(RoiPoint, nat)>)
    requires o <= |s|
    ensures r.Some? ==> r.value.1 <= |s|
  {
    var (v, o1) :- DecFields(ROI_POINT, s, o);
    var p := RoiPoint(v[0], v[1]);
    if FinitePoint(p) then Some((p, o1)) else None
  }

  function DecRoiList(n: nat, s: Bytes, o: nat): (r: Option<(seq<RoiPoint>, nat)>)
    requires o <= |s|
    ensures r.Some? ==> r.value.1 <= |s| && |r.value.0| == n
  {
    if n == 0 then Some(([], o))
    else
      var (p, o1) :- DecRoiPoint(s, o);
      var (rest, o2) :- DecRoiList(n - 1, s, o1);
      Some(([p] + rest, o2))
  }

  function DecRoiPoints(s: Bytes, o: nat): (r: Option<(seq<RoiPoint>, nat)>)
    ensures r.Some? ==> r.value.1 <= |s|
  {
    var (n, o1) :- DecField(W4, s, o);
    if n > MAX_ROI_POINTS then None else DecRoiList(n, s, o1)
  }

  lemma {:induction false} RoiPointExact(s: Bytes, o: nat, p: RoiPoint, o': nat)
    requires o <= |s|
    ensures DecRoiPoint(s, o) == Some((p, o'))
      <==> FinitePoint(p) && At(s, o, EncRoiPoint(p)) && o' == o + |EncRoiPoint(p)|
  {
    hide At, EncFields, DecFields, IsFinite;
    FieldsExact(ROI_POINT, s, o, [p.x, p.y], o');
    var d := DecFields(ROI_POINT, s, o);
    if d.Some? {
      assert d.value.0 == [d.value.0[0], d.value.0[1]];
    }
  }

  lemma {:induction false} RoiListExact(n: nat, s: Bytes, o: nat, ps: seq<RoiPoint>, o': nat)
    requires o <= |s|
    ensures DecRoiList(n, s, o) == Some((ps, o'))
      <==> |ps| == n && FiniteList(ps) && At(s, o, EncRoiList(ps)) && o' == o + |EncRoiList(ps)|
  {
    if n > 0 && |ps| == n {
      hide At, EncRoiPoint, DecRoiPoint, FinitePoint;
      var o1 := o + |EncRoiPoint(ps[0])|;
      AtConcat(s, o, EncRoiPoint(ps[0]), EncRoiList(ps[1..]));
      RoiPointExact(s, o, ps[0], o1);
      if DecRoiPoint(s, o).Some? {
        RoiPointExact(s, o, DecRoiPoint(s, o).value.0, DecRoiPoint(s, o).value.1);
      }
      if DecRoiPoint(s, o) == Some((ps[0], o1)) {
        RoiListExact(n - 1, s, o1, ps[1..], o');
      }
      assert ps == [ps[0]] + ps[1..];
    }
  }

  lemma {:induction false} RoiPointsExact(s: Bytes, o: nat, ps: seq<RoiPoint>, o': nat)
    ensures DecRoiPoints(s, o) == Some((ps, o'))
      <==> OkRoiPoints(ps) && At(s, o, EncRoiPoints(ps)) && o' == o + |EncRoiPoints(ps)|
  {
    hide At, EncField, DecField, EncRoiList, DecRoiList, FiniteList;
    FieldExact(W4, s, o, |ps|, o + 4);
    AtConcat(s, o, EncField(W4, |ps|), EncRoiList(ps));
    if o + 4 <= |s| {
      RoiListExact(|ps|, s, o + 4, ps, o');
    }
  }

  /** `write_roi_points`: the count, then each point after its finiteness check. */
  method WriteRoiPoints(w: Writer, ps: seq<RoiPoint>) returns (r: Option<()>)
    requires |w.bytes| <= MAX_PAYLOAD
    modifies w
    ensures !OkRoiPoints(ps) ==> r.None?
    ensures OkRoiPoints(ps) ==> Appended(old(w.bytes), EncRoiPoints(ps), r.Some?, w.bytes)
  {
    hide EncField, EncFields, FinitePoint;
    if |ps| > MAX_ROI_POINTS { return None; }
    var _ :- w.U32(|ps|);
    Append2(old(w.bytes), EncField(W4, |ps|), EncRoiList(ps));
    var i := 0;
    assert ps[0..] == ps;
    while i < |ps|
      invariant 0 <= i <= |ps| && |w.bytes| <= MAX_PAYLOAD
      invariant FiniteList(ps) <==> FiniteList(ps[i..])
      invariant w.bytes + EncRoiList(ps[i..]) == old(w.bytes) + EncRoiPoints(ps)
    {
      if !FinitePoint(ps[i]) { return None; }
      var _ :- w.Fields(ROI_POINT, [ps[i].x, ps[i].y]);
      i := i + 1;
    }
    return Some(());
  }

  /** What a decoder of the rest gives once `done` elements were read. */
  function After<T>(done: seq<T>, rest: Option<(seq<T>, nat)>): (r: Option<(seq<T>, nat)>)
    ensures done == [] ==> r == rest
  {
    if rest.None? then None
    else
      assert [] + rest.value.0 == rest.value.0;
      Some((done + rest.value.0, rest.value.1))
  }

  lemma {:induction false} AfterOne<T>(done: seq<T>, x: T, rest: seq<T>, o: nat)
    ensures After(done, Some(([x] + rest, o))) == After(done + [x], Some((rest, o)))
  {
    assert done + ([x] + rest) == done + [x] + rest;
  }

  lemma {:induction false} AfterAll<T>(done: seq<T>, o: nat)
    ensures After(done, Some(([], o))) == Some((done, o))
  {
    assert done + [] == done;
  }

  lemma {:induction false} RoiListStep(done: seq<RoiPoint>, n: nat, s: Bytes, o: nat)
    requires n > 0 && o <= |s|
    ensures After(done, DecRoiList(n, s, o)) ==
      if DecRoiPoint(s, o).None? then None
      else After(done + [DecRoiPoint(s, o).value.0], DecRoiList(n - 1, s, DecRoiPoint(s, o).value.1))
  {
    hide DecRoiPoint, After;
    if DecRoiPoint(s, o).Some? && DecRoiList(n - 1, s, DecRoiPoint(s, o).value.1).Some? {
      var (rest, o2) := DecRoiList(n - 1, s, DecRoiPoint(s, o).value.1).value;
      AfterOne(done, DecRoiPoint(s, o).value.0, rest, o2);
    } else {
      AfterNone(done);
      if DecRoiPoint(s, o).Some? { AfterNone(done + [DecRoiPoint(s, o).value.0]); }
    }
  }

  lemma {:induction false} AfterNone<T>(done: seq<T>)
    ensures After<T>(done, None) == None
  {
  }

  lemma {:induction false} RoiListEnd(done: seq<RoiPoint>, s: Bytes, o: nat)
    requires o <= |s|
    ensures After(done, DecRoiList(0, s, o)) == Some((done, o))
  {
    AfterAll(done, o);
  }

  method ReadRoiPoint(rd: Reader) returns (r: Option<RoiPoint>)
    requires rd.Valid()
    modifies rd
    ensures rd.Valid() && Read(DecRoiPoint(rd.bytes, old(rd.offset)), r, rd.offset)
  {
    hide DecFields, IsFinite;
    var v :- rd.Fields(ROI_POINT);
    var p := RoiPoint(v[0], v[1]);
    if !FinitePoint(p) { return None; }
    return Some(p);
  }

  method ReadRoiList(rd: Reader, count: nat) returns (r: Option<seq<RoiPoint>>)
    requires rd.Valid()
    modifies rd
    ensures rd.Valid() && Read(DecRoiList(count, rd.bytes, old(rd.offset)), r, rd.offset)
  {
    hide DecRoiPoint, DecRoiList, After;
    var points: seq<RoiPoint> := [];
    var i: nat := 0;
    while i < count
      invariant 0 <= i <= count && rd.Valid()
      invariant DecRoiList(count, rd.bytes, old(rd.offset)) == After(points, DecRoiList(count - i, rd.bytes, rd.offset))
    {
      RoiListStep(points, count - i, rd.bytes, rd.offset);
      var p :- ReadRoiPoint(rd);
      points := points + [p];
      i := i + 1;
    }
    RoiListEnd(points, rd.bytes, rd.offset);
    return Some(points);
  }

  method ReadRoiPoints(rd: Reader) returns (r: Option<seq<RoiPoint>>)
    requires rd.Valid()
    modifies rd
    ensures rd.Valid() && Read(DecRoiPoints(rd.bytes, old(rd.offset)), r, rd.offset)
  {
    hide DecField, DecRoiList;
    var count :- rd.U32();
    if count > MAX_ROI_POINTS { return None; }
    r := ReadRoiList(rd, count);
  }

  datatype Roi = Roi(left: seq<RoiPoint>, right: seq<RoiPoint>)

  predicate OkRoi(v: Option<Roi>) { v.Some? ==> OkRoiPoints(v.value.left) && OkRoiPoints(v.value.right) }

  function EncRoi(v: Option<Roi>): Bytes {
    if v.None? then EncField(WB, 0)
    else EncField(WB, 1) + EncRoiPoints(v.value.left) + EncRoiPoints(v.value.right)
  }

  function DecRoi(s: Bytes, o: nat): (r: Option<(Option<Roi>, nat)>)
    ensures r.Some? ==> r.value.1 <= |s|
  {
    var (present, o1) :- DecField(WB, s, o);
    if present == 0 then Some((None, o1))
    else
      var (left, o2) :- DecRoiPoints(s, o1);
      var (right, o3) :- DecRoiPoints(s, o2);
      Some((Some(Roi(left, right)), o3))
  }

  lemma {:induction false} RoiExact(s: Bytes, o: nat, v: Option<Roi>, o': nat)
    ensures DecRoi(s, o) == Some((v, o')) <==> OkRoi(v) && At(s, o, EncRoi(v)) && o' == o + |EncRoi(v)|
  {
    hide At, EncField, DecField, EncRoiPoints, DecRoiPoints, OkRoiPoints;
    FieldExact(WB, s, o, Bit(v.Some?), o + 1);
    if v.Some? {
      var left, right := EncRoiPoints(v.value.left), EncRoiPoints(v.value.right);
      AtConcat3(s, o, EncField(WB, 1), left, right);
      RoiPointsExact(s, o + 1, v.value.left, o + 1 + |left|);
      RoiPointsExact(s, o + 1 + |left|, v.value.right, o');
      if DecRoiPoints(s, o + 1).Some? {
        RoiPointsExact(s, o + 1, DecRoiPoints(s, o + 1).value.0, DecRoiPoints(s, o + 1).value.1);
      }
    }
  }

  method WriteRoi(w: Writer, v: Option<Roi>) returns (r: Option<()>)
    requires |w.bytes| <= MAX_PAYLOAD
    modifies w
    ensures !OkRoi(v) ==> r.None?
    ensures OkRoi(v) ==> Appended(old(w.bytes), EncRoi(v), r.Some?, w.bytes)
  {
    hide EncField, EncRoiPoints, OkRoiPoints;
    if v.Some? {
      Append3(w.bytes, EncField(WB, 1), EncRoiPoints(v.value.left), EncRoiPoints(v.value.right));
    }
    var _ :- w.Boolean(v.Some?);
    if v.Some? {
      var _ :- WriteRoiPoints(w, v.value.left);
      var _ :- WriteRoiPoints(w, v.value.right);
    }
    return Some(());
  }

  method ReadRoi(rd: Reader) returns (r: Option<Option<Roi>>)
    requires rd.Valid()
    modifies rd
    ensures rd.Valid() && Read(DecRoi(rd.bytes, old(rd.offset)), r, rd.offset)
  {
    var present :- rd.Boolean();
    if !present { return Some(None); }
    var left :- ReadRoiPoints(rd);
    var right :- ReadRoiPoints(rd);
    return Some(Some(Roi(left, right)));
  }

  // ----- lens profiles ------------------------------------------------------------------------------------

  type Source = b: nat | b <= 3

  datatype Profile = Profile(camera: Bytes, lens: Bytes, source: Source, path: Option<Bytes>)

  predicate OkProfile(v: Option<Profile>) {
    v.Some? ==>
      |v.value.camera| <= MAX_PROFILE_TEXT && |v.value.lens| <= MAX_PROFILE_TEXT && OkOptText(v.value.path, MAX_PATH)
  }

  function EncProfileBody(p: Profile): Bytes {
    EncText(p.camera) + EncText(p.lens) + EncField(W1, p.source) + EncOptText(p.path)
  }

  function EncProfile(v: Option<Profile>): Bytes {
    if v.None? then EncField(WB, 0) else EncField(WB, 1) + EncProfileBody(v.value)
  }

  function DecProfileBody(s: Bytes, o: nat): (r: Option<(Profile, nat)>)
    ensures r.Some? ==> r.value.1 <= |s|
  {
    var (camera, o1) :- DecText(s, o, MAX_PROFILE_TEXT);
    var (lens, o2) :- DecText(s, o1, MAX_PROFILE_TEXT);
    var (source, o3) :- DecField(W1, s, o2);
    if source > 3 then None
    else
      var (path, o4) :- DecOptText(s, o3, MAX_PATH);
      Some((Profile(camera, lens, source, path), o4))
  }

  function DecProfile(s: Bytes, o: nat): (r: Option<(Option<Profile>, nat)>)
    ensures r.Some? ==> r.value.1 <= |s|
  {
    var (present, o1) :- DecField(WB, s, o);
    if present == 0 then Some((None, o1))
    else
      var (p, o2) :- DecProfileBody(s, o1);
      Some((Some(p), o2))
  }

  lemma {:induction false} ProfileBodyExact(s: Bytes, o: nat, p: Profile, o': nat)
    ensures DecProfileBody(s, o) == Some((p, o'))
      <==> OkProfile(Some(p)) && At(s, o, EncProfileBody(p)) && o' == o + |EncProfileBody(p)|
  {
    hide At, EncField, DecField, EncText, DecText, EncOptText, DecOptText, OkOptText;
    var a, b, c := EncText(p.camera), EncText(p.lens), EncField(W1, p.source);
    AtConcat4(s, o, a, b, c, EncOptText(p.path));
    TextExact(s, o, MAX_PROFILE_TEXT, p.camera, o + |a|);
    TextExact(s, o + |a|, MAX_PROFILE_TEXT, p.lens, o + |a| + |b|);
    FieldExact(W1, s, o + |a| + |b|, p.source, o + |a| + |b| + |c|);
    OptTextExact(s, o + |a| + |b| + |c|, MAX_PATH, p.path, o');
    if DecProfileBody(s, o) == Some((p, o')) {
      var (camera, o1) := DecText(s, o, MAX_PROFILE_TEXT).value;
      TextExact(s, o, MAX_PROFILE_TEXT, camera, o1);
      var (lens, o2) := DecText(s, o1, MAX_PROFILE_TEXT).value;
      TextExact(s, o1, MAX_PROFILE_TEXT, lens, o2);
    }
  }

  lemma {:induction false} ProfileExact(s: Bytes, o: nat, v: Option<Profile>, o': nat)
    ensures DecProfile(s, o) == Some((v, o'))
      <==> OkProfile(v) && At(s, o, EncProfile(v)) && o' == o + |EncProfile(v)|
  {
    hide At, EncField, DecField, EncProfileBody, DecProfileBody, OkProfile;
    FieldExact(WB, s, o, Bit(v.Some?), o + 1);
    if v.Some? {
      AtConcat(s, o, EncField(WB, 1), EncProfileBody(v.value));
      ProfileBodyExact(s, o + 1, v.value, o');
    } else {
      NoProfile();
    }
  }

  lemma {:induction false} NoProfile()
    ensures OkProfile(None)
  {
  }

  method WriteProfileBody(w: Writer, p: Profile) returns (r: Option<()>)
    requires |w.bytes| <= MAX_PAYLOAD
    modifies w
    ensures !OkProfile(Some(p)) ==> r.None?
    ensures OkProfile(Some(p)) ==> Appended(old(w.bytes), EncProfileBody(p), r.Some?, w.bytes)
  {
    hide EncField, EncText, EncOptText;
    Append4(w.bytes, EncText(p.camera), EncText(p.lens), EncField(W1, p.source), EncOptText(p.path));
    var _ :- w.Text(p.camera, MAX_PROFILE_TEXT);
    var _ :- w.Text(p.lens, MAX_PROFILE_TEXT);
    var _ :- w.U8(p.source);
    r := WriteOptText(w, p.path, MAX_PATH);
  }

  method WriteProfile(w: Writer, v: Option<Profile>) returns (r: Option<()>)
    requires |w.bytes| <= MAX_PAYLOAD
    modifies w
    ensures !OkProfile(v) ==> r.None?
    ensures OkProfile(v) ==> Appended(old(w.bytes), EncProfile(v), r.Some?, w.bytes)
  {
    hide EncField, EncProfileBody, OkProfile;
    if v.Some? { Append2(w.bytes, EncField(WB, 1), EncProfileBody(v.value)); } else { NoProfile(); }
    var _ :- w.Boolean(v.Some?);
    if v.Some? {
      var _ :- WriteProfileBody(w, v.value);
    }
    return Some(());
  }

  method ReadProfile(rd: Reader) returns (r: Option<Option<Profile>>)
    requires rd.Valid()
    modifies rd
    ensures rd.Valid() && Read(DecProfile(rd.bytes, old(rd.offset)), r, rd.offset)
  {
    var present :- rd.Boolean();
    if !present { return Some(None); }
    var camera :- rd.Text(MAX_PROFILE_TEXT);
    var lens :- rd.Text(MAX_PROFILE_TEXT);
    var source :- rd.U8();
    if source > 3 { return None; }
    var path :- ReadOptText(rd, MAX_PATH);
    return Some(Some(Profile(camera, lens, source, path)));
  }
}
