/** Big-endian primitives of the worker protocol (calibration_worker_protocol.cpp): the `Writer` and
    `Reader` classes against encoding and decoding functions.

    Every decoder comes with one exact statement: it accepts at an offset, and returns a value and the
    next offset, precisely when a legal value's encoding stands there. */
module WireBytes {
  import opened Results

  type Byte = b: nat | b < 0x100
  type Word16 = n: nat | n < 0x1_0000
  type Word32 = n: nat | n < 0x1_0000_0000
  type Word64 = n: nat | n < 0x1_0000_0000_0000_0000
  type Bytes = seq<Byte>

  // ----- size constants, as the header composes them ----------------------------------------------

  const HEADER_BYTES: nat := 12
  const MAX_REQUEST_FRAME: nat := 64 * 1024
  const MAX_PATH: nat := 16 * 1024
  const MAX_ERROR: nat := 2 * 1024
  const MAX_FRAMES: nat := 256
  const MAX_ROI_POINTS: nat := 256
  const MAX_PROFILE_TEXT: nat := 4 * 1024
  const MAX_KEYPOINTS: nat := 8192
  const POINT_BYTES: nat := 6 * 8
  const MAX_CORRESPONDENCES: nat := MAX_FRAMES * MAX_KEYPOINTS
  const CAMERA_BYTES: nat := 2 * (2 * 4 + 8 * 8)
  const ROI_BYTES: nat := 1 + 2 * (4 + MAX_ROI_POINTS * 2 * 8)
  const PROFILE_BYTES: nat := 1 + 2 * (4 + MAX_PROFILE_TEXT) + 1 + 1 + 4 + MAX_PATH
  const PER_FRAME_BYTES: nat := 6 * 8 + 4
  const FIXED_RESULT_BYTES: nat :=
    CAMERA_BYTES + 9 * 8 + 8 + ROI_BYTES + 2 * 4 + 4 * 8 + 4 + 2 * PROFILE_BYTES + 1 + 3 * 8
  const MAX_SUCCESS_FRAME: nat :=
    HEADER_BYTES + FIXED_RESULT_BYTES + MAX_FRAMES * PER_FRAME_BYTES + MAX_CORRESPONDENCES * POINT_BYTES
  const MAX_FAILURE_FRAME: nat := HEADER_BYTES + 4 + MAX_ERROR
  const MAX_FRAME: nat := MAX_SUCCESS_FRAME

  /** The largest payload a writer may hold. */
  const MAX_PAYLOAD: nat := MAX_FRAME - HEADER_BYTES

  // ----- encodings ---------------------------------------------------------------------------------

  /** `v` shifted left by `n` bytes. */
  function Scale(v: nat, n: nat): (r: nat)
    ensures r >= v
  {
    if n == 0 then v else 0x100 * Scale(v, n - 1)
  }

  /** 256 to the power `n`. */
  function Pow256(n: nat): nat { Scale(1, n) }

  /** The `n` big-endian digits of `v` in base 256: what the shifting writers produce. */
  function Digits(n: nat, v: nat): (e: Bytes)
    ensures |e| == n
  {
    if n == 0 then [] else Digits(n - 1, v / 0x100) + [v % 0x100]
  }

  /** A fixed-width field: a byte, a boolean, or a 16-, 32- or 64-bit word. */
  datatype Width = W1 | WB | W2 | W4 | W8

  function Size(w: Width): nat {
    match w case W1 => 1 case WB => 1 case W2 => 2 case W4 => 4 case W8 => 8
  }

  predicate FitsWidth(w: Width, v: nat) {
    match w
    case W1 => v < 0x100
    case WB => v < 2
    case W2 => v < 0x1_0000
    case W4 => v < 0x1_0000_0000
    case W8 => v < 0x1_0000_0000_0000_0000
  }

  function EncField(w: Width, v: nat): (e: Bytes)
    ensures |e| == Size(w)
  {
    Digits(Size(w), v)
  }

  function Bit(v: bool): nat { if v then 1 else 0 }

  function EncText(v: Bytes): Bytes { EncField(W4, |v|) + v }

  predicate FitAll(ws: seq<Width>, vs: seq<nat>) {
    |ws| == |vs| && forall i :: 0 <= i < |ws| ==> FitsWidth(ws[i], vs[i])
  }

  function EncFields(ws: seq<Width>, vs: seq<nat>): Bytes
    requires |ws| == |vs|
  {
    if ws == [] then [] else EncField(ws[0], vs[0]) + EncFields(ws[1..], vs[1..])
  }

  function TotalSize(ws: seq<Width>): nat { if ws == [] then 0 else Size(ws[0]) + TotalSize(ws[1..]) }

  lemma {:induction false} EncFieldsSize(ws: seq<Width>, vs: seq<nat>)
    requires |ws| == |vs|
    ensures |EncFields(ws, vs)| == TotalSize(ws)
  {
    if ws != [] {
      EncFieldsSize(ws[1..], vs[1..]);
    }
  }

  // ----- what stands at an offset --------------------------------------------------------------------

  predicate At(s: Bytes, o: nat, e: Bytes) { o + |e| <= |s| && s[o..o + |e|] == e }

  /** What stands at an offset lies inside the string. */
  lemma {:induction false} AtBound(s: Bytes, o: nat, e: Bytes)
    requires At(s, o, e)
    ensures o + |e| <= |s|
  {
  }

  lemma {:induction false} AtConcat(s: Bytes, o: nat, a: Bytes, b: Bytes)
    ensures At(s, o, a + b) <==> At(s, o, a) && At(s, o + |a|, b)
  {
    if o + |a| + |b| <= |s| {
      assert s[o..o + |a + b|] == s[o..o + |a|] + s[o + |a|..o + |a| + |b|];
      if At(s, o, a + b) {
        assert (a + b)[..|a|] == a && (a + b)[|a|..] == b;
        assert s[o..o + |a|] == s[o..o + |a + b|][..|a|];
        assert s[o + |a|..o + |a| + |b|] == s[o..o + |a + b|][|a|..];
      }
    }
  }

  // ----- decoders --------------------------------------------------------------------------------------

  /** The value of `n` big-endian base-256 digits at an offset. */
  function Value(n: nat, s: Bytes, o: nat): (v: nat)
    requires o + n <= |s|
    ensures v < Pow256(n)
  {
    if n == 0 then 0 else Value(n - 1, s, o) * 0x100 + s[o + n - 1]
  }

  function DecField(w: Width, s: Bytes, o: nat): (r: Option<(nat, nat)>)
    ensures r.Some? ==> FitsWidth(w, r.value.0) && r.value.1 == o + Size(w) <= |s|
  {
    Powers();
    if o + Size(w) > |s| then None
    else
      var v := Value(Size(w), s, o);
      if w.WB? && v > 1 then None else Some((v, o + Size(w)))
  }

  function DecText(s: Bytes, o: nat, maximum: nat): (r: Option<(Bytes, nat)>)
    ensures r.Some? ==> r.value.1 <= |s|
  {
    var (size, o1) :- DecField(W4, s, o);
    if size > maximum || size > |s| - o1 then None else Some((s[o1..o1 + size], o1 + size))
  }

  function DecFields(ws: seq<Width>, s: Bytes, o: nat): (r: Option<(seq<nat>, nat)>)
    requires o <= |s|
    ensures r.Some? ==> FitAll(ws, r.value.0) && |r.value.0| == |ws| && r.value.1 <= |s|
  {
    if ws == [] then Some(([], o))
    else
      var (v, o1) :- DecField(ws[0], s, o);
      var (vs, o2) :- DecFields(ws[1..], s, o1);
      Some(([v] + vs, o2))
  }

  // ----- exactness --------------------------------------------------------------------------------------

  lemma {:induction false} Scales(v: nat)
    ensures Scale(v, 1) == 0x100 * v && Scale(v, 2) == 0x1_0000 * v && Scale(v, 4) == 0x1_0000_0000 * v
  {
    assert Scale(v, 0) == v;
    assert Scale(v, 1) == 0x100 * Scale(v, 0);
    assert Scale(v, 2) == 0x100 * Scale(v, 1);
    assert Scale(v, 3) == 0x100 * Scale(v, 2);
    assert Scale(v, 4) == 0x100 * Scale(v, 3);
  }

  lemma {:induction false} Powers()
    ensures Pow256(1) == 0x100 && Pow256(2) == 0x1_0000 && Pow256(4) == 0x1_0000_0000
    ensures Pow256(8) == 0x1_0000_0000_0000_0000
  {
    Scales(1);
    assert Scale(1, 6) == 0x1_0000_0000_0000;
  }

  /** The digits stand at an offset exactly when the bytes there have that value. */
  lemma {:induction false} DigitsExact(n: nat, s: Bytes, o: nat, v: nat)
    requires o + n <= |s| && v < Pow256(n)
    ensures At(s, o, Digits(n, v)) <==> Value(n, s, o) == v
  {
    if n > 0 {
      AtConcat(s, o, Digits(n - 1, v / 0x100), [v % 0x100]);
      DigitsExact(n - 1, s, o, v / 0x100);
      assert s[o + n - 1..o + n] == [s[o + n - 1]];
    }
  }

  lemma {:induction false} FieldExact(w: Width, s: Bytes, o: nat, v: nat, o': nat)
    ensures DecField(w, s, o) == Some((v, o'))
      <==> FitsWidth(w, v) && At(s, o, EncField(w, v)) && o' == o + Size(w)
  {
    Powers();
    if o + Size(w) <= |s| && FitsWidth(w, v) {
      DigitsExact(Size(w), s, o, v);
    }
  }

  lemma {:induction false} TextExact(s: Bytes, o: nat, maximum: Word32, v: Bytes, o': nat)
    ensures DecText(s, o, maximum) == Some((v, o'))
      <==> |v| <= maximum && At(s, o, EncText(v)) && o' == o + |EncText(v)|
  {
    if |v| <= maximum {
      AtConcat(s, o, EncField(W4, |v|), v);
      FieldExact(W4, s, o, |v|, o + 4);
    }
  }

  /** A fixed group of fields decodes where its encoding stands, and nowhere else. */
  lemma {:induction false} FieldsExact(ws: seq<Width>, s: Bytes, o: nat, vs: seq<nat>, o': nat)
    requires o <= |s|
    ensures DecFields(ws, s, o) == Some((vs, o'))
      <==> FitAll(ws, vs) && At(s, o, EncFields(ws, vs)) && o' == o + |EncFields(ws, vs)|
  {
    if ws != [] && |vs| == |ws| {
      var o1 := o + Size(ws[0]);
      AtConcat(s, o, EncField(ws[0], vs[0]), EncFields(ws[1..], vs[1..]));
      FieldExact(ws[0], s, o, vs[0], o1);
      if o1 <= |s| {
        FieldsExact(ws[1..], s, o1, vs[1..], o');
      }
      assert vs == [vs[0]] + vs[1..];
    }
  }

  // ----- shifts -----------------------------------------------------------------------------------------

  /** Splitting a word at a byte boundary splits its digits. */
  lemma {:induction false} DigitsSplit(j: nat, k: nat, high: nat, low: nat)
    requires low < Pow256(k)
    ensures Digits(j + k, Scale(high, k) + low) == Digits(j, high) + Digits(k, low)
  {
    if k > 0 {
      var p := Scale(high, k - 1);
      DigitsSplit(j, k - 1, high, low / 0x100);
      assert (0x100 * p + low) / 0x100 == p + low / 0x100;
      assert (0x100 * p + low) % 0x100 == low % 0x100;
    }
  }

  /** Joining two halves of a word reads the whole word. */
  lemma {:induction false} ValueJoin(j: nat, k: nat, s: Bytes, o: nat)
    requires o + j + k <= |s|
    ensures Value(j + k, s, o) == Scale(Value(j, s, o), k) + Value(k, s, o + j)
  {
    if k > 0 {
      ValueJoin(j, k - 1, s, o);
    }
  }

  /** The halves the source takes by shifting: `w` is the width of each. */
  lemma {:induction false} HalvesWritten(w: Width, whole: Width, high: nat, low: nat)
    requires w == W1 || w == W2 || w == W4
    requires FitsWidth(w, low) && Size(whole) == 2 * Size(w)
    ensures EncField(whole, Scale(high, Size(w)) + low) == EncField(w, high) + EncField(w, low)
  {
    Powers();
    DigitsSplit(Size(w), Size(w), high, low);
  }

  // ----- the classes ---------------------------------------------------------------------------------

  /** Whether a call that should append `e` did: on failure `e` did not fit. */
  predicate Appended(before: Bytes, e: Bytes, done: bool, after: Bytes) {
    if done then after == before + e && |after| <= MAX_PAYLOAD else |before| + |e| > MAX_PAYLOAD
  }

  /** `Writer`: bytes are appended while they fit the largest payload; None is the thrown error. */
  class Writer {
    var bytes: Bytes

    constructor ()
      ensures bytes == []
    {
      bytes := [];
    }

    method U8(v: Byte) returns (r: Option<()>)
      requires |bytes| <= MAX_PAYLOAD
      modifies this
      ensures Appended(old(bytes), EncField(W1, v), r.Some?, bytes)
    {
      if 1 > MAX_PAYLOAD - |bytes| { return None; }
      bytes := bytes + [v];
      assert Digits(1, v) == [v];
      return Some(());
    }

    method U16(v: Word16) returns (r: Option<()>)
      requires |bytes| <= MAX_PAYLOAD
      modifies this
      ensures Appended(old(bytes), EncField(W2, v), r.Some?, bytes)
    {
      Scales(v / 0x100);
      HalvesWritten(W1, W2, v / 0x100, v % 0x100);
      var _ :- U8(v / 0x100);
      r := U8(v % 0x100);
    }

    method U32(v: Word32) returns (r: Option<()>)
      requires |bytes| <= MAX_PAYLOAD
      modifies this
      ensures Appended(old(bytes), EncField(W4, v), r.Some?, bytes)
    {
      Scales(v / 0x1_0000);
      HalvesWritten(W2, W4, v / 0x1_0000, v % 0x1_0000);
      var _ :- U16(v / 0x1_0000);
      r := U16(v % 0x1_0000);
    }

    method U64(v: Word64) returns (r: Option<()>)
      requires |bytes| <= MAX_PAYLOAD
      modifies this
      ensures Appended(old(bytes), EncField(W8, v), r.Some?, bytes)
    {
      Scales(v / 0x1_0000_0000);
      HalvesWritten(W4, W8, v / 0x1_0000_0000, v % 0x1_0000_0000);
      var _ :- U32(v / 0x1_0000_0000);
      r := U32(v % 0x1_0000_0000);
    }

    method Boolean(v: bool) returns (r: Option<()>)
      requires |bytes| <= MAX_PAYLOAD
      modifies this
      ensures Appended(old(bytes), EncField(WB, Bit(v)), r.Some?, bytes)
    {
      r := U8(if v then 1 else 0);
    }

    /** A text over its own limit is refused before anything is written. */
    method Text(v: Bytes, maximum: Word32) returns (r: Option<()>)
      requires |bytes| <= MAX_PAYLOAD
      modifies this
      ensures |v| > maximum ==> r.None?
      ensures |v| <= maximum ==> Appended(old(bytes), EncText(v), r.Some?, bytes)
    {
      if |v| > maximum { return None; }
      var _ :- U32(|v|);
      if |v| > MAX_PAYLOAD - |bytes| { return None; }
      bytes := bytes + v;
      return Some(());
    }

    method Field(w: Width, v: nat) returns (r: Option<()>)
      requires FitsWidth(w, v) && |bytes| <= MAX_PAYLOAD
      modifies this
      ensures Appended(old(bytes), EncField(w, v), r.Some?, bytes)
    {
      match w
      case W1 => r := U8(v);
      case WB => r := Boolean(v == 1);
      case W2 => r := U16(v);
      case W4 => r := U32(v);
      case W8 => r := U64(v);
    }

    /** A run of fixed-width fields, one writer call each. */
    method Fields(ws: seq<Width>, vs: seq<nat>) returns (r: Option<()>)
      requires FitAll(ws, vs) && |bytes| <= MAX_PAYLOAD
      modifies this
      ensures Appended(old(bytes), EncFields(ws, vs), r.Some?, bytes)
    {
      if ws == [] { return Some(()); }
      var _ :- Field(ws[0], vs[0]);
      r := Fields(ws[1..], vs[1..]);
    }
  }

  /** Whether a read agrees with a decoder's answer: same value, and the offset moved as far. */
  ghost predicate Read<T>(answer: Option<(T, nat)>, r: Option<T>, offset: nat) {
    if r.Some? then answer == Some((r.value, offset)) else answer == None
  }

  /** `Reader`: an offset into a fixed byte string; None is the thrown error. */
  class Reader {
    const bytes: Bytes
    var offset: nat

    constructor (bytes: Bytes)
      ensures this.bytes == bytes && offset == 0
    {
      this.bytes := bytes;
      offset := 0;
    }

    predicate Valid()
      reads this
    {
      offset <= |bytes|
    }

    method U8() returns (r: Option<Byte>)
      requires Valid()
      modifies this
      ensures Valid() && Read(DecField(W1, bytes, old(offset)), r, offset)
    {
      if 1 > |bytes| - offset { return None; }
      offset := offset + 1;
      assert Value(1, bytes, offset - 1) == bytes[offset - 1];
      return Some(bytes[offset - 1]);
    }

    method U16() returns (r: Option<Word16>)
      requires Valid()
      modifies this
      ensures Valid() && Read(DecField(W2, bytes, old(offset)), r, offset)
    {
      var high :- U8();
      var low :- U8();
      Scales(high);
      ValueJoin(Size(W1), Size(W1), bytes, old(offset));
      return Some(high as nat * 0x100 + low);
    }

    method U32() returns (r: Option<Word32>)
      requires Valid()
      modifies this
      ensures Valid() && Read(DecField(W4, bytes, old(offset)), r, offset)
    {
      var high :- U16();
      var low :- U16();
      Scales(high);
      ValueJoin(Size(W2), Size(W2), bytes, old(offset));
      return Some(high as nat * 0x1_0000 + low);
    }

    method U64() returns (r: Option<Word64>)
      requires Valid()
      modifies this
      ensures Valid() && Read(DecField(W8, bytes, old(offset)), r, offset)
    {
      var high :- U32();
      var low :- U32();
      Scales(high);
      ValueJoin(Size(W4), Size(W4), bytes, old(offset));
      return Some(high as nat * 0x1_0000_0000 + low);
    }

    method Boolean() returns (r: Option<bool>)
      requires Valid()
      modifies this
      ensures Valid()
      ensures Read(DecField(WB, bytes, old(offset)), if r.Some? then Some(Bit(r.value)) else None, offset)
    {
      var v :- U8();
      if v > 1 { return None; }
      return Some(v != 0);
    }

    method Text(maximum: nat) returns (r: Option<Bytes>)
      requires Valid()
      modifies this
      ensures Valid() && Read(DecText(bytes, old(offset), maximum), r, offset)
    {
      var size :- U32();
      if size > maximum || size > |bytes| - offset { return None; }
      offset := offset + size;
      return Some(bytes[offset - size..offset]);
    }

    method Field(w: Width) returns (r: Option<nat>)
      requires Valid()
      modifies this
      ensures Valid() && Read(DecField(w, bytes, old(offset)), r, offset)
    {
      match w
      case W1 =>
        var v :- U8();
        return Some(v);
      case WB =>
        var v :- Boolean();
        return Some(Bit(v));
      case W2 =>
        var v :- U16();
        return Some(v);
      case W4 =>
        var v :- U32();
        return Some(v);
      case W8 =>
        var v :- U64();
        return Some(v);
    }

    /** A run of fixed-width fields, one reader call each. */
    method Fields(ws: seq<Width>) returns (r: Option<seq<nat>>)
      requires Valid()
      modifies this
      ensures Valid() && Read(DecFields(ws, bytes, old(offset)), r, offset)
    {
      if ws == [] { return Some([]); }
      var v :- Field(ws[0]);
      var vs :- Fields(ws[1..]);
      return Some([v] + vs);
    }
  }
}
