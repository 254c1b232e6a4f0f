/** Message frames (calibration_worker_protocol.cpp): the twelve-byte header, its size limits, and parsing. */
module WireFrame {
  import opened Results
  import opened WireBytes

  datatype Message = Request | Success | Failure

  const MESSAGE_REQUEST: nat := 1
  const MESSAGE_SUCCESS: nat := 2
  const MESSAGE_FAILURE: nat := 3
  const PROTOCOL_VERSION: nat := 4

  function Code(m: Message): Word16 {
    match m
    case Request => MESSAGE_REQUEST
    case Success => MESSAGE_SUCCESS
    case Failure => MESSAGE_FAILURE
  }

  /** `maximum_frame_bytes`. */
  function FrameLimit(m: Message): (limit: nat)
    ensures HEADER_BYTES < limit <= MAX_FRAME
  {
    match m
    case Request => MAX_REQUEST_FRAME
    case Success => MAX_SUCCESS_FRAME
    case Failure => MAX_FAILURE_FRAME
  }

  predicate PayloadAllowed(m: Message, size: nat) { 0 < size <= FrameLimit(m) - HEADER_BYTES }

  /** The letters R, C, A, L, the version, the message type and the payload size. */
  const HEADER: seq<Width> := [W1, W1, W1, W1, W2, W2, W4]

  function HeaderFields(m: Message, size: nat): (v: seq<nat>)
    requires PayloadAllowed(m, size)
    ensures FitAll(HEADER, v)
  {
    [0x52, 0x43, 0x41, 0x4C, PROTOCOL_VERSION, Code(m), size]
  }

  function EncHeader(m: Message, size: nat): (e: Bytes)
    requires PayloadAllowed(m, size)
    ensures |e| == HEADER_BYTES
  {
    EncFieldsSize(HEADER, HeaderFields(m, size));
    EncFields(HEADER, HeaderFields(m, size))
  }

  /** The greatest frames in bytes: 64 KiB for a request, header, length and 2 KiB of text for a failure; a success
      frame's limit is the size announced for 256 frames of 8192 points. */
  lemma {:induction false} LimitsExact()
    ensures FrameLimit(Message.Request) == 65536 && FrameLimit(Message.Failure) == 2064
    ensures FrameLimit(Message.Success) == 12 + FIXED_RESULT_BYTES + 256 * 52 + 2097152 * 48
  {
  }

  /** The header byte by byte: RCAL, version 4 and the message code in two bytes each, the size in four. */
  lemma {:induction false} HeaderLayout(m: Message, size: nat)
    requires PayloadAllowed(m, size)
    ensures EncHeader(m, size) ==
      [0x52, 0x43, 0x41, 0x4C, 0, 4, 0, if m.Request? then 1 else if m.Success? then 2 else 3,
       size / 0x100_0000, size / 0x1_0000 % 0x100, size / 0x100 % 0x100, size % 0x100]
  {
    LettersFirst(Code(m), size);
    LastFields(Code(m), size);
    hide EncFields;
  }

  /** The bytes of a field, by its width. */
  lemma {:induction false} FieldBytes(v: nat)
    ensures v < 0x100 ==> EncField(W1, v) == [v]
    ensures v < 0x1_0000 ==> EncField(W2, v) == [v / 0x100, v % 0x100]
    ensures v < 0x1_0000_0000 ==>
      EncField(W4, v) == [v / 0x100_0000, v / 0x1_0000 % 0x100, v / 0x100 % 0x100, v % 0x100]
  {
    var d1, d2, d3 := v / 0x100, v / 0x100 / 0x100, v / 0x100 / 0x100 / 0x100;
    assert d2 == v / 0x1_0000 && d3 == v / 0x100_0000;
    assert Digits(1, v) == [v % 0x100] && Digits(1, d1) == [d1 % 0x100] && Digits(1, d3) == [d3 % 0x100];
    assert Digits(2, v) == [d1 % 0x100, v % 0x100] && Digits(2, d2) == [d3 % 0x100, d2 % 0x100];
    assert Digits(3, d1) == [d3 % 0x100, d2 % 0x100, d1 % 0x100];
    assert Digits(4, v) == [d3 % 0x100, d2 % 0x100, d1 % 0x100, v % 0x100];
  }

  lemma {:induction false} OneMoreField(w: Width, v: nat, ws: seq<Width>, vs: seq<nat>)
    requires |ws| == |vs|
    ensures EncFields([w] + ws, [v] + vs) == EncField(w, v) + EncFields(ws, vs)
  {
    assert ([w] + ws)[1..] == ws && ([v] + vs)[1..] == vs;
  }

  lemma {:induction false} LettersFirst(code: nat, size: nat)
    ensures EncFields(HEADER, [0x52, 0x43, 0x41, 0x4C, 4, code, size]) ==
      [0x52, 0x43, 0x41, 0x4C] + EncFields([W2, W2, W4], [4, code, size])
  {
    var ws, vs := [W2, W2, W4], [4, code, size];
    TwoLetters(0x41, 0x4C, ws, vs);
    TwoLetters(0x52, 0x43, [W1, W1] + ws, [0x41, 0x4C] + vs);
    hide EncFields;
    assert HEADER == [W1, W1] + ([W1, W1] + ws);
    assert [0x52, 0x43, 0x41, 0x4C, 4, code, size] == [0x52, 0x43] + ([0x41, 0x4C] + vs);
  }

  lemma {:induction false} TwoLetters(a: Byte, b: Byte, ws: seq<Width>, vs: seq<nat>)
    requires |ws| == |vs|
    ensures EncFields([W1, W1] + ws, [a, b] + vs) == [a, b] + EncFields(ws, vs)
  {
    FieldBytes(a);
    FieldBytes(b);
    OneMoreField(W1, b, ws, vs);
    OneMoreField(W1, a, [W1] + ws, [b] + vs);
    hide EncFields, EncField;
    assert [W1, W1] + ws == [W1] + ([W1] + ws) && [a, b] + vs == [a] + ([b] + vs);
  }

  lemma {:induction false} LastFields(code: nat, size: nat)
    requires code < 0x100 && size < 0x1_0000_0000
    ensures EncFields([W2, W2, W4], [4, code, size]) ==
      [0, 4, 0, code, size / 0x100_0000, size / 0x1_0000 % 0x100, size / 0x100 % 0x100, size % 0x100]
  {
    FieldBytes(4);
    FieldBytes(code);
    FieldBytes(size);
    OneMoreField(W4, size, [], []);
    OneMoreField(W2, code, [W4], [size]);
    OneMoreField(W2, 4, [W2, W4], [code, size]);
    assert EncFields([], []) == [];
    hide EncFields, EncField;
    assert [W4] + [] == [W4] && [size] + [] == [size];
    assert [W2] + [W4] == [W2, W4] && [code] + [size] == [code, size];
    assert [W2] + [W2, W4] == [W2, W2, W4] && [4] + [code, size] == [4, code, size];
  }

  /** `frame`: None is the thrown error. */
  function Frame(m: Message, payload: Bytes): Option<Bytes> {
    if !PayloadAllowed(m, |payload|) then None else Some(EncHeader(m, |payload|) + payload)
  }

  /** The checks on the seven decoded header fields. */
  function HeaderOf(v: seq<nat>): (r: Option<(Message, nat)>)
    requires FitAll(HEADER, v)
    ensures r.Some? ==> PayloadAllowed(r.value.0, r.value.1) && HeaderFields(r.value.0, r.value.1) == v
  {
    if v[0] != 0x52 || v[1] != 0x43 || v[2] != 0x41 || v[3] != 0x4C || v[4] != PROTOCOL_VERSION then None
    else if v[5] < MESSAGE_REQUEST || v[5] > MESSAGE_FAILURE then None
    else
      var m := if v[5] == MESSAGE_REQUEST then Message.Request else if v[5] == MESSAGE_SUCCESS then Message.Success else Message.Failure;
      if PayloadAllowed(m, v[6]) then Some((m, v[6])) else None
  }

  /** `decode_calibration_worker_header` on the first twelve bytes. */
  function DecHeader(header: Bytes): (r: Option<(Message, nat)>)
    requires |header| == HEADER_BYTES
    ensures r.Some? ==> PayloadAllowed(r.value.0, r.value.1)
  {
    var (v, _) :- DecFields(HEADER, header, 0);
    HeaderOf(v)
  }

  lemma {:induction false} HeaderExact(header: Bytes, m: Message, size: nat)
    requires |header| == HEADER_BYTES
    ensures DecHeader(header) == Some((m, size)) <==> PayloadAllowed(m, size) && header == EncHeader(m, size)
  {
    hide At, EncFields, DecFields;
    if PayloadAllowed(m, size) {
      FieldsExact(HEADER, header, 0, HeaderFields(m, size), HEADER_BYTES);
      WholeIs(header, EncHeader(m, size));
      assert HeaderOf(HeaderFields(m, size)) == Some((m, size));
    }
    if DecHeader(header) == Some((m, size)) {
      var (v, o) := DecFields(HEADER, header, 0).value;
      FieldsExact(HEADER, header, 0, v, o);
      assert v == HeaderFields(m, size);
    }
  }

  lemma {:induction false} WholeIs(s: Bytes, e: Bytes)
    requires |s| == |e|
    ensures At(s, 0, e) <==> s == e
  {
  }

  /** `parse_frame`: None is the thrown error. */
  function ParseFrame(b: Bytes): Option<(Message, Bytes)> {
    if |b| < HEADER_BYTES || |b| > MAX_FRAME then None
    else
      var (m, size) :- DecHeader(b[..HEADER_BYTES]);
      if size != |b| - HEADER_BYTES then None else Some((m, b[HEADER_BYTES..]))
  }

  /** Parsing undoes framing, and accepts nothing but frames. */
  lemma {:induction false} FramingExact(b: Bytes, m: Message, payload: Bytes)
    ensures ParseFrame(b) == Some((m, payload)) <==> Frame(m, payload) == Some(b)
  {
    hide EncHeader, DecHeader;
    if Frame(m, payload) == Some(b) {
      assert b[..HEADER_BYTES] == EncHeader(m, |payload|) && b[HEADER_BYTES..] == payload;
      HeaderExact(b[..HEADER_BYTES], m, |payload|);
    }
    if ParseFrame(b) == Some((m, payload)) {
      HeaderExact(b[..HEADER_BYTES], m, |payload|);
      assert b == b[..HEADER_BYTES] + b[HEADER_BYTES..];
    }
  }

  /** The length of a frame is known from any bytes that begin with it: no frame is a proper prefix of
      another. */
  lemma {:induction false} FramesPrefixFree(a: Bytes, b: Bytes)
    requires ParseFrame(a).Some? && ParseFrame(b).Some? && a <= b
    ensures a == b
  {
    hide DecHeader;
    assert a[..HEADER_BYTES] == b[..HEADER_BYTES];
    assert |a| == |b|;
  }

  /** The writer of a header, as `frame` runs it. */
  method MakeFrame(m: Message, payload: Bytes) returns (r: Option<Bytes>)
    ensures r == Frame(m, payload)
  {
    hide EncFields;
    if payload == [] || |payload| > FrameLimit(m) - HEADER_BYTES { return None; }
    var header := new Writer();
    var done := header.Fields(HEADER, HeaderFields(m, |payload|));
    EncFieldsSize(HEADER, HeaderFields(m, |payload|));
    assert done.Some?;
    assert [] + EncHeader(m, |payload|) == EncHeader(m, |payload|);
    return Some(header.bytes + payload);
  }

  /** The reader of a header. */
  method ReadHeader(header: Bytes) returns (r: Option<(Message, nat)>)
    requires |header| == HEADER_BYTES
    ensures r == DecHeader(header)
  {
    hide DecFields, FitAll;
    var rd := new Reader(header);
    var v :- rd.Fields(HEADER);
    return HeaderOf(v);
  }

  method Parse(b: Bytes) returns (r: Option<(Message, Bytes)>)
    ensures r == ParseFrame(b)
  {
    if |b| < HEADER_BYTES || |b| > MAX_FRAME { return None; }
    var decoded :- ReadHeader(b[..HEADER_BYTES]);
    if decoded.1 != |b| - HEADER_BYTES { return None; }
    return Some((decoded.0, b[HEADER_BYTES..]));
  }
}
