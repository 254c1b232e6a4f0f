/** The descriptor handshake (calibration_supervisor.cpp, calibration_worker.cpp): supervisor to guardian, then
    guardian to worker.  Marker bytes carry open files; each receiver decides from the request it decoded which
    markers to ask for.  A leg is a state machine over arbitrary short sends and receives. */
module Handshake {
  import opened Results
  import opened WireBytes
  import opened WireFrame
  import opened WireRequest

  /** An open file, whatever number each process knows it by. */
  datatype File = File(id: nat)

  /** A byte on the stream, and the open file travelling with it. */
  datatype Item = Item(byte: Byte, file: Option<File>)

  datatype Mark = Mark(marker: Byte, file: File)

  const ADMISSION: Byte := 0x4C
  const EXECUTABLE: Byte := 0x58
  const CGROUP: Byte := 0x43
  const LEFT_INPUT: Byte := 0x49
  const RIGHT_INPUT: Byte := 0x4A
  const LEFT_PROFILE: Byte := 0x4B
  const RIGHT_PROFILE: Byte := 0x4D

  function Plain(b: Bytes): (items: seq<Item>)
    ensures |items| == |b| && forall i :: 0 <= i < |b| ==> items[i] == Item(b[i], None)
  {
    if b == [] then [] else [Item(b[0], None)] + Plain(b[1..])
  }

  function Marked(ms: seq<Mark>): (items: seq<Item>)
    ensures |items| == |ms| && forall i :: 0 <= i < |ms| ==> items[i] == Item(ms[i].marker, Some(ms[i].file))
  {
    if ms == [] then [] else [Item(ms[0].marker, Some(ms[0].file))] + Marked(ms[1..])
  }

  function Markers(ms: seq<Mark>): (r: seq<Byte>)
    ensures |r| == |ms| && forall i :: 0 <= i < |ms| ==> r[i] == ms[i].marker
  {
    if ms == [] then [] else [ms[0].marker] + Markers(ms[1..])
  }

  /** The bytes a plain `recv` stores: any file that came along is dropped. */
  function BytesOf(items: seq<Item>): (b: Bytes)
    ensures |b| == |items| && forall i :: 0 <= i < |b| ==> b[i] == items[i].byte
  {
    if items == [] then [] else [items[0].byte] + BytesOf(items[1..])
  }

  // ----- the receiver ----------------------------------------------------------------------------------------

  datatype Phase = Opening | Header | Payload | Closing | Finished | Failed

  datatype Receiver = Receiver(
    phase: Phase, expected: seq<Byte>, buffer: Bytes, marks: seq<Mark>, request: Option<CalibrationRequest>)

  /** The markers a receiver asks for once it has decoded the request, in the order it asks. */
  function Expected(r: CalibrationRequest): seq<Byte> {
    (if r.left.retainedPath.Some? then [LEFT_INPUT] else [])
    + (if r.right.retainedPath.Some? then [RIGHT_INPUT] else [])
    + (if r.left.lensProfile.Some? then [LEFT_PROFILE] else [])
    + (if r.right.lensProfile.Some? then [RIGHT_PROFILE] else [])
  }

  function Start(opening: seq<Byte>): Receiver {
    Receiver(if opening == [] then Header else Opening, opening, [], [], None)
  }

  /** The payload size announced by a complete header. */
  function Announced(buffer: Bytes): (r: Option<nat>)
    requires |buffer| >= HEADER_BYTES
    ensures r.Some? ==> r.value > 0
  {
    var (m, size) :- DecHeader(buffer[..HEADER_BYTES]);
    Some(size)
  }

  /** How many bytes the next `recv` may ask for. */
  function Wanted(r: Receiver): int {
    if r.phase.Header? then HEADER_BYTES - |r.buffer|
    else if r.phase.Payload? && |r.buffer| >= HEADER_BYTES && Announced(r.buffer).Some?
      then HEADER_BYTES + Announced(r.buffer).value - |r.buffer|
    else 0
  }

  /** A `recvmsg` for one marker: the right byte with a file, or the receiver gives up. */
  function TakeMark(r: Receiver, item: Item): Receiver
    requires (r.phase.Opening? || r.phase.Closing?) && r.expected != []
  {
    if item.byte != r.expected[0] || item.file.None? then r.(phase := Failed)
    else
      var rest := r.expected[1..];
      var next := if rest != [] then r.phase else if r.phase.Opening? then Header else Finished;
      r.(phase := next, expected := rest, marks := r.marks + [Mark(item.byte, item.file.value)])
  }

  /** A `recv` into the frame buffer; a full header is decoded, a full frame decides the markers to come. */
  function TakeBytes(r: Receiver, b: Bytes, valid: CalibrationRequest -> bool): Receiver
    requires (r.phase.Header? || r.phase.Payload?) && |b| <= Wanted(r)
  {
    var buffer := r.buffer + b;
    if |b| < Wanted(r) then r.(buffer := buffer)
    else if r.phase.Header? then
      r.(phase := if Announced(buffer).Some? then Payload else Failed, buffer := buffer)
    else
      var request := DecRequest(buffer, valid);
      if request.None? then r.(phase := Failed, buffer := buffer)
      else
        var expected := Expected(request.value);
        r.(phase := if expected == [] then Finished else Closing, expected := expected, buffer := buffer,
           request := request)
  }

  // ----- a leg ------------------------------------------------------------------------------------------------

  datatype Leg = Leg(unsent: seq<Item>, wire: seq<Item>, receiver: Receiver)

  /** The sender moves some items into the socket; the receiver takes some out; or it finds the stream ended. */
  datatype Action = Send(count: nat) | Receive(count: nat) | EndOfStream

  predicate Enabled(l: Leg, a: Action) {
    match a
    case Send(n) => 1 <= n <= |l.unsent|
    case Receive(n) =>
      1 <= n <= |l.wire| &&
      (((l.receiver.phase.Opening? || l.receiver.phase.Closing?) && l.receiver.expected != [] && n == 1)
       || ((l.receiver.phase.Header? || l.receiver.phase.Payload?) && n <= Wanted(l.receiver)))
    case EndOfStream => l.unsent == [] && l.wire == [] && !l.receiver.phase.Finished? && !l.receiver.phase.Failed?
  }

  function Do(l: Leg, a: Action, valid: CalibrationRequest -> bool): Leg
    requires Enabled(l, a)
  {
    match a
    case Send(n) => Leg(l.unsent[n..], l.wire + l.unsent[..n], l.receiver)
    case Receive(n) =>
      if l.receiver.phase.Opening? || l.receiver.phase.Closing?
      then Leg(l.unsent, l.wire[1..], TakeMark(l.receiver, l.wire[0]))
      else Leg(l.unsent, l.wire[n..], TakeBytes(l.receiver, BytesOf(l.wire[..n]), valid))
    case EndOfStream => l.(receiver := l.receiver.(phase := Failed))
  }

  /** The actions of a run, each enabled where it happens. */
  predicate Runs(l: Leg, actions: seq<Action>, valid: CalibrationRequest -> bool)
    decreases |actions|
  {
    actions == [] || (Enabled(l, actions[0]) && Runs(Do(l, actions[0], valid), actions[1..], valid))
  }

  function After(l: Leg, actions: seq<Action>, valid: CalibrationRequest -> bool): Leg
    requires Runs(l, actions, valid)
    decreases |actions|
  {
    if actions == [] then l else After(Do(l, actions[0], valid), actions[1..], valid)
  }

  // ----- where a fault-free leg is ------------------------------------------------------------------------------

  /** One leg's script: files before the request, the request's frame, files after it. */
  datatype Script = Script(opening: seq<Mark>, request: CalibrationRequest, frame: Bytes, closing: seq<Mark>) {
    function Items(): (items: seq<Item>)
      ensures |items| == |opening| + |frame| + |closing|
    {
      Marked(opening) + Plain(frame) + Marked(closing)
    }
  }

  /** The frame is the encoding of a valid request, and the closing files are the ones that request calls for. */
  predicate Agreed(s: Script, valid: CalibrationRequest -> bool) {
    RequestFrame(s.request) == Some(s.frame) && valid(s.request) && Markers(s.closing) == Expected(s.request)
  }

  /** The receiver after exactly `c` items of the script. */
  function ReceiverAt(s: Script, c: nat): Receiver
    requires c <= |s.opening| + |s.frame| + |s.closing|
  {
    var f := |s.opening|;
    var e := f + |s.frame|;
    if c < f then Receiver(Opening, Markers(s.opening)[c..], [], s.opening[..c], None)
    else if c < f + HEADER_BYTES && c < e then Receiver(Header, [], s.frame[..c - f], s.opening, None)
    else if c < e then Receiver(Payload, [], s.frame[..c - f], s.opening, None)
    else
      var k := c - e;
      Receiver(if k < |s.closing| then Closing else Finished, Markers(s.closing)[k..], s.frame,
               s.opening + s.closing[..k], Some(s.request))
  }

  predicate OnScript(l: Leg, s: Script) {
    |l.wire| + |l.unsent| <= |s.Items()|
    && l.wire + l.unsent == s.Items()[|s.Items()| - |l.wire| - |l.unsent|..]
    && l.receiver == ReceiverAt(s, |s.Items()| - |l.wire| - |l.unsent|)
  }

  /** Nothing sent yet; the receiver asks for the markers it was written to ask for. */
  function Initial(s: Script, asked: seq<Byte>): Leg { Leg(s.Items(), [], Start(asked)) }

  /** What agreement means to the receiver: the frame announces its own size and decodes to the request. */
  predicate Readable(s: Script, valid: CalibrationRequest -> bool) {
    |s.frame| > HEADER_BYTES && Announced(s.frame) == Some(|s.frame| - HEADER_BYTES)
    && DecRequest(s.frame, valid) == Some(s.request) && Markers(s.closing) == Expected(s.request)
  }

  lemma {:induction false} AgreedReadable(s: Script, valid: CalibrationRequest -> bool)
    requires Agreed(s, valid)
    ensures Readable(s, valid)
  {
    hide EncHeader, DecHeader, EncRequest, DecRequest, ParseFrame, OkRequest, Expected;
    RequestBijection(s.frame, s.request, valid);
    var payload := EncRequest(s.request);
    HeaderExact(s.frame[..HEADER_BYTES], Message.Request, |payload|);
    assert s.frame[..HEADER_BYTES] == EncHeader(Message.Request, |payload|);
  }

  lemma {:induction false} AnnouncedPrefix(a: Bytes, b: Bytes)
    requires HEADER_BYTES <= |a| <= |b| && a == b[..|a|]
    ensures Announced(a) == Announced(b)
  {
    hide DecHeader;
    assert a[..HEADER_BYTES] == b[..HEADER_BYTES];
  }

  lemma {:induction false} ItemAt(s: Script, c: nat)
    requires c < |s.Items()|
    ensures c < |s.opening| ==> s.Items()[c] == Item(s.opening[c].marker, Some(s.opening[c].file))
    ensures |s.opening| <= c < |s.opening| + |s.frame| ==> s.Items()[c] == Item(s.frame[c - |s.opening|], None)
    ensures c >= |s.opening| + |s.frame| ==>
      var m := s.closing[c - |s.opening| - |s.frame|]; s.Items()[c] == Item(m.marker, Some(m.file))
  {
    hide Plain, Marked;
  }

  /** Taking the next opening marker moves the receiver one item on. */
  lemma {:induction false} OpeningAdvances(s: Script, c: nat)
    requires c < |s.opening| && |s.frame| > HEADER_BYTES
    ensures ReceiverAt(s, c).phase.Opening? && ReceiverAt(s, c).expected != []
    ensures TakeMark(ReceiverAt(s, c), Item(s.opening[c].marker, Some(s.opening[c].file))) == ReceiverAt(s, c + 1)
  {
    hide Markers;
    assert Markers(s.opening)[c..][1..] == Markers(s.opening)[c + 1..];
    assert s.opening[..c] + [s.opening[c]] == s.opening[..c + 1];
    assert c + 1 == |s.opening| ==> s.opening[..c + 1] == s.opening && s.frame[..0] == [];
  }

  /** Taking the next closing marker does too. */
  lemma {:induction false} ClosingAdvances(s: Script, k: nat)
    requires k < |s.closing|
    ensures var r := ReceiverAt(s, |s.opening| + |s.frame| + k); r.phase.Closing? && r.expected != []
    ensures TakeMark(ReceiverAt(s, |s.opening| + |s.frame| + k), Item(s.closing[k].marker, Some(s.closing[k].file)))
         == ReceiverAt(s, |s.opening| + |s.frame| + k + 1)
  {
    hide Markers;
    assert Markers(s.closing)[k..][1..] == Markers(s.closing)[k + 1..];
    assert s.opening + s.closing[..k] + [s.closing[k]] == s.opening + s.closing[..k + 1];
  }

  /** Taking the next marker of the script moves the receiver one item on. */
  lemma {:induction false} MarkAdvances(s: Script, c: nat)
    requires c < |s.Items()| && |s.frame| > HEADER_BYTES
    requires c < |s.opening| || c >= |s.opening| + |s.frame|
    ensures var r := ReceiverAt(s, c);
      (r.phase.Opening? || r.phase.Closing?) && r.expected != [] && TakeMark(r, s.Items()[c]) == ReceiverAt(s, c + 1)
  {
    hide ReceiverAt, TakeMark;
    ItemAt(s, c);
    if c < |s.opening| {
      OpeningAdvances(s, c);
    } else {
      ClosingAdvances(s, c - |s.opening| - |s.frame|);
    }
  }

  /** The frame slice a `recv` of `n` bytes takes. */
  lemma {:induction false} FrameSlice(s: Script, c: nat, n: nat)
    requires |s.opening| <= c && c + n <= |s.opening| + |s.frame|
    ensures BytesOf(s.Items()[c..c + n]) == s.frame[c - |s.opening|..c - |s.opening| + n]
  {
    hide Plain, Marked, BytesOf;
    var items := s.Items()[c..c + n];
    forall i | 0 <= i < n ensures BytesOf(items)[i] == s.frame[c - |s.opening| + i] {
      ItemAt(s, c + i);
    }
  }

  /** The receiver inside the frame. */
  lemma {:induction false} InsideFrame(s: Script, c: nat)
    requires |s.opening| <= c < |s.opening| + |s.frame|
    ensures ReceiverAt(s, c) ==
      Receiver(if c - |s.opening| < HEADER_BYTES then Header else Payload, [], s.frame[..c - |s.opening|], s.opening, None)
  {
  }

  /** The receiver once the frame is complete. */
  lemma {:induction false} AfterFrame(s: Script)
    ensures ReceiverAt(s, |s.opening| + |s.frame|) ==
      Receiver(if s.closing == [] then Finished else Closing, Markers(s.closing), s.frame, s.opening, Some(s.request))
  {
    hide Markers;
    assert s.opening + s.closing[..0] == s.opening;
    assert Markers(s.closing)[0..] == Markers(s.closing);
  }

  /** What the receiver wants inside the frame never reaches past it. */
  lemma {:induction false} WantedInside(s: Script, c: nat, valid: CalibrationRequest -> bool)
    requires Readable(s, valid) && |s.opening| <= c < |s.opening| + |s.frame|
    ensures var got := c - |s.opening|;
      Wanted(ReceiverAt(s, c)) == if got < HEADER_BYTES then HEADER_BYTES - got else |s.frame| - got
  {
    hide ReceiverAt, Announced, DecRequest, Expected, Markers;
    InsideFrame(s, c);
    var got := c - |s.opening|;
    if got >= HEADER_BYTES {
      AnnouncedPrefix(s.frame[..got], s.frame);
    }
  }

  /** Bytes that do not complete the frame. */
  lemma {:induction false} BytesWithin(s: Script, c: nat, n: nat, valid: CalibrationRequest -> bool)
    requires Readable(s, valid) && |s.opening| <= c && c + n < |s.opening| + |s.frame|
    requires 1 <= n <= Wanted(ReceiverAt(s, c))
    ensures var got := c - |s.opening|;
      TakeBytes(ReceiverAt(s, c), s.frame[got..got + n], valid) == ReceiverAt(s, c + n)
  {
    hide ReceiverAt, Wanted, Announced, DecRequest, Expected, Markers;
    WantedInside(s, c, valid);
    InsideFrame(s, c);
    InsideFrame(s, c + n);
    var got := c - |s.opening|;
    assert s.frame[..got] + s.frame[got..got + n] == s.frame[..got + n];
    if got + n >= HEADER_BYTES {
      AnnouncedPrefix(s.frame[..got + n], s.frame);
    }
  }

  /** Bytes that do. */
  lemma {:induction false} BytesComplete(s: Script, c: nat, valid: CalibrationRequest -> bool)
    requires Readable(s, valid) && |s.opening| + HEADER_BYTES <= c < |s.opening| + |s.frame|
    ensures |s.frame[c - |s.opening|..]| <= Wanted(ReceiverAt(s, c))
    ensures TakeBytes(ReceiverAt(s, c), s.frame[c - |s.opening|..], valid) == ReceiverAt(s, |s.opening| + |s.frame|)
  {
    hide ReceiverAt, Wanted, Announced, DecRequest, Expected, Markers;
    WantedInside(s, c, valid);
    InsideFrame(s, c);
    AfterFrame(s);
    var got := c - |s.opening|;
    assert s.frame[..got] + s.frame[got..] == s.frame;
    assert |Markers(s.closing)| == |s.closing|;
  }

  /** Taking the next bytes of the frame moves the receiver as many items on. */
  lemma {:induction false} BytesAdvance(s: Script, c: nat, n: nat, valid: CalibrationRequest -> bool)
    requires Readable(s, valid) && |s.opening| <= c < |s.opening| + |s.frame|
    requires 1 <= n <= Wanted(ReceiverAt(s, c))
    ensures c + n <= |s.opening| + |s.frame|
    ensures TakeBytes(ReceiverAt(s, c), BytesOf(s.Items()[c..c + n]), valid) == ReceiverAt(s, c + n)
  {
    assert |s.frame| > HEADER_BYTES;
    hide *;
    WantedInside(s, c, valid);
    InsideFrame(s, c);
    FrameSlice(s, c, n);
    if c + n < |s.opening| + |s.frame| {
      BytesWithin(s, c, n, valid);
    } else {
      BytesComplete(s, c, valid);
      assert s.frame[c - |s.opening|..] == s.frame[c - |s.opening|..c - |s.opening| + n];
    }
  }

  lemma {:induction false} TakenItems(l: Leg, s: Script, c: nat, n: nat)
    requires c + |l.wire| + |l.unsent| == |s.Items()| && l.wire + l.unsent == s.Items()[c..] && 1 <= n <= |l.wire|
    ensures l.wire[0] == s.Items()[c] && l.wire[..n] == s.Items()[c..c + n]
    ensures l.wire[n..] + l.unsent == s.Items()[c + n..]
  {
    hide Plain, Marked;
    assert l.wire[0] == (l.wire + l.unsent)[0];
    assert l.wire[..n] == (l.wire + l.unsent)[..n];
    assert l.wire[n..] + l.unsent == (l.wire + l.unsent)[n..];
  }

  lemma {:induction false} ReceiverDone(s: Script)
    ensures ReceiverAt(s, |s.opening| + |s.frame| + |s.closing|)
      == Receiver(Finished, [], s.frame, s.opening + s.closing, Some(s.request))
  {
    hide Markers;
    assert s.closing[..|s.closing|] == s.closing;
  }

  /** Where the receiver can be, by phase. */
  lemma {:induction false} PhaseAt(s: Script, c: nat)
    requires c <= |s.opening| + |s.frame| + |s.closing|
    ensures !ReceiverAt(s, c).phase.Failed?
    ensures ReceiverAt(s, c).phase.Finished? <==> c == |s.opening| + |s.frame| + |s.closing| && c >= |s.opening| + |s.frame|
    ensures |s.opening| <= c < |s.opening| + |s.frame| <==>
      ReceiverAt(s, c).phase.Header? || ReceiverAt(s, c).phase.Payload?
  {
    hide Markers;
  }

  /** No action takes a fault-free leg off its script: the receiver never fails, never reads a marker as frame
      bytes nor a frame byte as a marker, and never meets the end of the stream early. */
  lemma {:induction false} StepOnScript(l: Leg, a: Action, s: Script, valid: CalibrationRequest -> bool)
    requires Readable(s, valid) && OnScript(l, s) && Enabled(l, a)
    ensures !a.EndOfStream? && OnScript(Do(l, a, valid), s)
  {
    hide Readable, ReceiverAt, TakeMark, TakeBytes, Wanted, BytesOf, Script.Items;
    var c := |s.Items()| - |l.wire| - |l.unsent|;
    PhaseAt(s, c);
    match a
    case Send(n) =>
      assert l.wire + l.unsent[..n] + l.unsent[n..] == l.wire + l.unsent;
    case EndOfStream =>
    case Receive(n) =>
      TakenItems(l, s, c, n);
      if |s.opening| <= c < |s.opening| + |s.frame| {
        BytesAdvance(s, c, n, valid);
      } else {
        FrameIsLong(s, valid);
        MarkAdvances(s, c);
      }
  }

  lemma {:induction false} FrameIsLong(s: Script, valid: CalibrationRequest -> bool)
    requires Readable(s, valid)
    ensures |s.frame| > HEADER_BYTES
  {
  }

  lemma {:induction false} InitialOnScript(s: Script, valid: CalibrationRequest -> bool)
    requires Readable(s, valid)
    ensures OnScript(Initial(s, Markers(s.opening)), s)
  {
    hide Announced, DecRequest, Expected, Markers, Script.Items;
    assert [] + s.Items() == s.Items()[0..];
    assert s.frame[..0] == [] && s.opening[..0] == [] && Markers(s.opening)[0..] == Markers(s.opening);
  }

  // ----- runs ---------------------------------------------------------------------------------------------------

  /** Items still to be sent count twice, items on the wire once. */
  function Left(l: Leg): nat { 2 * |l.unsent| + |l.wire| }

  lemma {:induction false} StepUses(l: Leg, a: Action, valid: CalibrationRequest -> bool)
    requires Enabled(l, a) && !a.EndOfStream?
    ensures Left(Do(l, a, valid)) < Left(l)
  {
    hide TakeMark, TakeBytes, Wanted;
  }

  lemma {:induction false} RunOnScript(l: Leg, actions: seq<Action>, s: Script, valid: CalibrationRequest -> bool)
    requires Readable(s, valid) && OnScript(l, s) && Runs(l, actions, valid)
    ensures OnScript(After(l, actions, valid), s)
    ensures |actions| + Left(After(l, actions, valid)) <= Left(l)
    decreases |actions|
  {
    hide OnScript, Readable, Enabled, Do, Left;
    if actions != [] {
      StepOnScript(l, actions[0], s, valid);
      RunOnScript(Do(l, actions[0], valid), actions[1..], s, valid);
      StepUses(l, actions[0], valid);
    }
  }

  /** As long as the receiver is not finished, something can happen. */
  lemma {:induction false} Progress(l: Leg, s: Script, valid: CalibrationRequest -> bool)
    requires Readable(s, valid) && OnScript(l, s) && !l.receiver.phase.Finished?
    ensures Enabled(l, Send(1)) || Enabled(l, Receive(1))
  {
    hide Readable, ReceiverAt, Wanted, Script.Items, TakeMark;
    var c := |s.Items()| - |l.wire| - |l.unsent|;
    PhaseAt(s, c);
    if l.unsent == [] && |s.opening| <= c < |s.opening| + |s.frame| {
      WantedInside(s, c, valid);
    } else if l.unsent == [] && l.wire != [] {
      FrameIsLong(s, valid);
      MarkAdvances(s, c);
    } else if l.unsent == [] {
      FrameIsLong(s, valid);
    }
  }

  lemma {:induction false} FinishedMeansAll(l: Leg, s: Script)
    requires OnScript(l, s)
    ensures !l.receiver.phase.Failed?
    ensures l.receiver.phase.Finished? ==>
      l.unsent == [] && l.wire == [] && l.receiver == Receiver(Finished, [], s.frame, s.opening + s.closing, Some(s.request))
  {
    hide ReceiverAt, Script.Items;
    PhaseAt(s, |s.Items()| - |l.wire| - |l.unsent|);
    ReceiverDone(s);
  }

  /** Neither side of the socket can do anything any more. */
  ghost predicate Stuck(l: Leg) { forall a: Action :: !Enabled(l, a) }

  /** Every run of an agreed leg, under any schedule of short sends and receives, stays free of errors and is at
      most twice as long as the script; and a run that can go no further ends with the receiver holding the
      request that was sent and exactly the files that were sent, in order, and nothing left over. */
  lemma {:induction false} LegDelivers(s: Script, asked: seq<Byte>, actions: seq<Action>, valid: CalibrationRequest -> bool)
    requires Agreed(s, valid) && asked == Markers(s.opening) && Runs(Initial(s, asked), actions, valid)
    ensures var l := After(Initial(s, asked), actions, valid);
      && !l.receiver.phase.Failed? && |actions| <= 2 * |s.Items()|
      && (Stuck(l) ==> l.receiver.phase.Finished?)
      && (l.receiver.phase.Finished? ==>
            l.unsent == [] && l.wire == [] && l.receiver.request == Some(s.request)
            && l.receiver.buffer == s.frame && l.receiver.marks == s.opening + s.closing)
  {
    AgreedReadable(s, valid);
    hide Agreed, Readable, OnScript, Runs, After, Enabled, Script.Items;
    InitialOnScript(s, valid);
    RunOnScript(Initial(s, asked), actions, s, valid);
    var l := After(Initial(s, asked), actions, valid);
    if !l.receiver.phase.Finished? {
      Progress(l, s, valid);
    }
    FinishedMeansAll(l, s);
  }

  // ----- whatever is sent ---------------------------------------------------------------------------------------

  /** What a receiver has checked so far, whoever sends: every marker it took is one it asked for, in order, and the
      request it goes by is what its buffer decodes to. */
  predicate Checked(r: Receiver, asked: seq<Byte>, valid: CalibrationRequest -> bool) {
    match r.phase
    case Failed => true
    case Opening => r.expected != [] && Markers(r.marks) + r.expected == asked && r.buffer == []
    case Header => Markers(r.marks) == asked && |r.buffer| < HEADER_BYTES
    case Payload =>
      Markers(r.marks) == asked && |r.buffer| >= HEADER_BYTES && Announced(r.buffer).Some?
      && |r.buffer| < HEADER_BYTES + Announced(r.buffer).value
    case Closing => r.expected != [] && Markers(r.marks) + r.expected == asked + Asked(r.request) && Decoded(r, valid)
    case Finished => Markers(r.marks) == asked + Asked(r.request) && Decoded(r, valid)
  }

  function Asked(request: Option<CalibrationRequest>): seq<Byte> {
    if request.Some? then Expected(request.value) else []
  }

  predicate Decoded(r: Receiver, valid: CalibrationRequest -> bool) {
    r.request.Some? && r.request == DecRequest(r.buffer, valid)
  }

  lemma {:induction false} MarkersOfMore(ms: seq<Mark>, m: Mark)
    ensures Markers(ms + [m]) == Markers(ms) + [m.marker]
  {
    assert |Markers(ms + [m])| == |ms| + 1;
  }

  lemma {:induction false} MarkChecked(r: Receiver, item: Item, asked: seq<Byte>, valid: CalibrationRequest -> bool)
    requires (r.phase.Opening? || r.phase.Closing?) && Checked(r, asked, valid)
    ensures Checked(TakeMark(r, item), asked, valid)
    ensures TakeMark(r, item).phase.Failed? <==> item.byte != r.expected[0] || item.file.None?
  {
    hide Markers, Announced, DecRequest, Expected;
    if item.byte == r.expected[0] && item.file.Some? {
      MarkersOfMore(r.marks, Mark(item.byte, item.file.value));
      assert [item.byte] + r.expected[1..] == r.expected;
      assert Markers(r.marks) + [item.byte] + r.expected[1..] == Markers(r.marks) + r.expected;
    }
  }

  lemma {:induction false} BytesChecked(r: Receiver, b: Bytes, asked: seq<Byte>, valid: CalibrationRequest -> bool)
    requires (r.phase.Header? || r.phase.Payload?) && Checked(r, asked, valid) && |b| <= Wanted(r)
    ensures Checked(TakeBytes(r, b, valid), asked, valid)
  {
    hide Markers, Announced, DecRequest, Expected;
    var buffer := r.buffer + b;
    if r.phase.Payload? {
      AnnouncedPrefix(r.buffer, buffer);
    }
    assert asked + [] == asked;
  }

  /** Whatever is sent, under any schedule, a receiver that finishes has taken exactly the markers it was to ask for,
      before the request and after it, and its request is what it read. */
  lemma {:induction false} ReceiverSound(l: Leg, asked: seq<Byte>, actions: seq<Action>, valid: CalibrationRequest -> bool)
    requires Checked(l.receiver, asked, valid) && Runs(l, actions, valid)
    ensures var r := After(l, actions, valid).receiver;
      Checked(r, asked, valid) && (r.phase.Finished? ==>
        r.request.Some? && r.request == DecRequest(r.buffer, valid)
        && Markers(r.marks) == asked + Expected(r.request.value))
    decreases |actions|
  {
    hide TakeMark, TakeBytes, Wanted, Markers, Expected, DecRequest, Announced;
    if actions != [] {
      var next := Do(l, actions[0], valid);
      if actions[0].Receive? {
        if l.receiver.phase.Opening? || l.receiver.phase.Closing? {
          MarkChecked(l.receiver, l.wire[0], asked, valid);
        } else {
          BytesChecked(l.receiver, BytesOf(l.wire[..actions[0].count]), asked, valid);
        }
      }
      ReceiverSound(next, asked, actions[1..], valid);
    }
  }

  /** And it never waits for ever: where nothing can happen any more, it has finished or given up. */
  lemma {:induction false} NoHang(l: Leg, asked: seq<Byte>, valid: CalibrationRequest -> bool)
    requires Checked(l.receiver, asked, valid) && Stuck(l)
    ensures l.receiver.phase.Finished? || l.receiver.phase.Failed?
  {
    hide Markers, DecRequest, Announced, Expected;
    assert !Enabled(l, Send(1)) && !Enabled(l, Receive(1)) && !Enabled(l, EndOfStream);
  }

  lemma {:induction false} StartChecked(asked: seq<Byte>, valid: CalibrationRequest -> bool)
    ensures Checked(Start(asked), asked, valid)
  {
    assert [] + asked == asked;
  }

  // ----- the two legs -------------------------------------------------------------------------------------------

  /** The request as the supervisor sends it: both inputs go by descriptor path, with the identities it saw. */
  function Retain(r: CalibrationRequest, leftPath: Bytes, rightPath: Bytes,
                  left: (Option<FileIdentity>, Option<FileIdentity>), right: (Option<FileIdentity>, Option<FileIdentity>))
    : CalibrationRequest
  {
    r.(left := r.left.(retainedPath := Some(leftPath), identity := left.0, lensIdentity := left.1),
       right := r.right.(retainedPath := Some(rightPath), identity := right.0, lensIdentity := right.1))
  }

  function OptionalMark(marker: Byte, file: Option<File>): seq<Mark> {
    if file.Some? then [Mark(marker, file.value)] else []
  }

  /** What a sender transfers after the request, from the descriptors it holds. */
  function ClosingMarks(left: Option<File>, right: Option<File>, leftProfile: Option<File>, rightProfile: Option<File>)
    : seq<Mark>
  {
    OptionalMark(LEFT_INPUT, left) + OptionalMark(RIGHT_INPUT, right)
    + OptionalMark(LEFT_PROFILE, leftProfile) + OptionalMark(RIGHT_PROFILE, rightProfile)
  }

  /** `supervisor` holds both inputs, and a profile exactly when the request names one. */
  predicate SupervisorHolds(r: CalibrationRequest, leftProfile: Option<File>, rightProfile: Option<File>) {
    (leftProfile.Some? <==> r.left.lensProfile.Some?) && (rightProfile.Some? <==> r.right.lensProfile.Some?)
  }

  /** For every combination of optional profiles, the markers the supervisor sends after the request are exactly
      those the guardian asks for, in order. */
  lemma {:induction false} SupervisorMarksExpected(
    r: CalibrationRequest, leftPath: Bytes, rightPath: Bytes,
    left: (Option<FileIdentity>, Option<FileIdentity>), right: (Option<FileIdentity>, Option<FileIdentity>),
    leftInput: File, rightInput: File, leftProfile: Option<File>, rightProfile: Option<File>)
    requires SupervisorHolds(r, leftProfile, rightProfile)
    ensures Markers(ClosingMarks(Some(leftInput), Some(rightInput), leftProfile, rightProfile))
         == Expected(Retain(r, leftPath, rightPath, left, right))
         == [0x49, 0x4A] + (if r.left.lensProfile.Some? then [0x4B] else [])
            + (if r.right.lensProfile.Some? then [0x4D] else [])
  {
    MarkersOfClosing(Some(leftInput), Some(rightInput), leftProfile, rightProfile);
  }

  function OptionalByte(marker: Byte, present: bool): seq<Byte> { if present then [marker] else [] }

  lemma {:induction false} MarkersOfClosing(
    left: Option<File>, right: Option<File>, leftProfile: Option<File>, rightProfile: Option<File>)
    ensures Markers(ClosingMarks(left, right, leftProfile, rightProfile))
         == OptionalByte(LEFT_INPUT, left.Some?) + OptionalByte(RIGHT_INPUT, right.Some?)
            + OptionalByte(LEFT_PROFILE, leftProfile.Some?) + OptionalByte(RIGHT_PROFILE, rightProfile.Some?)
  {
  }

  /** The descriptor a receiver stored for a marker: the variable assigned when that marker arrived. */
  function Received(marks: seq<Mark>, marker: Byte): Option<File> {
    if marks == [] then None
    else if marks[0].marker == marker then Some(marks[0].file)
    else Received(marks[1..], marker)
  }

  lemma {:induction false} ReceivedSkips(a: seq<Mark>, b: seq<Mark>, marker: Byte)
    requires forall m :: m in a ==> m.marker != marker
    ensures Received(a + b, marker) == Received(b, marker)
  {
    if a == [] {
      assert a + b == b;
    } else {
      assert (a + b)[1..] == a[1..] + b;
      ReceivedSkips(a[1..], b, marker);
    }
  }

  /** Each received variable holds what was sent under its marker, or nothing if nothing was. */
  lemma {:induction false} ReceivedFromClosing(
    left: Option<File>, right: Option<File>, leftProfile: Option<File>, rightProfile: Option<File>)
    ensures var ms := ClosingMarks(left, right, leftProfile, rightProfile);
      && Received(ms, LEFT_INPUT) == left && Received(ms, RIGHT_INPUT) == right
      && Received(ms, LEFT_PROFILE) == leftProfile && Received(ms, RIGHT_PROFILE) == rightProfile
  {
    var a, b := OptionalMark(LEFT_INPUT, left), OptionalMark(RIGHT_INPUT, right);
    var c, d := OptionalMark(LEFT_PROFILE, leftProfile), OptionalMark(RIGHT_PROFILE, rightProfile);
    var ms := ClosingMarks(left, right, leftProfile, rightProfile);
    assert ms == a + (b + (c + d));
    ReceivedFirst(LEFT_INPUT, left, b + (c + d));
    ReceivedSkips(a, b + (c + d), RIGHT_INPUT);
    ReceivedFirst(RIGHT_INPUT, right, c + d);
    ReceivedSkips(a, b + (c + d), LEFT_PROFILE);
    ReceivedSkips(b, c + d, LEFT_PROFILE);
    ReceivedFirst(LEFT_PROFILE, leftProfile, d);
    ReceivedSkips(a, b + (c + d), RIGHT_PROFILE);
    ReceivedSkips(b, c + d, RIGHT_PROFILE);
    ReceivedSkips(c, d, RIGHT_PROFILE);
    ReceivedFirst(RIGHT_PROFILE, rightProfile, []);
    assert d + [] == d;
  }

  lemma {:induction false} ReceivedFirst(marker: Byte, file: Option<File>, rest: seq<Mark>)
    requires forall m :: m in rest ==> m.marker != marker
    ensures Received(OptionalMark(marker, file) + rest, marker) == file
  {
    if file.Some? {
    } else {
      assert OptionalMark(marker, file) + rest == rest + [];
      ReceivedSkips(rest, [], marker);
    }
  }

  /** What the guardian asks for before the request. */
  const GUARDIAN_ASKS: seq<Byte> := [ADMISSION, EXECUTABLE, CGROUP]

  /** The files the guardian was started with: the admission lock, the worker's executable, its cgroup. */
  function OpeningMarks(admission: File, executable: File, cgroup: File): seq<Mark> {
    [Mark(ADMISSION, admission), Mark(EXECUTABLE, executable), Mark(CGROUP, cgroup)]
  }

  /** Each opening variable holds the file sent under its marker, whatever is received later. */
  lemma {:induction false} ReceivedFromOpening(admission: File, executable: File, cgroup: File, rest: seq<Mark>)
    ensures var ms := OpeningMarks(admission, executable, cgroup) + rest;
      && Markers(OpeningMarks(admission, executable, cgroup)) == GUARDIAN_ASKS
      && Received(ms, ADMISSION) == Some(admission) && Received(ms, EXECUTABLE) == Some(executable)
      && Received(ms, CGROUP) == Some(cgroup)
  {
    var opening := OpeningMarks(admission, executable, cgroup);
    var ms := opening + rest;
    assert |opening| == 3 && Markers(opening) == GUARDIAN_ASKS;
    assert ms[0] == Mark(ADMISSION, admission);
    assert ms[1..][0] == Mark(EXECUTABLE, executable);
    assert ms[1..][1..][0] == Mark(CGROUP, cgroup);
    assert Received(ms[1..][1..], CGROUP) == Some(cgroup);
    assert Received(ms[1..], CGROUP) == Some(cgroup);
  }

  /** What the guardian forwards: the frame it read, byte for byte, and every descriptor it was given. */
  function Forwarded(guardian: Receiver): Script
    requires guardian.request.Some?
  {
    Script([], guardian.request.value, guardian.buffer,
           ClosingMarks(Received(guardian.marks, LEFT_INPUT), Received(guardian.marks, RIGHT_INPUT),
                        Received(guardian.marks, LEFT_PROFILE), Received(guardian.marks, RIGHT_PROFILE)))
  }

  /** A guardian that finished an agreed first leg forwards an agreed second leg, with the very same files. */
  lemma {:induction false} ForwardedAgrees(
    guardian: Receiver, s: Script, admission: File, executable: File, cgroup: File,
    left: Option<File>, right: Option<File>, leftProfile: Option<File>, rightProfile: Option<File>,
    valid: CalibrationRequest -> bool)
    requires Agreed(s, valid) && s.opening == OpeningMarks(admission, executable, cgroup)
    requires s.closing == ClosingMarks(left, right, leftProfile, rightProfile)
    requires guardian.request == Some(s.request) && guardian.buffer == s.frame && guardian.marks == s.opening + s.closing
    ensures Agreed(Forwarded(guardian), valid)
    ensures Forwarded(guardian) == s.(opening := [])
  {
    hide RequestFrame, Expected, Markers, ClosingMarks;
    ReceivedSkips(s.opening, s.closing, LEFT_INPUT);
    ReceivedSkips(s.opening, s.closing, RIGHT_INPUT);
    ReceivedSkips(s.opening, s.closing, LEFT_PROFILE);
    ReceivedSkips(s.opening, s.closing, RIGHT_PROFILE);
    ReceivedFromClosing(left, right, leftProfile, rightProfile);
  }

  /** The whole handshake: for every valid request, whichever profiles it names, and every schedule of short
      sends and receives on both sockets, neither receiver ever fails; a leg that can go no further has finished its
      receiver; and then the worker holds the request the supervisor sent and exactly the files the supervisor opened for it. */
  lemma {:induction false} HandshakeDelivers(
    s: Script, admission: File, executable: File, cgroup: File,
    left: File, right: File, leftProfile: Option<File>, rightProfile: Option<File>,
    first: seq<Action>, second: seq<Action>, valid: CalibrationRequest -> bool)
    requires RequestFrame(s.request) == Some(s.frame) && valid(s.request)
    requires s.request.left.retainedPath.Some? && s.request.right.retainedPath.Some?
    requires SupervisorHolds(s.request, leftProfile, rightProfile)
    requires s.opening == OpeningMarks(admission, executable, cgroup)
    requires s.closing == ClosingMarks(Some(left), Some(right), leftProfile, rightProfile)
    requires Runs(Initial(s, GUARDIAN_ASKS), first, valid)
    ensures Stuck(After(Initial(s, GUARDIAN_ASKS), first, valid)) ==> After(Initial(s, GUARDIAN_ASKS), first, valid).receiver.phase.Finished?
    ensures Runs(Initial(s.(opening := []), []), second, valid) && Stuck(After(Initial(s.(opening := []), []), second, valid)) ==>
      After(Initial(s.(opening := []), []), second, valid).receiver.phase.Finished?
    ensures var guardian := After(Initial(s, GUARDIAN_ASKS), first, valid).receiver;
      !guardian.phase.Failed? &&
      (guardian.phase.Finished? ==>
         && guardian.request == Some(s.request) && guardian.buffer == s.frame
         && Forwarded(guardian) == s.(opening := [])
         && Received(guardian.marks, ADMISSION) == Some(admission)
         && Received(guardian.marks, EXECUTABLE) == Some(executable)
         && Received(guardian.marks, CGROUP) == Some(cgroup))
    ensures Runs(Initial(s.(opening := []), []), second, valid) ==>
      var worker := After(Initial(s.(opening := []), []), second, valid).receiver;
      !worker.phase.Failed? &&
      (worker.phase.Finished? ==>
         && worker.request == Some(s.request) && worker.buffer == s.frame
         && Received(worker.marks, LEFT_INPUT) == Some(left) && Received(worker.marks, RIGHT_INPUT) == Some(right)
         && Received(worker.marks, LEFT_PROFILE) == leftProfile && Received(worker.marks, RIGHT_PROFILE) == rightProfile)
  {
    MarkersOfClosing(Some(left), Some(right), leftProfile, rightProfile);
    ReceivedFromOpening(admission, executable, cgroup, s.closing);
    assert Agreed(s, valid);
    hide Stuck, Runs, After, Agreed, Initial, OpeningMarks, ClosingMarks, Received, Expected, RequestFrame;
    LegDelivers(s, GUARDIAN_ASKS, first, valid);
    var guardian := After(Initial(s, GUARDIAN_ASKS), first, valid).receiver;
    if guardian.phase.Finished? {
      ForwardedAgrees(guardian, s, admission, executable, cgroup, Some(left), Some(right), leftProfile, rightProfile, valid);
    }
    if Runs(Initial(s.(opening := []), []), second, valid) {
      LegDelivers(s.(opening := []), [], second, valid);
      assert [] + s.closing == s.closing;
      ReceivedFromClosing(Some(left), Some(right), leftProfile, rightProfile);
    }
  }

}
