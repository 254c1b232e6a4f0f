/** The conversion on physical memory (cuda_rgba_to_nv12.cpp on cuda_backend.cpp): addresses reach physical bytes
    through mappings the program does not see, so it is the alias tests of `enqueue`, not the addresses, that keep
    the planes apart. */
module Nv12Aliasing {
  import opened Nv12Kernel
  import CudaAlias

  type World = CudaAlias.World
  type Cells = map<CudaAlias.Physical, Byte>

  // ----- physical memory --------------------------------------------------------------------------------

  ghost function ByteAt(w: World, cells: Cells, a: int): Byte {
    if 0 <= a && CudaAlias.PhysicalAt(w, a) in cells then cells[CudaAlias.PhysicalAt(w, a)] else 0
  }

  /** The memory that 64-bit addresses show. */
  ghost function View(w: World, cells: Cells): (m: Memory)
    ensures |m| == U64 && forall a :: 0 <= a < U64 ==> m[a] == ByteAt(w, cells, a)
  {
    seq(U64, a => ByteAt(w, cells, a))
  }

  datatype Device = Device(cells: Cells, registers: Registers)

  /** Loads and stores act on the physical bytes behind the addresses. */
  ghost function Act(j: Job, c: Color, w: World, s: Device, e: Event): Device {
    match e
    case Load(t, n) => s.(registers := s.registers[(t, n) := ByteAt(w, s.cells, LoadAddress(j, t, n))])
    case Store(t, k) =>
      var a := StoreAddress(j, t, k);
      if Ready(s.registers, t) && 0 <= a
      then s.(cells := s.cells[CudaAlias.PhysicalAt(w, a) := StoreValue(c, Gathered(s.registers, t), k)]) else s
  }

  ghost predicate Actable(j: Job, c: Color, w: World, s: Device, events: seq<Event>)
    decreases |events|
  {
    events == [] || (Enabled(j, s.registers, events[0]) && Actable(j, c, w, Act(j, c, w, s, events[0]), events[1..]))
  }

  ghost function ActAll(j: Job, c: Color, w: World, s: Device, events: seq<Event>): Device
    decreases |events|
  {
    if events == [] then s else ActAll(j, c, w, Act(j, c, w, s, events[0]), events[1..])
  }

  // ----- what the tests give ------------------------------------------------------------------------------

  predicate InPlane(p: Plane, a: int) { p.ptr <= a < p.ptr + Span(p) }

  /** The bytes a launch is about: the input's, and the output bytes it writes. */
  ghost predicate InJob(j: Job, a: int) { InPlane(j.input, a) || IsOutput(j, a) }

  /** The retained span a plane is checked by; it may be larger than the plane. */
  predicate Holds(s: CudaAlias.Span, p: Plane) { s.ptr <= p.ptr && p.ptr + Span(p) <= s.ptr + s.size }

  datatype Spans = Spans(input: CudaAlias.Span, luma: CudaAlias.Span, chroma: CudaAlias.Span)

  /** The spans were retained from the driver and hold the planes. */
  ghost predicate Retained(j: Job, spans: Spans, d: CudaAlias.Driver, w: World, g: nat) {
    && CudaAlias.ValidWorld(w, g) && CudaAlias.Reports(d, w)
    && CudaAlias.RetainedFrom(spans.input, d, w, g) && Holds(spans.input, j.input)
    && CudaAlias.RetainedFrom(spans.luma, d, w, g) && Holds(spans.luma, j.luma)
    && CudaAlias.RetainedFrom(spans.chroma, d, w, g) && Holds(spans.chroma, j.chroma)
  }

  /** The three alias tests of `enqueue` passed. */
  ghost predicate TestsPass(spans: Spans) {
    && !CudaAlias.MayAlias(spans.input, spans.luma) && !CudaAlias.MayAlias(spans.input, spans.chroma)
    && !CudaAlias.MayAlias(spans.luma, spans.chroma)
  }

  /** No physical byte stands behind two output bytes of the plane. */
  ghost predicate Unfolded(j: Job, w: World, p: Plane) {
    forall a, b :: IsOutput(j, a) && IsOutput(j, b) && InPlane(p, a) && InPlane(p, b) && 0 <= a && 0 <= b && a != b ==>
      CudaAlias.PhysicalAt(w, a) != CudaAlias.PhysicalAt(w, b)
  }

  /** No output byte is physically another byte of the job. */
  ghost predicate OutputsApart(j: Job, w: World) {
    forall a, b :: IsOutput(j, a) && InJob(j, b) && 0 <= a && 0 <= b && a != b ==>
      CudaAlias.PhysicalAt(w, a) != CudaAlias.PhysicalAt(w, b)
  }

  lemma {:induction false} PlanesApart(p: Plane, q: Plane, s: CudaAlias.Span, t: CudaAlias.Span,
                                       d: CudaAlias.Driver, w: World, g: nat)
    requires CudaAlias.ValidWorld(w, g) && CudaAlias.Reports(d, w)
    requires CudaAlias.RetainedFrom(s, d, w, g) && CudaAlias.RetainedFrom(t, d, w, g)
    requires Holds(s, p) && Holds(t, q) && !CudaAlias.MayAlias(s, t) && ValidPlane(p) && ValidPlane(q)
    ensures !Overlap(p, q)
    ensures forall a, b :: InPlane(p, a) && InPlane(q, b) && 0 <= a && 0 <= b ==>
      CudaAlias.PhysicalAt(w, a) != CudaAlias.PhysicalAt(w, b)
  {
    hide CudaAlias.ValidWorld, CudaAlias.Reports, CudaAlias.RetainedFrom, CudaAlias.PhysicalAt;
    forall a, b | InPlane(p, a) && InPlane(q, b) && 0 <= a && 0 <= b
      ensures CudaAlias.PhysicalAt(w, a) != CudaAlias.PhysicalAt(w, b)
    {
      CudaAlias.NoAliasNoSharing(s, t, d, w, g, a, b);
    }
  }

  /** The tests make the job valid and keep its outputs physically apart from everything else in it. */
  lemma {:induction false} TestsSeparate(j: Job, spans: Spans, d: CudaAlias.Driver, w: World, g: nat)
    requires ShapedJob(j) && Retained(j, spans, d, w, g) && TestsPass(spans)
    requires Unfolded(j, w, j.luma) && Unfolded(j, w, j.chroma)
    ensures ValidJob(j) && OutputsApart(j, w)
  {
    hide CudaAlias.ValidWorld, CudaAlias.Reports, CudaAlias.RetainedFrom, CudaAlias.MayAlias, CudaAlias.PhysicalAt, Holds;
    PlanesApart(j.input, j.luma, spans.input, spans.luma, d, w, g);
    PlanesApart(j.input, j.chroma, spans.input, spans.chroma, d, w, g);
    PlanesApart(j.luma, j.chroma, spans.luma, spans.chroma, d, w, g);
    assert ValidJob(j);
    hide ValidPlane, Span, IsOutput, ValidJob, ShapedJob;
    forall a, b | IsOutput(j, a) && InJob(j, b) && 0 <= a && 0 <= b && a != b
      ensures CudaAlias.PhysicalAt(w, a) != CudaAlias.PhysicalAt(w, b)
    {
      OutputInPlane(j, a);
      if IsOutput(j, b) { OutputInPlane(j, b); }
    }
  }

  lemma {:induction false} OutputInPlane(j: Job, a: int)
    requires ShapedJob(j) && IsOutput(j, a)
    ensures (InPlane(j.luma, a) || InPlane(j.chroma, a)) && 0 <= a < U64
  {
    if x, y :| 0 <= x < j.width && 0 <= y < j.height && a == Address(j.luma, y, x) {
      AddressInSpan(j.luma, y, x);
    } else {
      var x, y :| 0 <= x < j.width && 0 <= y < j.height / 2 && a == Address(j.chroma, y, x);
      AddressInSpan(j.chroma, y, x);
    }
  }

  /** Addresses of the job are 64-bit addresses. */
  lemma {:induction false} JobAddress(j: Job, a: int)
    requires ShapedJob(j) && InJob(j, a)
    ensures 0 <= a < U64
  {
    if IsOutput(j, a) {
      OutputInPlane(j, a);
    }
  }

  // ----- physical runs are runs of the addresses ----------------------------------------------------------

  /** On the job's own addresses both memories show the same bytes. */
  ghost predicate Agrees(j: Job, w: World, m: Memory, cells: Cells) {
    |m| == U64 && forall a :: InJob(j, a) ==> Fetch(m, a) == ByteAt(w, cells, a)
  }

  lemma {:induction false} StoreAgrees(j: Job, w: World, m: Memory, cells: Cells, a: int, v: Byte)
    requires OutputsApart(j, w) && Agrees(j, w, m, cells) && IsOutput(j, a) && 0 <= a < U64
    requires forall b :: InJob(j, b) ==> 0 <= b
    ensures Agrees(j, w, m[a := v], cells[CudaAlias.PhysicalAt(w, a) := v])
  {
    hide CudaAlias.PhysicalAt, Span, IsOutput;
    forall b | InJob(j, b) ensures Fetch(m[a := v], b) == ByteAt(w, cells[CudaAlias.PhysicalAt(w, a) := v], b) {
      assert Fetch(m, b) == ByteAt(w, cells, b);
    }
  }

  lemma {:induction false} ActSimulates(j: Job, c: Color, w: World, s: State, p: Device, e: Event)
    requires ValidJob(j) && OutputsApart(j, w) && Agrees(j, w, s.memory, p.cells) && s.registers == p.registers
    requires Enabled(j, p.registers, e)
    ensures Agrees(j, w, Execute(j, c, s, e).memory, Act(j, c, w, p, e).cells)
    ensures Execute(j, c, s, e).registers == Act(j, c, w, p, e).registers
  {
    match e
    case Load(t, n) =>
      LoadInside(j, t, n);
    case Store(t, k) =>
      StoreIsOutput(j, t, k);
      OutputInPlane(j, StoreAddress(j, t, k));
      forall b | InJob(j, b) ensures 0 <= b {
        JobAddress(j, b);
      }
      hide Span, IsOutput;
      StoreAgrees(j, w, s.memory, p.cells, StoreAddress(j, t, k), StoreValue(c, Gathered(p.registers, t), k));
  }

  lemma {:induction false} RunSimulates(j: Job, c: Color, w: World, s: State, p: Device, events: seq<Event>)
    requires ValidJob(j) && OutputsApart(j, w) && Agrees(j, w, s.memory, p.cells) && s.registers == p.registers
    requires Actable(j, c, w, p, events)
    ensures Executable(j, c, s, events)
    ensures Agrees(j, w, Run(j, c, s, events).memory, ActAll(j, c, w, p, events).cells)
    decreases |events|
  {
    hide ValidJob, OutputsApart, Agrees, Execute, Act, Enabled;
    if events != [] {
      ActSimulates(j, c, w, s, p, events[0]);
      RunSimulates(j, c, w, Execute(j, c, s, events[0]), Act(j, c, w, p, events[0]), events[1..]);
    }
  }

  // ----- the image in physical memory -----------------------------------------------------------------------

  /** Some output byte lies at the physical byte. */
  ghost predicate BehindOutput(j: Job, w: World, q: CudaAlias.Physical) {
    exists a: nat :: IsOutput(j, a) && CudaAlias.PhysicalAt(w, a) == q
  }

  ghost predicate OthersKept(j: Job, w: World, before: Cells, after: Cells) {
    forall q :: !BehindOutput(j, w, q) ==>
      (q in after <==> q in before) && (q in before ==> after[q] == before[q])
  }

  lemma {:induction false} RunKeepsOthers(j: Job, c: Color, w: World, p: Device, events: seq<Event>)
    requires ValidJob(j) && Actable(j, c, w, p, events)
    ensures OthersKept(j, w, p.cells, ActAll(j, c, w, p, events).cells)
    decreases |events|
  {
    if events != [] {
      var e := events[0];
      if e.Store? {
        StoreIsOutput(j, e.thread, e.k);
        OutputInPlane(j, StoreAddress(j, e.thread, e.k));
        assert BehindOutput(j, w, CudaAlias.PhysicalAt(w, StoreAddress(j, e.thread, e.k)));
      }
      hide ValidJob, Enabled, BehindOutput, CudaAlias.PhysicalAt;
      RunKeepsOthers(j, c, w, Act(j, c, w, p, e), events[1..]);
    }
  }

  /** Two memories that show the same outputs hold the same image. */
  lemma {:induction false} ImageMoves(j: Job, c: Color, before: Memory, m: Memory, n: Memory)
    requires ValidJob(j) && ImageOf(j, c, before, m)
    requires forall a :: IsOutput(j, a) ==> Fetch(n, a) == Fetch(m, a)
    ensures ImageOf(j, c, before, n)
  {
    hide Address, LoadRgb, BlockPixels, Fetch;
    forall x, y | 0 <= x < j.width && 0 <= y < j.height
      ensures Fetch(n, Address(j.luma, y, x)) == c.luma(LoadRgb(j, before, x, y))
    {
      assert IsOutput(j, Address(j.luma, y, x));
    }
    forall cx, cy | 0 <= cx < j.width / 2 && 0 <= cy < j.height / 2
      ensures Fetch(n, Address(j.chroma, cy, 2 * cx)) == c.cb(BlockPixels(j, before, cx, cy))
              && Fetch(n, Address(j.chroma, cy, 2 * cx + 1)) == c.cr(BlockPixels(j, before, cx, cy))
    {
      assert IsOutput(j, Address(j.chroma, cy, 2 * cx)) && IsOutput(j, Address(j.chroma, cy, 2 * cx + 1));
    }
  }

  /** The composed theorem: if the alias tests pass on the retained spans, and neither output plane has a physical
      byte behind two of its output bytes, then under every mapping consistent with the driver's reports, and every interleaving of the
      threads' loads and stores, physical memory ends up showing the image of the input it showed at launch, and no
      physical byte changes that is not an output byte. */
  lemma {:induction false} AliasTestsSuffice(j: Job, c: Color, spans: Spans, d: CudaAlias.Driver, w: World, g: nat,
                                             before: Cells, events: seq<Event>)
    requires ShapedJob(j) && Retained(j, spans, d, w, g) && TestsPass(spans)
    requires Unfolded(j, w, j.luma) && Unfolded(j, w, j.chroma)
    requires Actable(j, c, w, Device(before, map[]), events) && AllStores(j, StoresOf(events))
    ensures var after := ActAll(j, c, w, Device(before, map[]), events).cells;
      ImageOf(j, c, View(w, before), View(w, after)) && OthersKept(j, w, before, after)
  {
    hide Retained, TestsPass, Unfolded, OutputsApart, ImageOf, Converted, AllStores, StoresOf, OthersKept;
    TestsSeparate(j, spans, d, w, g);
    var m0 := View(w, before);
    var start, p := State(m0, map[]), Device(before, map[]);
    forall a | InJob(j, a) ensures 0 <= a < U64 {
      JobAddress(j, a);
    }
    assert Agrees(j, w, m0, before);
    RunSimulates(j, c, w, start, p, events);
    assert Mapped(j, m0);
    AnyInterleavingConverts(j, c, m0, events);
    RunKeepsOthers(j, c, w, p, events);
    var m := Run(j, c, start, events).memory;
    var after := ActAll(j, c, w, p, events).cells;
    ConvertedShows(j, c, m0, m);
    forall a | IsOutput(j, a) ensures Fetch(View(w, after), a) == Fetch(m, a) {
      assert InJob(j, a);
    }
    ImageMoves(j, c, m0, m, View(w, after));
  }

  lemma {:induction false} ConvertedShows(j: Job, c: Color, before: Memory, after: Memory)
    requires Converted(j, c, before, after)
    ensures ImageOf(j, c, before, after)
  {
  }
}
