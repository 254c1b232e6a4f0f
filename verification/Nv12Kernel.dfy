/** The RGBA to NV12 conversion kernel, its grid and the plane views it runs on (cuda_rgba_to_nv12.cpp,
    cuda_frame.cpp).  Threads interleave at every single load and store; colour arithmetic is a parameter. */
module Nv12Kernel {
  import opened Arithmetic
  import opened Results

  const U32: nat := 0x1_0000_0000
  const U64: nat := 0x1_0000_0000_0000_0000
  const BLOCK: nat := 16
  const MAX_GRID_X: nat := 2147483647
  const MAX_GRID_Y: nat := 65535

  // ----- pitched planes ----------------------------------------------------------------------------

  datatype Plane = Plane(ptr: nat, pitch: nat, rowBytes: nat, rows: nat)

  function Span(p: Plane): int { (p.rows - 1) * p.pitch + p.rowBytes }

  /** `checked_address_span`: the overflow test divides instead of multiplying. */
  function CheckedAddressSpan(pitch: nat, rowBytes: nat, rows: nat): (r: Option<nat>)
    requires 0 < rows && 0 < rowBytes < U64
  {
    var preceding := rows - 1;
    if preceding != 0 && pitch > (U64 - 1 - rowBytes) / preceding then None
    else
      assert preceding * pitch >= 0;
      Some(preceding * pitch + rowBytes)
  }

  /** The test refuses exactly the spans that do not fit 64 bits. */
  lemma {:induction false} CheckedAddressSpanExact(pitch: nat, rowBytes: nat, rows: nat)
    requires 0 < rows && 0 < rowBytes < U64
    ensures CheckedAddressSpan(pitch, rowBytes, rows)
         == if (rows - 1) * pitch + rowBytes < U64 then Some((rows - 1) * pitch + rowBytes) else None
  {
    var n, room := rows - 1, U64 - 1 - rowBytes;
    if n != 0 {
      var q := room / n;
      assert room == q * n + room % n;
      if pitch > q {
        ProductBound(q + 1, pitch, n, n);
        assert (q + 1) * n == q * n + n;
      } else {
        ProductBound(pitch, q, n, n);
      }
    }
  }

  /** The checks of the pitched-plane constructor that concern addresses. */
  function MakePlane(ptr: nat, accessible: nat, pitch: nat, rowBytes: nat, rows: nat): (r: Option<Plane>)
    requires ptr < U64 && accessible < U64 && pitch < U64 && rowBytes < U64 && rows < U32
    ensures r.Some? ==> ValidPlane(r.value) && r.value == Plane(ptr, pitch, rowBytes, rows)
                        && Span(r.value) <= accessible
  {
    if ptr == 0 || rowBytes == 0 || rows == 0 || pitch < rowBytes then None
    else
      var span :- CheckedAddressSpan(pitch, rowBytes, rows);
      CheckedAddressSpanExact(pitch, rowBytes, rows);
      if accessible < span || span - 1 > U64 - 1 - ptr || accessible - 1 > U64 - 1 - ptr then None
      else Some(Plane(ptr, pitch, rowBytes, rows))
  }

  predicate ValidPlane(p: Plane) {
    0 < p.ptr && 0 < p.rowBytes <= p.pitch && 0 < p.rows && p.ptr + Span(p) <= U64
  }

  predicate Overlap(a: Plane, b: Plane) {
    a.ptr <= b.ptr + Span(b) - 1 && b.ptr <= a.ptr + Span(a) - 1
  }

  /** `row * pitch`, unrolled. */
  function RowOffset(pitch: nat, row: nat): nat { if row == 0 then 0 else pitch + RowOffset(pitch, row - 1) }

  lemma {:induction false} RowOffsetIsProduct(pitch: nat, row: nat)
    ensures RowOffset(pitch, row) == row * pitch
  {
    if row > 0 {
      RowOffsetIsProduct(pitch, row - 1);
      assert row * pitch == pitch + (row - 1) * pitch;
    }
  }

  function Address(p: Plane, row: nat, column: nat): int { p.ptr + RowOffset(p.pitch, row) + column }

  lemma {:induction false} AddressInSpan(p: Plane, row: nat, column: nat)
    requires ValidPlane(p) && row < p.rows && column < p.rowBytes
    ensures p.ptr <= Address(p, row, column) < p.ptr + Span(p) <= U64
    ensures row * p.pitch + column < U64
  {
    RowOffsetIsProduct(p.pitch, row);
    ProductBound(row, p.rows - 1, p.pitch, p.pitch);
  }

  lemma {:induction false} AddressInjective(p: Plane, r1: nat, c1: nat, r2: nat, c2: nat)
    requires ValidPlane(p) && c1 < p.rowBytes && c2 < p.rowBytes
    requires Address(p, r1, c1) == Address(p, r2, c2)
    ensures r1 == r2 && c1 == c2
  {
    RowOffsetIsProduct(p.pitch, r1);
    RowOffsetIsProduct(p.pitch, r2);
    assert (r1 - r2) * p.pitch == r1 * p.pitch - r2 * p.pitch == c2 - c1;
    SmallMultiple(r1 - r2, p.pitch);
  }

  // ----- the launch --------------------------------------------------------------------------------

  datatype Job = Job(input: Plane, luma: Plane, chroma: Plane, width: nat, height: nat)

  function GridSide(columns: nat): nat { columns / BLOCK + if columns % BLOCK != 0 then 1 else 0 }

  /** `validate_config_shape` for 32-bit dimensions. */
  predicate ValidShape(width: nat, height: nat) {
    && 0 < width < U32 && 0 < height < U32 && width % 2 == 0 && height % 2 == 0
    && GridSide(width / 2) <= MAX_GRID_X && GridSide(height / 2) <= MAX_GRID_Y
  }

  /** Shapes and plane sizes. */
  predicate ShapedJob(j: Job) {
    && ValidShape(j.width, j.height)
    && ValidPlane(j.input) && j.input.rowBytes == 4 * j.width && j.input.rows == j.height
    && ValidPlane(j.luma) && j.luma.rowBytes == j.width && j.luma.rows == j.height
    && ValidPlane(j.chroma) && j.chroma.rowBytes == j.width && j.chroma.rows == j.height / 2
  }

  /** What `enqueue` has established: a shaped job whose planes are pairwise apart. */
  predicate ValidJob(j: Job) {
    ShapedJob(j) && !Overlap(j.input, j.luma) && !Overlap(j.input, j.chroma) && !Overlap(j.luma, j.chroma)
  }

  datatype Thread = Thread(blockX: nat, blockY: nat, threadX: nat, threadY: nat)

  predicate Launched(j: Job, t: Thread) {
    && t.blockX < GridSide(j.width / 2) && t.blockY < GridSide(j.height / 2)
    && t.threadX < BLOCK && t.threadY < BLOCK
  }

  /** 32-bit unsigned wrap-around. */
  function Wrap(n: nat): nat { if n < U32 then n else Wrap(n - U32) }

  // The kernel's 32-bit unsigned coordinates.
  function ChromaX(t: Thread): nat { Wrap(t.blockX * BLOCK + t.threadX) }

  function ChromaY(t: Thread): nat { Wrap(t.blockY * BLOCK + t.threadY) }

  function PixelX(t: Thread): nat { Wrap(ChromaX(t) * 2) }

  function PixelY(t: Thread): nat { Wrap(ChromaY(t) * 2) }

  predicate Active(j: Job, t: Thread) { Launched(j, t) && PixelX(t) < j.width && PixelY(t) < j.height }

  /** The coordinates never wrap on a launched grid. */
  lemma {:induction false} NoWrap(j: Job, t: Thread)
    requires ValidShape(j.width, j.height) && Launched(j, t)
    ensures ChromaX(t) == t.blockX * BLOCK + t.threadX && PixelX(t) == 2 * ChromaX(t)
    ensures ChromaY(t) == t.blockY * BLOCK + t.threadY && PixelY(t) == 2 * ChromaY(t)
  {
    assert GridSide(j.width / 2) * BLOCK <= j.width / 2 + 15;
    assert GridSide(j.height / 2) * BLOCK <= j.height / 2 + 15;
    assert j.width / 2 <= 0x7fff_ffff && j.height / 2 <= 0x7fff_ffff;
    assert t.blockX * BLOCK + t.threadX < 0x8000_0000;
    assert t.blockY * BLOCK + t.threadY < 0x8000_0000;
  }

  /** The one thread responsible for a chroma sample. */
  function Owner(cx: nat, cy: nat): Thread { Thread(cx / BLOCK, cy / BLOCK, cx % BLOCK, cy % BLOCK) }

  lemma {:induction false} OwnerActive(j: Job, cx: nat, cy: nat)
    requires ValidShape(j.width, j.height) && cx < j.width / 2 && cy < j.height / 2
    ensures Active(j, Owner(cx, cy)) && ChromaX(Owner(cx, cy)) == cx && ChromaY(Owner(cx, cy)) == cy
  {
    NoWrap(j, Owner(cx, cy));
  }

  /** Different launched threads have different samples, so the owner is the only one. */
  lemma {:induction false} OwnerUnique(j: Job, t: Thread)
    requires ValidShape(j.width, j.height) && Launched(j, t)
    ensures Owner(ChromaX(t), ChromaY(t)) == t
  {
    NoWrap(j, t);
  }

  // ----- loads and stores ----------------------------------------------------------------------------

  type Byte = b: nat | b < 256

  datatype Rgb = Rgb(r: Byte, g: Byte, b: Byte)

  datatype Pixels = Pixels(p0: Rgb, p1: Rgb, p2: Rgb, p3: Rgb)

  /** The kernel's colour arithmetic after its loads. */
  datatype Color = Color(luma: Rgb -> Byte, cb: Pixels -> Byte, cr: Pixels -> Byte)

  type Memory = seq<Byte>

  predicate Covers(m: Memory, p: Plane) { p.ptr + Span(p) <= |m| }

  ghost predicate Mapped(j: Job, m: Memory) {
    Covers(m, j.input) && Covers(m, j.luma) && Covers(m, j.chroma)
  }

  function Fetch(m: Memory, a: int): Byte { if 0 <= a < |m| then m[a] else 0 }

  function LoadRgb(j: Job, m: Memory, x: nat, y: nat): Rgb {
    var a := Address(j.input, y, 4 * x);
    Rgb(Fetch(m, a), Fetch(m, a + 1), Fetch(m, a + 2))
  }

  /** Where a byte of a plane lies, and which three bytes make a pixel. */
  lemma {:induction false} PixelBytes(j: Job, m: Memory, x: nat, y: nat)
    ensures forall p: Plane, row: nat, column: nat :: Address(p, row, column) == p.ptr + row * p.pitch + column
    ensures var a := j.input.ptr + y * j.input.pitch + 4 * x;
      LoadRgb(j, m, x, y) == Rgb(Fetch(m, a), Fetch(m, a + 1), Fetch(m, a + 2))
  {
    forall p: Plane, row: nat, column: nat
      ensures Address(p, row, column) == p.ptr + row * p.pitch + column
    {
      RowOffsetIsProduct(p.pitch, row);
    }
  }

  function LoadPixels(j: Job, m: Memory, t: Thread): Pixels {
    var x, y := PixelX(t), PixelY(t);
    Pixels(LoadRgb(j, m, x, y), LoadRgb(j, m, x + 1, y), LoadRgb(j, m, x, y + 1), LoadRgb(j, m, x + 1, y + 1))
  }

  /** The six stores of a thread at pixel (x, y) and chroma row cy, in program order. */
  function StoreAt(luma: Plane, chroma: Plane, x: nat, y: nat, cy: nat, k: nat): int {
    if k == 0 then Address(luma, y, x)
    else if k == 1 then Address(luma, y, x) + 1
    else if k == 2 then Address(luma, y, x) + luma.pitch
    else if k == 3 then Address(luma, y, x) + luma.pitch + 1
    else if k == 4 then Address(chroma, cy, x)
    else Address(chroma, cy, x) + 1
  }

  function StoreAddress(j: Job, t: Thread, k: nat): int {
    StoreAt(j.luma, j.chroma, PixelX(t), PixelY(t), ChromaY(t), k)
  }

  function StoreValue(c: Color, px: Pixels, k: nat): Byte {
    if k == 0 then c.luma(px.p0)
    else if k == 1 then c.luma(px.p1)
    else if k == 2 then c.luma(px.p2)
    else if k == 3 then c.luma(px.p3)
    else if k == 4 then c.cb(px)
    else c.cr(px)
  }

  // Plane, row and column of the k-th store.
  function StorePlane(luma: Plane, chroma: Plane, k: nat): Plane { if k < 4 then luma else chroma }

  function StoreRow(y: nat, cy: nat, k: nat): nat { if k < 2 then y else if k < 4 then y + 1 else cy }

  function StoreColumn(x: nat, k: nat): nat { if k == 1 || k == 3 || k == 5 then x + 1 else x }

  lemma {:induction false} StoreAtPlaced(luma: Plane, chroma: Plane, x: nat, y: nat, cy: nat, k: nat)
    requires ValidPlane(luma) && ValidPlane(chroma) && k < 6
    requires x + 1 < luma.rowBytes && x + 1 < chroma.rowBytes && y + 1 < luma.rows && cy < chroma.rows
    ensures var p := StorePlane(luma, chroma, k);
      && StoreRow(y, cy, k) < p.rows && StoreColumn(x, k) < p.rowBytes
      && StoreAt(luma, chroma, x, y, cy, k) == Address(p, StoreRow(y, cy, k), StoreColumn(x, k))
      && p.ptr <= StoreAt(luma, chroma, x, y, cy, k) < p.ptr + Span(p) <= U64
  {
    var p := StorePlane(luma, chroma, k);
    AddressInSpan(p, StoreRow(y, cy, k), StoreColumn(x, k));
  }

  /** An active thread's pixel block lies inside the frame. */
  lemma {:induction false} ActiveBounds(j: Job, t: Thread)
    requires ValidJob(j) && Active(j, t)
    ensures PixelX(t) == 2 * ChromaX(t) && PixelY(t) == 2 * ChromaY(t)
    ensures PixelX(t) + 1 < j.width && PixelY(t) + 1 < j.height
    ensures ChromaX(t) < j.width / 2 && ChromaY(t) < j.height / 2
  {
    NoWrap(j, t);
  }

  lemma {:induction false} StorePlaced(j: Job, t: Thread, k: nat)
    requires ValidJob(j) && Active(j, t) && k < 6
    ensures var p := StorePlane(j.luma, j.chroma, k);
      && StoreAddress(j, t, k) == Address(p, StoreRow(PixelY(t), ChromaY(t), k), StoreColumn(PixelX(t), k))
      && StoreRow(PixelY(t), ChromaY(t), k) < p.rows && StoreColumn(PixelX(t), k) < p.rowBytes
      && p.ptr <= StoreAddress(j, t, k) < p.ptr + Span(p) <= U64
  {
    ActiveBounds(j, t);
    StoreAtPlaced(j.luma, j.chroma, PixelX(t), PixelY(t), ChromaY(t), k);
  }

  /** On coordinates: equal store addresses mean the same sample and the same store. */
  lemma {:induction false} StoreAtDistinct(luma: Plane, chroma: Plane, cx1: nat, cy1: nat, k1: nat, cx2: nat, cy2: nat, k2: nat)
    requires ValidPlane(luma) && ValidPlane(chroma) && !Overlap(luma, chroma) && k1 < 6 && k2 < 6
    requires 2 * cx1 + 1 < luma.rowBytes && 2 * cx2 + 1 < luma.rowBytes && luma.rowBytes == chroma.rowBytes
    requires 2 * cy1 + 1 < luma.rows && 2 * cy2 + 1 < luma.rows && cy1 < chroma.rows && cy2 < chroma.rows
    requires StoreAt(luma, chroma, 2 * cx1, 2 * cy1, cy1, k1) == StoreAt(luma, chroma, 2 * cx2, 2 * cy2, cy2, k2)
    ensures cx1 == cx2 && cy1 == cy2 && k1 == k2
  {
    StoreAtPlaced(luma, chroma, 2 * cx1, 2 * cy1, cy1, k1);
    StoreAtPlaced(luma, chroma, 2 * cx2, 2 * cy2, cy2, k2);
    assert (k1 < 4) == (k2 < 4);
    AddressInjective(StorePlane(luma, chroma, k1), StoreRow(2 * cy1, cy1, k1), StoreColumn(2 * cx1, k1),
                     StoreRow(2 * cy2, cy2, k2), StoreColumn(2 * cx2, k2));
    SameRowAndColumn(cx1, cy1, k1, cx2, cy2, k2);
  }

  lemma {:induction false} SameRowAndColumn(cx1: nat, cy1: nat, k1: nat, cx2: nat, cy2: nat, k2: nat)
    requires k1 < 6 && k2 < 6 && (k1 < 4) == (k2 < 4)
    requires StoreRow(2 * cy1, cy1, k1) == StoreRow(2 * cy2, cy2, k2)
    requires StoreColumn(2 * cx1, k1) == StoreColumn(2 * cx2, k2)
    ensures cx1 == cx2 && cy1 == cy2 && k1 == k2
  {
  }

  /** No byte is stored twice: a store address names its thread and its position in the thread. */
  lemma {:induction false} StoresDistinct(j: Job, t1: Thread, k1: nat, t2: Thread, k2: nat)
    requires ValidJob(j) && Active(j, t1) && Active(j, t2) && k1 < 6 && k2 < 6
    requires StoreAddress(j, t1, k1) == StoreAddress(j, t2, k2)
    ensures t1 == t2 && k1 == k2
  {
    ActiveBounds(j, t1);
    ActiveBounds(j, t2);
    StoreAtDistinct(j.luma, j.chroma, ChromaX(t1), ChromaY(t1), k1, ChromaX(t2), ChromaY(t2), k2);
    OwnerUnique(j, t1);
    OwnerUnique(j, t2);
  }

  /** Loads stay inside the input span, in 64-bit addresses. */
  lemma {:induction false} LoadsInBounds(j: Job, t: Thread, dx: nat, dy: nat, channel: nat)
    requires ValidJob(j) && Active(j, t) && dx < 2 && dy < 2 && channel < 3
    ensures j.input.ptr <= Address(j.input, PixelY(t) + dy, 4 * (PixelX(t) + dx)) + channel
              < j.input.ptr + Span(j.input) <= U64
  {
    ActiveBounds(j, t);
    var row, column := PixelY(t) + dy, 4 * (PixelX(t) + dx) + channel;
    AddressInSpan(j.input, row, column);
  }

  // ----- interleaved execution -------------------------------------------------------------------------

  /** One byte loaded or stored: a thread loads three bytes of each of its four pixels. */
  datatype Event = Load(thread: Thread, n: nat) | Store(thread: Thread, k: nat)

  type Registers = map<(Thread, nat), Byte>

  datatype State = State(memory: Memory, registers: Registers)

  /** The address of a thread's n-th load. */
  function LoadAddress(j: Job, t: Thread, n: nat): int {
    Address(j.input, PixelY(t) + n / 6, 4 * (PixelX(t) + n / 3 % 2)) + n % 3
  }

  /** The thread has done all its loads. */
  predicate Ready(r: Registers, t: Thread) { forall n :: 0 <= n < 12 ==> (t, n) in r }

  /** What the loads of a thread brought. */
  function Gathered(r: Registers, t: Thread): Pixels
    requires Ready(r, t)
  {
    Pixels(Rgb(r[(t, 0)], r[(t, 1)], r[(t, 2)]), Rgb(r[(t, 3)], r[(t, 4)], r[(t, 5)]),
           Rgb(r[(t, 6)], r[(t, 7)], r[(t, 8)]), Rgb(r[(t, 9)], r[(t, 10)], r[(t, 11)]))
  }

  /** A store before its thread's loads, or an access the thread does not have, is not an execution. */
  predicate Enabled(j: Job, r: Registers, e: Event) {
    Active(j, e.thread) && (if e.Load? then e.n < 12 else e.k < 6 && Ready(r, e.thread))
  }

  function Execute(j: Job, c: Color, s: State, e: Event): State {
    match e
    case Load(t, n) => s.(registers := s.registers[(t, n) := Fetch(s.memory, LoadAddress(j, t, n))])
    case Store(t, k) =>
      var a := StoreAddress(j, t, k);
      if Ready(s.registers, t) && 0 <= a < |s.memory|
      then s.(memory := s.memory[a := StoreValue(c, Gathered(s.registers, t), k)]) else s
  }

  predicate Executable(j: Job, c: Color, s: State, events: seq<Event>)
    decreases |events|
  {
    events == [] || (Enabled(j, s.registers, events[0]) && Executable(j, c, Execute(j, c, s, events[0]), events[1..]))
  }

  function Run(j: Job, c: Color, s: State, events: seq<Event>): State
    decreases |events|
  {
    if events == [] then s else Run(j, c, Execute(j, c, s, events[0]), events[1..])
  }

  // What holds at every point of every interleaving started in memory `m0`.
  ghost predicate Loaded(j: Job, m0: Memory, registers: Registers) {
    forall t, n :: (t, n) in registers ==> registers[(t, n)] == Fetch(m0, LoadAddress(j, t, n))
  }

  ghost predicate RealStores(j: Job, done: set<(Thread, nat)>) {
    forall d :: d in done ==> Active(j, d.0) && d.1 < 6
  }

  ghost predicate Stored(j: Job, c: Color, m0: Memory, m: Memory, done: set<(Thread, nat)>) {
    forall d :: d in done ==> Fetch(m, StoreAddress(j, d.0, d.1)) == StoreValue(c, LoadPixels(j, m0, d.0), d.1)
  }

  ghost predicate Untouched(j: Job, m0: Memory, m: Memory, done: set<(Thread, nat)>) {
    |m| == |m0| && forall a :: 0 <= a < |m0| && a !in Touched(j, done) ==> m[a] == m0[a]
  }

  ghost predicate Consistent(j: Job, c: Color, m0: Memory, s: State, done: set<(Thread, nat)>) {
    && Loaded(j, m0, s.registers) && RealStores(j, done)
    && Stored(j, c, m0, s.memory, done) && Untouched(j, m0, s.memory, done)
  }

  ghost function Touched(j: Job, done: set<(Thread, nat)>): set<int> {
    set d | d in done :: StoreAddress(j, d.0, d.1)
  }

  ghost predicate SameInput(j: Job, m0: Memory, m1: Memory) {
    forall a :: j.input.ptr <= a < j.input.ptr + Span(j.input) ==> Fetch(m1, a) == Fetch(m0, a)
  }

  /** The stores so far left the input alone. */
  lemma {:induction false} InputStable(j: Job, c: Color, m0: Memory, s: State, done: set<(Thread, nat)>)
    requires ValidJob(j) && Mapped(j, m0) && Consistent(j, c, m0, s, done)
    ensures SameInput(j, m0, s.memory)
  {
    forall a | j.input.ptr <= a < j.input.ptr + Span(j.input) ensures Fetch(s.memory, a) == Fetch(m0, a) {
      if a in Touched(j, done) {
        var d :| d in done && StoreAddress(j, d.0, d.1) == a;
        StorePlaced(j, d.0, d.1);
      }
    }
  }

  lemma {:induction false} SameRgb(j: Job, m0: Memory, m1: Memory, x: nat, y: nat)
    requires ValidPlane(j.input) && SameInput(j, m0, m1) && 4 * x + 3 < j.input.rowBytes && y < j.input.rows
    ensures LoadRgb(j, m1, x, y) == LoadRgb(j, m0, x, y)
  {
    AddressInSpan(j.input, y, 4 * x);
    AddressInSpan(j.input, y, 4 * x + 2);
    var a := Address(j.input, y, 4 * x);
    assert Fetch(m1, a) == Fetch(m0, a) && Fetch(m1, a + 1) == Fetch(m0, a + 1) && Fetch(m1, a + 2) == Fetch(m0, a + 2);
  }

  /** So no thread can load anything but the pixels that were there at launch. */
  lemma {:induction false} LoadStable(j: Job, m0: Memory, m1: Memory, t: Thread)
    requires ValidJob(j) && SameInput(j, m0, m1) && Active(j, t)
    ensures LoadPixels(j, m1, t) == LoadPixels(j, m0, t)
  {
    hide LoadRgb, SameInput, Active, PixelX, PixelY, ChromaX, ChromaY, ValidShape, Overlap;
    ActiveBounds(j, t);
    var x, y := PixelX(t), PixelY(t);
    SameRgb(j, m0, m1, x, y);
    SameRgb(j, m0, m1, x + 1, y);
    SameRgb(j, m0, m1, x, y + 1);
    SameRgb(j, m0, m1, x + 1, y + 1);
  }

  function DoneAfter(done: set<(Thread, nat)>, e: Event): set<(Thread, nat)> {
    if e.Store? then done + {(e.thread, e.k)} else done
  }

  /** A thread that has loaded all its bytes holds its pixels. */
  lemma {:induction false} GatheredPixels(j: Job, m0: Memory, r: Registers, t: Thread)
    requires Loaded(j, m0, r) && Ready(r, t)
    ensures Gathered(r, t) == LoadPixels(j, m0, t)
  {
    hide PixelX, PixelY, Address, Fetch;
    forall n | 0 <= n < 12 ensures r[(t, n)] == Fetch(m0, LoadAddress(j, t, n)) {
      assert (t, n) in r;
    }
  }

  lemma {:induction false} LoadInside(j: Job, t: Thread, n: nat)
    requires ValidJob(j) && Active(j, t) && n < 12
    ensures j.input.ptr <= LoadAddress(j, t, n) < j.input.ptr + Span(j.input) <= U64
  {
    hide ValidJob, Active, Address, Span;
    LoadsInBounds(j, t, n / 3 % 2, n / 6, n % 3);
  }

  lemma {:induction false} LoadConsistent(j: Job, c: Color, m0: Memory, s: State, done: set<(Thread, nat)>, t: Thread, n: nat)
    requires ValidJob(j) && Mapped(j, m0) && Consistent(j, c, m0, s, done) && Enabled(j, s.registers, Load(t, n))
    ensures Consistent(j, c, m0, Execute(j, c, s, Load(t, n)), done)
  {
    hide ValidJob, Mapped, LoadAddress, StoreAddress, StoreValue, LoadPixels, Fetch;
    InputStable(j, c, m0, s, done);
    LoadInside(j, t, n);
    var r := s.registers[(t, n) := Fetch(s.memory, LoadAddress(j, t, n))];
    assert Loaded(j, m0, r);
  }

  lemma {:induction false} StepConsistent(j: Job, c: Color, m0: Memory, s: State, done: set<(Thread, nat)>, e: Event)
    requires ValidJob(j) && Mapped(j, m0) && Consistent(j, c, m0, s, done) && Enabled(j, s.registers, e)
    ensures Consistent(j, c, m0, Execute(j, c, s, e), DoneAfter(done, e))
  {
    hide Consistent, Execute, ValidJob, Mapped;
    match e
    case Load(t, n) =>
      LoadConsistent(j, c, m0, s, done, t, n);
    case Store(t, k) =>
      StoreConsistent(j, c, m0, s, done, t, k);
  }

  lemma {:induction false} TouchedGrows(j: Job, done: set<(Thread, nat)>, t: Thread, k: nat)
    ensures Touched(j, done + {(t, k)}) == Touched(j, done) + {StoreAddress(j, t, k)}
  {
    var more := done + {(t, k)};
    assert (t, k) in more;
    forall a | a in Touched(j, done) ensures a in Touched(j, more) {
      var d :| d in done && StoreAddress(j, d.0, d.1) == a;
      assert d in more;
    }
  }

  lemma {:induction false} StoredGrows(j: Job, c: Color, m0: Memory, m: Memory, done: set<(Thread, nat)>, t: Thread, k: nat)
    requires ValidJob(j) && Active(j, t) && k < 6 && RealStores(j, done) && Stored(j, c, m0, m, done)
    requires 0 <= StoreAddress(j, t, k) < |m|
    ensures Stored(j, c, m0, m[StoreAddress(j, t, k) := StoreValue(c, LoadPixels(j, m0, t), k)], done + {(t, k)})
  {
    var a := StoreAddress(j, t, k);
    var m1 := m[a := StoreValue(c, LoadPixels(j, m0, t), k)];
    forall d | d in done + {(t, k)}
      ensures Fetch(m1, StoreAddress(j, d.0, d.1)) == StoreValue(c, LoadPixels(j, m0, d.0), d.1)
    {
      if d != (t, k) {
        assert d in done;
        if StoreAddress(j, d.0, d.1) == a {
          StoresDistinct(j, d.0, d.1, t, k);
        }
      }
    }
  }

  lemma {:induction false} UntouchedGrows(j: Job, m0: Memory, m: Memory, done: set<(Thread, nat)>, t: Thread, k: nat, v: Byte)
    requires Untouched(j, m0, m, done) && 0 <= StoreAddress(j, t, k) < |m|
    ensures Untouched(j, m0, m[StoreAddress(j, t, k) := v], done + {(t, k)})
  {
    TouchedGrows(j, done, t, k);
  }

  lemma {:induction false} StoreConsistent(j: Job, c: Color, m0: Memory, s: State, done: set<(Thread, nat)>, t: Thread, k: nat)
    requires ValidJob(j) && Mapped(j, m0) && Consistent(j, c, m0, s, done) && Enabled(j, s.registers, Store(t, k))
    ensures Consistent(j, c, m0, Execute(j, c, s, Store(t, k)), done + {(t, k)})
  {
    StorePlaced(j, t, k);
    GatheredPixels(j, m0, s.registers, t);
    StoredGrows(j, c, m0, s.memory, done, t, k);
    UntouchedGrows(j, m0, s.memory, done, t, k, StoreValue(c, Gathered(s.registers, t), k));
  }

  ghost function StoresOf(events: seq<Event>): set<(Thread, nat)> {
    set e | e in events && e.Store? :: (e.thread, e.k)
  }

  lemma {:induction false} RunConsistent(j: Job, c: Color, m0: Memory, s: State, done: set<(Thread, nat)>, events: seq<Event>)
    requires ValidJob(j) && Mapped(j, m0) && Consistent(j, c, m0, s, done) && Executable(j, c, s, events)
    ensures Consistent(j, c, m0, Run(j, c, s, events), done + StoresOf(events))
    decreases |events|
  {
    hide Consistent, Execute, Enabled, ValidJob, Mapped;
    if events == [] {
      assert done + StoresOf(events) == done;
    } else {
      StepConsistent(j, c, m0, s, done, events[0]);
      RunConsistent(j, c, m0, Execute(j, c, s, events[0]), DoneAfter(done, events[0]), events[1..]);
      assert done + StoresOf(events) == DoneAfter(done, events[0]) + StoresOf(events[1..]);
    }
  }

  // ----- the image -----------------------------------------------------------------------------------

  /** The 2 x 2 block of input pixels of a chroma sample. */
  function BlockPixels(j: Job, m: Memory, cx: nat, cy: nat): Pixels {
    Pixels(LoadRgb(j, m, 2 * cx, 2 * cy), LoadRgb(j, m, 2 * cx + 1, 2 * cy),
           LoadRgb(j, m, 2 * cx, 2 * cy + 1), LoadRgb(j, m, 2 * cx + 1, 2 * cy + 1))
  }

  ghost predicate IsOutput(j: Job, a: int) {
    || (exists x, y :: 0 <= x < j.width && 0 <= y < j.height && a == Address(j.luma, y, x))
    || (exists x, y :: 0 <= x < j.width && 0 <= y < j.height / 2 && a == Address(j.chroma, y, x))
  }

  /** The outputs in `after` hold the NV12 image of the input in `before`. */
  ghost predicate ImageOf(j: Job, c: Color, before: Memory, after: Memory) {
    && (forall x, y :: 0 <= x < j.width && 0 <= y < j.height ==>
          Fetch(after, Address(j.luma, y, x)) == c.luma(LoadRgb(j, before, x, y)))
    && (forall cx, cy :: 0 <= cx < j.width / 2 && 0 <= cy < j.height / 2 ==>
          && Fetch(after, Address(j.chroma, cy, 2 * cx)) == c.cb(BlockPixels(j, before, cx, cy))
          && Fetch(after, Address(j.chroma, cy, 2 * cx + 1)) == c.cr(BlockPixels(j, before, cx, cy)))
  }

  /** `after` holds the image of the input in `before`, and nothing else changed. */
  ghost predicate Converted(j: Job, c: Color, before: Memory, after: Memory) {
    && |after| == |before| && ImageOf(j, c, before, after)
    && (forall a :: 0 <= a < |before| && !IsOutput(j, a) ==> after[a] == before[a])
  }

  ghost predicate AllStores(j: Job, stores: set<(Thread, nat)>) {
    forall t, k :: Active(j, t) && 0 <= k < 6 ==> (t, k) in stores
  }

  lemma {:induction false} LumaStore(j: Job, c: Color, m0: Memory, t: Thread, x: nat, y: nat) returns (k: nat)
    requires ValidJob(j) && Active(j, t) && ChromaX(t) == x / 2 && ChromaY(t) == y / 2
    ensures k < 6 && StoreAddress(j, t, k) == Address(j.luma, y, x)
    ensures StoreValue(c, LoadPixels(j, m0, t), k) == c.luma(LoadRgb(j, m0, x, y))
  {
    hide PixelX, PixelY, ChromaX, ChromaY, Active, Address, LoadRgb, ValidPlane, ValidShape;
    ActiveBounds(j, t);
    k := 2 * (y - PixelY(t)) + (x - PixelX(t));
    StorePlaced(j, t, k);
  }

  lemma {:induction false} LumaStored(j: Job, c: Color, m0: Memory, m: Memory, done: set<(Thread, nat)>, x: nat, y: nat)
    requires ValidJob(j) && Stored(j, c, m0, m, done) && AllStores(j, done)
    requires x < j.width && y < j.height
    ensures Fetch(m, Address(j.luma, y, x)) == c.luma(LoadRgb(j, m0, x, y))
  {
    var t := Owner(x / 2, y / 2);
    OwnerActive(j, x / 2, y / 2);
    var k := LumaStore(j, c, m0, t, x, y);
    assert (t, k) in done;
  }

  lemma {:induction false} ChromaStore(j: Job, c: Color, m0: Memory, t: Thread)
    requires ValidJob(j) && Active(j, t)
    ensures var cx, cy := ChromaX(t), ChromaY(t);
      && StoreAddress(j, t, 4) == Address(j.chroma, cy, 2 * cx)
      && StoreAddress(j, t, 5) == Address(j.chroma, cy, 2 * cx + 1)
      && LoadPixels(j, m0, t) == BlockPixels(j, m0, cx, cy)
  {
    ActiveBounds(j, t);
  }

  lemma {:induction false} ChromaStored(j: Job, c: Color, m0: Memory, m: Memory, done: set<(Thread, nat)>, cx: nat, cy: nat)
    requires ValidJob(j) && Stored(j, c, m0, m, done) && AllStores(j, done)
    requires cx < j.width / 2 && cy < j.height / 2
    ensures Fetch(m, Address(j.chroma, cy, 2 * cx)) == c.cb(BlockPixels(j, m0, cx, cy))
    ensures Fetch(m, Address(j.chroma, cy, 2 * cx + 1)) == c.cr(BlockPixels(j, m0, cx, cy))
  {
    var t := Owner(cx, cy);
    OwnerActive(j, cx, cy);
    ChromaStore(j, c, m0, t);
    assert (t, 4) in done && (t, 5) in done;
  }

  lemma {:induction false} StoreIsOutput(j: Job, t: Thread, k: nat)
    requires ValidJob(j) && Active(j, t) && k < 6
    ensures IsOutput(j, StoreAddress(j, t, k))
  {
    StorePlaced(j, t, k);
    var x, y := StoreColumn(PixelX(t), k), StoreRow(PixelY(t), ChromaY(t), k);
    assert 0 <= x < j.width;
  }

  /** Once all stores are done, and only those, the memory holds the image. */
  lemma {:induction false} AllStoredConverts(j: Job, c: Color, m0: Memory, m: Memory, done: set<(Thread, nat)>)
    requires ValidJob(j) && RealStores(j, done) && AllStores(j, done)
    requires Stored(j, c, m0, m, done) && Untouched(j, m0, m, done)
    ensures Converted(j, c, m0, m)
  {
    forall x, y | 0 <= x < j.width && 0 <= y < j.height
      ensures Fetch(m, Address(j.luma, y, x)) == c.luma(LoadRgb(j, m0, x, y))
    {
      LumaStored(j, c, m0, m, done, x, y);
    }
    forall cx, cy | 0 <= cx < j.width / 2 && 0 <= cy < j.height / 2
      ensures Fetch(m, Address(j.chroma, cy, 2 * cx)) == c.cb(BlockPixels(j, m0, cx, cy))
              && Fetch(m, Address(j.chroma, cy, 2 * cx + 1)) == c.cr(BlockPixels(j, m0, cx, cy))
    {
      ChromaStored(j, c, m0, m, done, cx, cy);
    }
    forall a | 0 <= a < |m0| && !IsOutput(j, a) ensures m[a] == m0[a] {
      if a in Touched(j, done) {
        var d :| d in done && StoreAddress(j, d.0, d.1) == a;
        StoreIsOutput(j, d.0, d.1);
      }
    }
  }

  lemma {:induction false} AllDoneConverts(j: Job, c: Color, m0: Memory, m: Memory, done: set<(Thread, nat)>)
    requires ValidJob(j) && AllStores(j, done) && Consistent(j, c, m0, State(m, map[]), done)
    ensures Converted(j, c, m0, m)
  {
    AllStoredConverts(j, c, m0, m, done);
  }

  /** The main theorem: every interleaving of single loads and stores in which each active thread finishes gives the one NV12
      image of the input that was in memory at launch, and touches no other byte. */
  lemma {:induction false} AnyInterleavingConverts(j: Job, c: Color, m0: Memory, events: seq<Event>)
    requires ValidJob(j) && Mapped(j, m0)
    requires Executable(j, c, State(m0, map[]), events) && AllStores(j, StoresOf(events))
    ensures Converted(j, c, m0, Run(j, c, State(m0, map[]), events).memory)
  {
    var done := StoresOf(events);
    RunConsistent(j, c, m0, State(m0, map[]), {}, events);
    assert {} + done == done;
    AllStoredConverts(j, c, m0, Run(j, c, State(m0, map[]), events).memory, done);
  }

  // ----- the kernel in place ---------------------------------------------------------------------------

  ghost function FirstStores(t: Thread, n: nat): set<(Thread, nat)> { set k | 0 <= k < n :: (t, k) }

  ghost function ThreadStores(t: Thread): set<(Thread, nat)> { FirstStores(t, 6) }

  lemma {:induction false} OneMoreStore(before: set<(Thread, nat)>, t: Thread, n: nat)
    ensures before + FirstStores(t, n) + {(t, n)} == before + FirstStores(t, n + 1)
  {
    assert FirstStores(t, n + 1) == FirstStores(t, n) + {(t, n)};
  }

  lemma {:induction false} NoStores(before: set<(Thread, nat)>, t: Thread)
    ensures before + FirstStores(t, 0) == before
  {
  }

  /** One store of a thread that loaded the launch-time pixels. */
  lemma {:induction false} OneStore(j: Job, c: Color, m0: Memory, m: Memory, done: set<(Thread, nat)>, t: Thread, k: nat)
    requires ValidJob(j) && Mapped(j, m0) && Active(j, t) && k < 6 && Consistent(j, c, m0, State(m, map[]), done)
    ensures 0 <= StoreAddress(j, t, k) < |m|
    ensures Consistent(j, c, m0,
      State(m[StoreAddress(j, t, k) := StoreValue(c, LoadPixels(j, m0, t), k)], map[]), done + {(t, k)})
  {
    hide LoadPixels, StoreValue, StoreAddress;
    StorePlaced(j, t, k);
    StoredGrows(j, c, m0, m, done, t, k);
    UntouchedGrows(j, m0, m, done, t, k, StoreValue(c, LoadPixels(j, m0, t), k));
  }

  lemma {:induction false} PixelsStable(j: Job, c: Color, m0: Memory, m: Memory, done: set<(Thread, nat)>, t: Thread)
    requires ValidJob(j) && Mapped(j, m0) && Active(j, t) && Consistent(j, c, m0, State(m, map[]), done)
    ensures LoadPixels(j, m, t) == LoadPixels(j, m0, t)
  {
    InputStable(j, c, m0, State(m, map[]), done);
    LoadStable(j, m0, m, t);
  }

  /** The kernel body for one thread: the bounds test, four loads, six stores. */
  method KernelThread(memory: array<Byte>, j: Job, c: Color, t: Thread, ghost m0: Memory,
                      ghost before: set<(Thread, nat)>)
    returns (ghost done: set<(Thread, nat)>)
    requires ValidJob(j) && Mapped(j, m0) && Launched(j, t)
    requires Consistent(j, c, m0, State(memory[..], map[]), before)
    modifies memory
    ensures done == if Active(j, t) then before + ThreadStores(t) else before
    ensures Consistent(j, c, m0, State(memory[..], map[]), done)
  {
    done := before;
    if PixelX(t) >= j.width || PixelY(t) >= j.height {
      return;
    }
    hide LoadPixels, StoreValue, StoreAddress, ValidJob, Mapped, Consistent, FirstStores;
    NoStores(before, t);
    PixelsStable(j, c, m0, memory[..], before, t);
    var pixels := LoadPixels(j, memory[..], t);
    var k := 0;
    while k < 6
      invariant 0 <= k <= 6
      invariant done == before + FirstStores(t, k)
      invariant Consistent(j, c, m0, State(memory[..], map[]), done)
    {
      OneStore(j, c, m0, memory[..], done, t, k);
      ghost var now := memory[..];
      memory[StoreAddress(j, t, k)] := StoreValue(c, pixels, k);
      assert memory[..] == now[StoreAddress(j, t, k) := StoreValue(c, pixels, k)];
      OneMoreStore(before, t, k);
      done := done + {(t, k)};
      k := k + 1;
    }
  }

  /** A launch that runs whole threads one after another, in any order and even repeatedly. */
  method Launch(memory: array<Byte>, j: Job, c: Color, order: seq<Thread>)
    requires ValidJob(j) && Mapped(j, memory[..])
    requires forall i :: 0 <= i < |order| ==> Launched(j, order[i])
    requires forall t :: Launched(j, t) ==> t in order
    modifies memory
    ensures Converted(j, c, old(memory[..]), memory[..])
  {
    ghost var m0 := memory[..];
    ghost var done: set<(Thread, nat)> := {};
    assert Consistent(j, c, m0, State(memory[..], map[]), done);
    hide ValidJob, Mapped, Consistent, Converted;
    for i := 0 to |order|
      invariant Consistent(j, c, m0, State(memory[..], map[]), done)
      invariant forall n :: 0 <= n < i && Active(j, order[n]) ==> ThreadStores(order[n]) <= done
    {
      done := KernelThread(memory, j, c, order[i], m0, done);
    }
    forall t, k | Active(j, t) && 0 <= k < 6 ensures (t, k) in done {
      assert t in order;
      assert (t, k) in ThreadStores(t);
    }
    AllDoneConverts(j, c, m0, memory[..], done);
  }
}
