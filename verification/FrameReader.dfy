/** The calibration frame reader (sampling.cpp): it decodes or seeks forward to each requested frame and refuses
    anything else. */
module FrameReader {
  import opened Results
  import opened Sampling

  /** A decoded surface: its index in the stream, its size, the rotation its stream asks for, its luma. */
  datatype Decoded = Decoded(index: Count, width: nat, height: nat, rotation: nat, luma: seq<seq<nat>>)

  /** What one decoder read returns. */
  datatype Status = Ready(frame: Decoded) | NoPayload | EndOfStream

  datatype Frame = Frame(index: nat, width: nat, height: nat, appliedRotation: nat, luma: seq<seq<nat>>)

  datatype Error = NotSorted | SeekFailed | ReachedEnd | MissingPayload | NotIncreasing | Skipped | SizeChanged
                 | SizeOverflow | UnsupportedRotation

  /** The luma copied out: as decoded, or turned by half a revolution. */
  function Copied(d: Decoded): seq<seq<nat>> {
    if d.rotation == 180 then Reversed(ReversedRows(d.luma)) else d.luma
  }

  function Reversed<T>(s: seq<T>): (r: seq<T>)
    ensures |r| == |s| && forall i :: 0 <= i < |s| ==> r[i] == s[|s| - 1 - i]
  {
    if s == [] then [] else Reversed(s[1..]) + [s[0]]
  }

  function ReversedRows(rows: seq<seq<nat>>): (r: seq<seq<nat>>)
    ensures |r| == |rows| && forall y :: 0 <= y < |rows| ==> r[y] == Reversed(rows[y])
  {
    if rows == [] then [] else [Reversed(rows[0])] + ReversedRows(rows[1..])
  }

  function FrameOf(d: Decoded): Frame { Frame(d.index, d.width, d.height, d.rotation, Copied(d)) }

  /** The half turn puts each source pixel at the mirrored place, as the kernel does. */
  lemma {:induction false} HalfTurn(d: Decoded, y: nat, x: nat)
    requires d.rotation == 180 && y < |d.luma| && forall r :: r in d.luma ==> |r| == d.width
    requires |d.luma| == d.height && x < d.width
    ensures |Copied(d)| == d.height && |Copied(d)[y]| == d.width
    ensures Copied(d)[y][x] == d.luma[d.height - 1 - y][d.width - 1 - x]
  {
    assert d.luma[d.height - 1 - y] in d.luma;
  }

  /** A file's frames as its decoder returns them, read forward from a position that a seek can move. */
  class Source {
    const results: seq<Status>
    const start: nat
    const indexed: bool
    var next: nat

    constructor (results: seq<Status>, start: nat, indexed: bool)
      ensures this.results == results && this.start == start && this.indexed == indexed && next == start
    {
      this.results, this.start, this.indexed, next := results, start, indexed, start;
    }

    method Read() returns (r: Status)
      modifies this
      ensures old(next) < |results| ==> r == results[old(next)] && next == old(next) + 1
      ensures old(next) >= |results| ==> r == EndOfStream && next == old(next)
    {
      if next >= |results| { return EndOfStream; }
      next := next + 1;
      return results[next - 1];
    }

    /** An accurate seek; it can fail past the end. */
    method Seek(index: nat) returns (ok: bool)
      modifies this
      ensures ok <==> index <= |results|
      ensures next == if ok then index else old(next)
    {
      if index > |results| { return false; }
      next := index;
      return true;
    }
  }

  /** Every frame is there, in order, of one size, turned by nothing or by half. */
  predicate Faithful(results: seq<Status>, width: nat, height: nat) {
    0 < height && width <= MAX_U64 / height &&
    forall i :: 0 <= i < |results| ==>
      results[i].Ready? && results[i].frame.index == i && results[i].frame.width == width
      && results[i].frame.height == height && (results[i].frame.rotation == 0 || results[i].frame.rotation == 180)
  }

  class Reader {
    const source: Source
    var previousRequested: Option<nat>
    var previousSource: Option<nat>
    var dimensions: Option<(nat, nat)>

    constructor (source: Source)
      ensures this.source == source && previousRequested == None && previousSource == None && dimensions == None
    {
      this.source := source;
      previousRequested, previousSource, dimensions := None, None, None;
    }

    /** The reader and the decoder agree on where they are. */
    predicate Aligned(width: nat, height: nat)
      reads this, source
    {
      && (dimensions.Some? ==> dimensions.value == (width, height))
      && (previousSource.Some? ==> source.next == previousSource.value + 1 && previousRequested == previousSource)
      && (previousSource.None? ==> source.next == source.start && previousRequested == None)
    }

    /** Whether frame `index` can be read from here: it is ahead, and a decoder that cannot seek has not passed it. */
    predicate Reachable(index: nat)
      reads this, source
    {
      && (previousRequested.Some? ==> previousRequested.value < index)
      && (source.indexed || previousSource.Some? || source.next <= index)
      && index < |source.results|
    }

    /** `GpuCalibrationFrameReader::read`.  A frame that comes back is the one asked for, whatever the decoder did.
        From a faithful decoder every reachable frame comes back, and the reader stays aligned. */
    method Read(index: nat) returns (r: Result<Frame, Error>)
      modifies this, source
      ensures r.Success? ==> r.value.index == index && (r.value.appliedRotation == 0 || r.value.appliedRotation == 180)
      ensures old(previousRequested).Some? && index <= old(previousRequested).value ==>
        r == Failure(NotSorted) && source.next == old(source.next) && previousRequested == old(previousRequested)
      ensures forall w: nat, h: nat :: Faithful(source.results, w, h) && old(Aligned(w, h)) && old(Reachable(index)) ==>
        r == Success(FrameOf(source.results[index].frame)) && Aligned(w, h) && previousRequested == Some(index)
    {
      if previousRequested.Some? && index <= previousRequested.value { return Failure(NotSorted); }
      previousRequested := Some(index);
      var startsAtRequest := previousSource.None? && source.start == index;
      var nextIsRequest := previousSource.Some? && previousSource.value != MAX_U64 && previousSource.value + 1 == index;
      if source.indexed && !startsAtRequest && !nextIsRequest {
        var ok := source.Seek(index);
        if !ok { return Failure(SeekFailed); }
        previousSource := None;
      }
      r := DecodeTo(index);
    }

    /** The decoder has not passed frame `index`, and the size seen so far is the stream's. */
    predicate Ahead(index: nat, width: nat, height: nat)
      reads this, source
    {
      && (dimensions.Some? ==> dimensions.value == (width, height))
      && (previousSource.Some? ==> previousSource.value < source.next)
      && source.next <= index < |source.results|
    }

    /** The decode loop. */
    method DecodeTo(index: nat) returns (r: Result<Frame, Error>)
      modifies this`previousSource, this`dimensions, source
      ensures r.Success? ==> r.value.index == index && (r.value.appliedRotation == 0 || r.value.appliedRotation == 180)
      ensures forall w: nat, h: nat :: Faithful(source.results, w, h) && old(Ahead(index, w, h)) ==>
        r == Success(FrameOf(source.results[index].frame)) && source.next == index + 1
        && previousSource == Some(index) && dimensions == Some((w, h))
    {
      while true
        invariant forall w: nat, h: nat ::
          Faithful(source.results, w, h) && old(Ahead(index, w, h)) ==> Ahead(index, w, h)
        decreases |source.results| - source.next
      {
        var result := source.Read();
        if result.EndOfStream? { return Failure(ReachedEnd); }
        if result.NoPayload? { return Failure(MissingPayload); }
        var decoded := result.frame;
        if previousSource.Some? && decoded.index <= previousSource.value { return Failure(NotIncreasing); }
        previousSource := Some(decoded.index);
        if decoded.index < index { continue; }
        if decoded.index > index { return Failure(Skipped); }
        if dimensions.None? {
          dimensions := Some((decoded.width, decoded.height));
        } else if dimensions.value != (decoded.width, decoded.height) {
          return Failure(SizeChanged);
        }
        if decoded.height > 0 && decoded.width > MAX_U64 / decoded.height { return Failure(SizeOverflow); }
        if decoded.rotation != 0 && decoded.rotation != 180 { return Failure(UnsupportedRotation); }
        return Success(FrameOf(decoded));
      }
    }
  }

  /** `validate_frame_indices`. */
  method ValidateIndices(indices: seq<nat>) returns (ok: bool)
    ensures ok <==> Increasing(indices)
  {
    var i := 1;
    while i < |indices|
      invariant 1 <= i && (i <= |indices| || |indices| == 0)
      invariant forall j, k :: 0 <= j < k < i && k < |indices| ==> indices[j] < indices[k]
    {
      if indices[i] <= indices[i - 1] { return false; }
      i := i + 1;
    }
    return true;
  }

  /** `extract_gpu_gray_frames` on a source opened at the first index: it succeeds with the frames that were asked
      for and no others, in order, for every increasing list of frames a faithful decoder holds; what it returns
      never has another index; and a list out of order is refused. */
  method ExtractFrames(source: Source, indices: seq<nat>) returns (r: Result<seq<Frame>, Error>)
    modifies source
    ensures !Increasing(indices) ==> r == Failure(NotSorted)
    ensures r.Success? ==> |r.value| == |indices| && forall i :: 0 <= i < |indices| ==> r.value[i].index == indices[i]
    ensures forall w: nat, h: nat ::
      Faithful(source.results, w, h) && Increasing(indices) && Below(indices, |source.results|)
      && (indices != [] ==> source.start == indices[0]) && old(source.next) == source.start ==>
      r.Success? && forall i :: 0 <= i < |indices| ==> r.value[i] == FrameOf(source.results[indices[i]].frame)
  {
    var ok := ValidateIndices(indices);
    if !ok { return Failure(NotSorted); }
    if indices == [] { return Success([]); }
    var reader := new Reader(source);
    var extracted: seq<Frame> := [];
    var i := 0;
    while i < |indices|
      invariant 0 <= i <= |indices| && |extracted| == i && reader.source == source
      invariant forall k :: 0 <= k < i ==> extracted[k].index == indices[k]
      invariant forall w: nat, h: nat ::
        Faithful(source.results, w, h) && Below(indices, |source.results|)
        && source.start == indices[0] && old(source.next) == source.start ==>
        reader.Aligned(w, h) && (i == 0 ==> reader.previousRequested == None)
        && (i > 0 ==> reader.previousRequested == Some(indices[i - 1]))
        && forall k :: 0 <= k < i ==> extracted[k] == FrameOf(source.results[indices[k]].frame)
    {
      var frame := reader.Read(indices[i]);
      if frame.Failure? { return Failure(frame.error); }
      extracted := extracted + [frame.value];
      i := i + 1;
    }
    return Success(extracted);
  }
}
