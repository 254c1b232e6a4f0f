/** Frame sampling (sampling.cpp): which frames are selected, in exact arithmetic, for one video and for a
    synchronised pair. */
module Sampling {
  import opened Results

  const MAX_U64: nat := 0xFFFF_FFFF_FFFF_FFFF
  const MAX_SYNC_OFFSET: nat := 100000

  type Count = n: nat | n <= MAX_U64

  /** `rust_float_to_u64_saturating` on a number. */
  function ToCount(value: real): (n: Count)
    ensures value <= 0.0 ==> n == 0
    ensures 0.0 < value < (MAX_U64 + 1) as real ==> n as real <= value < n as real + 1.0
  {
    if value <= 0.0 then 0
    else if value >= (MAX_U64 + 1) as real then MAX_U64
    else value.Floor
  }

  function SaturatingSub(a: nat, b: nat): (r: nat)
    ensures r <= a
  {
    if b > a then 0 else a - b
  }

  function Product(a: real, b: real): real { a * b }

  /** The first frame that may be selected. */
  function Start(total: Count, fps: real, skipStart: real): Count {
    if skipStart > 0.0 then Min(ToCount(Product(skipStart, fps)), total) else ToCount(Product(total as real, 0.05))
  }

  /** One past the last frame that may be selected. */
  function End(total: Count, fps: real, skipEnd: real): (e: Count)
    ensures e <= total
  {
    if skipEnd > 0.0 then SaturatingSub(total, ToCount(Product(skipEnd, fps)))
    else
      ToCount(Product(total as real, 0.95))
  }

  /** What is skipped, in seconds and in parts of the video: the start is the frame at `skipStart` seconds, or at a
      twentieth of the video without one, and at most the video's length; the end is `skipEnd` seconds before the
      last frame, or a twentieth of the video. */
  lemma {:induction false} SkippedExact(total: Count, fps: real, skipStart: real, skipEnd: real)
    requires fps > 0.0
    ensures skipStart <= 0.0 ==>
      Start(total, fps, skipStart) as real <= total as real * 0.05 < Start(total, fps, skipStart) as real + 1.0
    ensures skipStart > 0.0 && skipStart * fps >= total as real ==> Start(total, fps, skipStart) == total
    ensures skipStart > 0.0 && skipStart * fps < total as real ==>
      Start(total, fps, skipStart) as real <= skipStart * fps < Start(total, fps, skipStart) as real + 1.0
    ensures skipEnd <= 0.0 ==>
      End(total, fps, skipEnd) as real <= total as real * 0.95 < End(total, fps, skipEnd) as real + 1.0
    ensures skipEnd > 0.0 && skipEnd * fps >= total as real ==> End(total, fps, skipEnd) == 0
    ensures skipEnd > 0.0 && skipEnd * fps < total as real ==>
      End(total, fps, skipEnd) as real - 1.0 < total as real - skipEnd * fps <= End(total, fps, skipEnd) as real
  {
    if skipStart > 0.0 {
      FloorOf(skipStart, fps, total);
    }
    if skipEnd > 0.0 {
      FloorOf(skipEnd, fps, total);
    }
  }

  /** A positive product as a count, against a bound. */
  lemma {:induction false} FloorOf(a: real, b: real, total: Count)
    requires a > 0.0 && b > 0.0
    ensures a * b >= total as real ==> ToCount(Product(a, b)) >= total
    ensures a * b < total as real ==>
      ToCount(Product(a, b)) as real <= a * b < ToCount(Product(a, b)) as real + 1.0
  {
    Cancels(a, b);
  }

  predicate Increasing(s: seq<nat>) { forall i, j :: 0 <= i < j < |s| ==> s[i] < s[j] }

  predicate Below(s: seq<nat>, bound: nat) { forall i :: 0 <= i < |s| ==> s[i] < bound }

  // ----- segments ----------------------------------------------------------------------------------------------

  /** The middle of segment `i` of `n` equal parts of `usable` frames. */
  function Middle(start: nat, usable: nat, n: nat, i: nat): real
    requires n > 0
  {
    start as real + Product(i as real + 0.5, usable as real / n as real)
  }

  lemma {:induction false} ProductGrows(a: real, b: real, s: real)
    requires a <= b && s >= 0.0
    ensures Product(a, s) <= Product(b, s)
  {
    NotNegative(b - a, s);
    assert (b - a) * s == b * s - a * s;
  }

  lemma {:induction false} NotNegative(a: real, b: real)
    requires a >= 0.0 && b >= 0.0
    ensures a * b >= 0.0
  {
  }

  lemma {:induction false} SegmentSize(usable: nat, n: nat)
    requires 0 < n <= usable
    ensures usable as real / n as real >= 1.0
    ensures Product(n as real, usable as real / n as real) == usable as real
  {
    var size := usable as real / n as real;
    assert size * n as real == usable as real;
    if size < 1.0 {
      assert (1.0 - size) * n as real == n as real - size * n as real;
      Cancels(1.0 - size, n as real);
    }
  }

  lemma {:induction false} Cancels(a: real, b: real)
    requires a > 0.0 && b > 0.0
    ensures a * b > 0.0
  {
  }

  /** Every middle lies inside the usable range, and the next one is at least a frame further. */
  lemma {:induction false} MiddleInside(start: nat, usable: nat, n: nat, i: nat)
    requires 0 < n <= usable && i < n
    ensures start as real < Middle(start, usable, n, i) < (start + usable) as real
    ensures Middle(start, usable, n, i + 1) >= Middle(start, usable, n, i) + 1.0
  {
    SegmentSize(usable, n);
    var size := usable as real / n as real;
    Cancels(i as real + 0.5, size);
    ProductGrows(i as real + 0.5, n as real - 0.5, size);
    assert Product(n as real, size) == Product(n as real - 0.5, size) + 0.5 * size;
    assert Product((i + 1) as real + 0.5, size) == Product(i as real + 0.5, size) + size;
  }

  /** The index chosen in segment `i`. */
  function Index(start: nat, usable: nat, n: nat, i: nat): nat
    requires 0 < n && usable > 0
  {
    Min(ToCount(Middle(start, usable, n, i)), start + usable - 1)
  }

  lemma {:induction false} IndexIsFloor(start: nat, usable: nat, n: nat, i: nat)
    requires 0 < n <= usable && i < n && start + usable <= MAX_U64
    ensures Index(start, usable, n, i) as real <= Middle(start, usable, n, i) < Index(start, usable, n, i) as real + 1.0
    ensures start <= Index(start, usable, n, i) < start + usable
  {
    MiddleInside(start, usable, n, i);
    hide Middle;
  }

  lemma {:induction false} IndexIncreases(start: nat, usable: nat, n: nat, i: nat, j: nat)
    requires 0 < n <= usable && i < j < n && start + usable <= MAX_U64
    ensures Index(start, usable, n, i) < Index(start, usable, n, j)
  {
    IndexIsFloor(start, usable, n, i);
    IndexIsFloor(start, usable, n, j);
    MiddleInside(start, usable, n, j - 1);
    if i < j - 1 {
      IndexIncreases(start, usable, n, i, j - 1);
      IndexIsFloor(start, usable, n, j - 1);
    }
    hide Middle, Index;
  }

  // ----- one video -----------------------------------------------------------------------------------------------

  /** How many frames are selected. */
  function Selected(total: Count, fps: real, samples: nat, skipStart: real, skipEnd: real): nat {
    if total == 0 || samples == 0 || fps <= 0.0 then 0
    else Max(1, Min(samples, SaturatingSub(End(total, fps, skipEnd), Start(total, fps, skipStart))))
  }

  /** As many frames as are selected; the middle frame of the video if all are skipped, else one for the middle of
      each segment of the frames not skipped. */
  ghost predicate SelectionOf(indices: seq<nat>, total: Count, fps: real, samples: nat, skipStart: real, skipEnd: real) {
    && |indices| == Selected(total, fps, samples, skipStart, skipEnd)
    && var start, end := Start(total, fps, skipStart), End(total, fps, skipEnd);
       if start < end then
         forall i :: 0 <= i < |indices| ==>
           start <= indices[i] < end && indices[i] == Index(start, end - start, |indices|, i)
       else indices == [] || indices == [total / 2]
  }

  /** `select_frame_indices`: strictly increasing indices of frames of the video, one for the middle of each
      segment of the frames not skipped. */
  method SelectFrameIndices(total: Count, fps: real, samples: nat, skipStart: real, skipEnd: real)
    returns (indices: seq<nat>)
    ensures Increasing(indices) && Below(indices, total)
    ensures SelectionOf(indices, total, fps, samples, skipStart, skipEnd)
  {
    hide Start, End, Index, ToCount;
    if total == 0 || samples == 0 || fps <= 0.0 { return []; }
    var start, end := Start(total, fps, skipStart), End(total, fps, skipEnd);
    var usable := SaturatingSub(end, start);
    if usable == 0 { return [total / 2]; }
    var n := Min(samples, usable);
    indices := [];
    var i := 0;
    while i < n
      invariant 0 <= i <= n && |indices| == i
      invariant forall k :: 0 <= k < i ==> indices[k] == Index(start, usable, n, k)
      invariant forall k :: 0 <= k < i ==> start <= indices[k] < end
    {
      IndexIsFloor(start, usable, n, i);
      indices := indices + [PickIndex(start, usable, end, n, i)];
      i := i + 1;
    }
    forall j, k | 0 <= j < k < n ensures indices[j] < indices[k] {
      IndexIncreases(start, usable, n, j, k);
    }
  }

  function PickIndex(start: nat, usable: nat, end: nat, n: nat, i: nat): (r: nat)
    requires 0 < n && usable > 0 && end == start + usable
    ensures r == Index(start, usable, n, i)
  {
    var size := usable as real / n as real;
    var middle := start as real + Product(i as real + 0.5, size);
    Min(ToCount(middle), end - 1)
  }

  // ----- a synchronised pair -----------------------------------------------------------------------------------------

  function Shifted(base: seq<nat>, offset: nat): (r: seq<nat>)
    ensures |r| == |base| && forall i :: 0 <= i < |r| ==> r[i] == base[i] + offset
  {
    seq(|base|, i requires 0 <= i < |base| => base[i] + offset)
  }

  /** `select_synchronized_frame_indices`: None is the thrown error.  Both lists are as long, strictly increasing,
      inside their videos, and apart by the offset everywhere. */
  method SelectSynchronized(leftTotal: Count, rightTotal: Count, fps: real, samples: nat, skipStart: real,
                            skipEnd: real, syncOffset: int)
    returns (r: Option<(seq<nat>, seq<nat>)>)
    ensures r.None? <==> syncOffset < -(MAX_SYNC_OFFSET as int) || syncOffset > MAX_SYNC_OFFSET
    ensures r.Some? ==> var (left, right) := r.value;
      && |left| == |right| && Increasing(left) && Increasing(right)
      && Below(left, leftTotal) && Below(right, rightTotal)
      && forall i :: 0 <= i < |left| ==> right[i] as int - left[i] as int == syncOffset
    ensures r.Some? ==>
      SelectionOf(if syncOffset >= 0 then r.value.0 else r.value.1, Overlap(leftTotal, rightTotal, syncOffset), fps,
                  samples, skipStart, skipEnd)
    ensures r.Some? && samples > 0 && fps > 0.0 && Overlap(leftTotal, rightTotal, syncOffset) > 0 ==> r.value.0 != []
  {
    hide Start, End, Index, ToCount;
    if syncOffset < -(MAX_SYNC_OFFSET as int) || syncOffset > MAX_SYNC_OFFSET { return None; }
    var offset: nat := if syncOffset >= 0 then syncOffset else -syncOffset;
    var usableLeft: Count, usableRight: Count := leftTotal, rightTotal;
    if syncOffset >= 0 {
      if offset >= rightTotal { return Some(([], [])); }
      usableRight := usableRight - offset;
    } else {
      if offset >= leftTotal { return Some(([], [])); }
      usableLeft := usableLeft - offset;
    }
    var base := SelectFrameIndices(Min(usableLeft, usableRight), fps, samples, skipStart, skipEnd);
    var left, right := base, base;
    if syncOffset >= 0 {
      right := Shifted(right, offset);
    } else {
      left := Shifted(left, offset);
    }
    return Some((left, right));
  }

  /** How many frames the two videos have in common once aligned. */
  function Overlap(leftTotal: nat, rightTotal: nat, syncOffset: int): nat {
    if syncOffset >= 0 then Min(leftTotal, SaturatingSub(rightTotal, syncOffset))
    else Min(SaturatingSub(leftTotal, -syncOffset), rightTotal)
  }
}
