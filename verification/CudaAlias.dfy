/** Retained CUDA spans, their physical provenance and the alias test (cuda_backend.cpp).  The driver
    maps virtual granules onto physical allocations at offsets it does not report; the test must be
    right for every such mapping. */
module CudaAlias {
  import opened Arithmetic
  import opened Results

  const MAX_ADDRESS: nat := 0xffff_ffff_ffff_ffff

  datatype Range = Range(block: nat, base: nat, size: nat, first: nat, last: nat)

  /** Where one byte of a span comes from, as far as the driver tells. */
  datatype Tag = Tag(block: nat, base: nat, size: nat, offset: nat)

  datatype Span = Span(ptr: nat, size: nat, isVmm: bool, complete: bool, ranges: seq<Range>) {
    ghost predicate Valid() {
      0 < size && ptr + size - 1 <= MAX_ADDRESS && (forall r :: r in ranges ==> r.first <= r.last)
    }

    function Last(): int { ptr + size - 1 }
  }

  // ----- provenance ranges -------------------------------------------------------------------------

  function Bytes(r: Range): seq<Tag>
    requires r.first <= r.last
  {
    seq(r.last - r.first + 1, (i: nat) => Tag(r.block, r.base, r.size, r.first + i))
  }

  function Expand(ranges: seq<Range>): seq<Tag>
    requires forall r :: r in ranges ==> r.first <= r.last
  {
    if ranges == [] then []
    else Expand(ranges[..|ranges| - 1]) + Bytes(ranges[|ranges| - 1])
  }

  predicate Extends(previous: Range, r: Range) {
    && previous.block == r.block && previous.base == r.base && previous.size == r.size
    && previous.last + 1 == r.first
  }

  /** `append_vmm_provenance_range`: coalescing loses no byte, adds none and keeps the order. */
  method AppendRange(ranges: seq<Range>, r: Range) returns (out: seq<Range>)
    requires r.first <= r.last && Ordered(ranges)
    ensures Ordered(out)
    ensures Expand(out) == Expand(ranges) + Bytes(r)
    ensures |out| <= |ranges| + 1
  {
    if ranges != [] {
      var n := |ranges| - 1;
      var previous := ranges[n];
      if Extends(previous, r) {
        var merged := previous.(last := r.last);
        out := ranges[n := merged];
        assert out[..n] == ranges[..n];
        assert forall x :: x in out ==> x in ranges[..n] || x == merged;
        assert Bytes(merged) == Bytes(previous) + Bytes(r);
        return;
      }
    }
    out := ranges + [r];
    assert out[..|ranges|] == ranges;
  }

  // ----- the granule loop of retain_device_span ------------------------------------------------------

  datatype Identity = Identity(block: nat, base: nat, size: nat)

  /** What the driver answers about one granule: access, identity if every attribute call succeeds, the
      allocation handle if it can be retained, and whether releasing a duplicate works. */
  datatype Answer = Answer(accessible: bool, identity: Option<Identity>, handle: Option<nat>, releases: bool)

  type Driver = nat -> Answer

  datatype Failure = NoAccess | NotCovered | NoHandle | NoRelease

  function Granule(a: nat, g: nat): nat
    requires 0 < g
  {
    a / g * g
  }

  function TagFrom(d: Driver, g: nat, a: nat): Tag
    requires 0 < g
  {
    var id := d(Granule(a, g)).identity;
    if id.None? || a < id.value.base then Tag(0, 0, 0, 0)
    else Tag(id.value.block, id.value.base, id.value.size, a - id.value.base)
  }

  /** Every byte's granule has an identity. */
  ghost predicate Identified(d: Driver, g: nat, ptr: nat, count: nat)
    requires 0 < g
  {
    forall a: nat :: ptr <= a < ptr + count ==> d(Granule(a, g)).identity.Some?
  }

  function TagsFrom(d: Driver, g: nat, ptr: nat, count: nat): seq<Tag>
    requires 0 < g
  {
    seq(count, (i: nat) => TagFrom(d, g, ptr + i))
  }

  /** `Granule` agrees with the source's `a - a % g`, contains `a`, and steps by `g`. */
  lemma {:induction false} GranuleBounds(a: nat, g: nat)
    requires 0 < g
    ensures Granule(a, g) == a - a % g && Granule(a, g) <= a < Granule(a, g) + g
    ensures Granule(a, g) % g == 0
  {
    assert a == a / g * g + a % g;
    ModOfProduct(a / g, g);
  }

  lemma {:induction false} SameGranule(a: nat, region: nat, g: nat)
    requires 0 < g && region % g == 0 && region <= a < region + g
    ensures Granule(a, g) == region
  {
    var q := region / g;
    assert region == q * g;
    QuotientUnique(a, g, q, a - region);
  }

  lemma {:induction false} MultiplesApart(a: nat, b: nat, g: nat)
    requires 0 < g && a % g == 0 && b % g == 0 && a < b
    ensures a + g <= b
  {
    var p, q := a / g, b / g;
    assert a == p * g && b == q * g;
    assert (q - p) * g == b - a;
    NonnegativeFactor(q - p, g);
    MultipleAtLeast(q - p, g);
  }

  datatype Retained = Retained(ranges: seq<Range>, complete: bool, handles: seq<nat>)

  function Tags(id: Identity, first: nat, count: nat): seq<Tag>
    requires id.base <= first
  {
    seq(count, (i: nat) => Tag(id.block, id.base, id.size, first - id.base + i))
  }

  predicate CoveredBy(id: Identity, first: nat, last: nat) { id.base <= first && last - id.base < id.size }

  /** One granule's identity: the range it contributes, or the loss of the identity. */
  method NoteIdentity(ranges: seq<Range>, id: Option<Identity>, first: nat, last: nat)
    returns (r: Result<(seq<Range>, bool), Failure>)
    requires first <= last && Ordered(ranges)
    ensures r.Failure? <==> id.Some? && !CoveredBy(id.value, first, last)
    ensures r.Failure? ==> r.error == NotCovered
    ensures r.Success? ==> Ordered(r.value.0) && (r.value.1 <==> id.Some?)
    ensures r.Success? && r.value.1 ==> CoveredBy(id.value, first, last)
    ensures r.Success? && r.value.1 ==>
      Expand(r.value.0) == Expand(ranges) + Tags(id.value, first, last - first + 1)
    ensures r.Success? && !r.value.1 ==> r.value.0 == []
  {
    if id.None? {
      return Success(([], false));
    }
    var Identity(block, base, size) := id.value;
    if size == 0 || first < base || last < base || first - base >= size || last - base >= size {
      return Failure(NotCovered);
    }
    var range := Range(block, base, size, first - base, last - base);
    var out := AppendRange(ranges, range);
    assert Bytes(range) == Tags(id.value, first, last - first + 1);
    return Success((out, true));
  }

  ghost predicate Distinct(handles: seq<nat>) {
    forall i, k :: 0 <= i < k < |handles| ==> handles[i] != handles[k]
  }

  ghost predicate Ordered(ranges: seq<Range>) { forall x :: x in ranges ==> x.first <= x.last }

  /** What may stay held after a failure: nothing, or the duplicate whose release failed. */
  ghost predicate Released(held: multiset<nat>, error: Failure) {
    held == multiset{} || (error == NoRelease && |held| == 1)
  }

  /** The allocation handle of a granule: kept if it is new, released again if it is already held. */
  method KeepHandle(handles: seq<nat>, answer: Answer) returns (r: Result<seq<nat>, Failure>, ghost held: multiset<nat>)
    requires Distinct(handles)
    ensures r.Failure? <==> answer.handle.None? || (answer.handle.value in handles && !answer.releases)
    ensures r.Failure? ==> r.error == if answer.handle.None? then NoHandle else NoRelease
    ensures r.Success? ==> Distinct(r.value) && held == multiset(r.value)
    ensures r.Success? ==> answer.handle.Some?
    ensures r.Success? ==> r.value == if answer.handle.value in handles then handles else handles + [answer.handle.value]
    ensures r.Failure? ==> Released(held, r.error)
  {
    held := multiset(handles);
    if answer.handle.None? {
      return Failure(NoHandle), multiset{};
    }
    var handle := answer.handle.value;
    held := held + multiset{handle};
    if handle !in handles {
      return Success(handles + [handle]), held;
    }
    if !answer.releases {
      held := held - multiset(handles);
      return Failure(NoRelease), held;
    }
    held := held - multiset{handle};
    return Success(handles), held;
  }

  /** What refuses a granule, tested in this order, after granules that left `before`. */
  function Refusal(answer: Answer, before: Retained, first: nat, last: nat): Option<Failure> {
    if !answer.accessible then Some(NoAccess)
    else if before.complete && answer.identity.Some? && !CoveredBy(answer.identity.value, first, last) then Some(NotCovered)
    else if answer.handle.None? then Some(NoHandle)
    else if answer.handle.value in before.handles && !answer.releases then Some(NoRelease)
    else None
  }

  /** One pass of the granule loop over the covered bytes `first ..= last` of a granule. */
  method VisitGranule(answer: Answer, before: Retained, first: nat, last: nat)
    returns (r: Result<Retained, Failure>, ghost held: multiset<nat>)
    requires first <= last && Ordered(before.ranges) && Distinct(before.handles)
    requires !before.complete ==> before.ranges == []
    ensures Refusal(answer, before, first, last) == if r.Failure? then Some(r.error) else None
    ensures r.Success? ==> Ordered(r.value.ranges) && Distinct(r.value.handles) && held == multiset(r.value.handles)
    ensures r.Success? ==> (r.value.complete <==> before.complete && answer.identity.Some?)
    ensures r.Success? ==> answer.handle.Some?
    ensures r.Success? ==>
      r.value.handles == (if answer.handle.value in before.handles then before.handles
                          else before.handles + [answer.handle.value])
    ensures r.Success? && r.value.complete ==>
      before.complete && answer.identity.Some? && answer.identity.value.base <= first
    ensures r.Success? && r.value.complete ==>
      Expand(r.value.ranges) == Expand(before.ranges) + Tags(answer.identity.value, first, last - first + 1)
    ensures r.Success? && !r.value.complete ==> r.value.ranges == []
    ensures r.Failure? ==> Released(held, r.error)
  {
    if !answer.accessible {
      return Failure(NoAccess), multiset{};
    }
    var ranges, complete := before.ranges, before.complete;
    if complete {
      var noted := NoteIdentity(ranges, answer.identity, first, last);
      if noted.Failure? {
        return Failure(noted.error), multiset{};
      }
      ranges, complete := noted.value.0, noted.value.1;
    }
    var kept;
    kept, held := KeepHandle(before.handles, answer);
    if kept.Failure? {
      return Failure(kept.error), held;
    }
    return Success(Retained(ranges, complete, kept.value)), held;
  }

  // The granules of a span, and what decides about each, by the driver's answers alone.

  /** The granule at `region` holds a byte of the span. */
  predicate Meets(ptr: nat, size: nat, g: nat, region: nat)
    requires 0 < g
  {
    region % g == 0 && ptr < region + g && region < ptr + size
  }

  /** Every granule up to `region` has an identity. */
  ghost predicate IdentifiedTo(d: Driver, ptr: nat, size: nat, g: nat, region: int)
    requires 0 < g
  {
    forall e: nat :: Meets(ptr, size, g, e) && e <= region ==> d(e).identity.Some?
  }

  /** An earlier granule gave the handle. */
  ghost predicate GivenBefore(d: Driver, ptr: nat, size: nat, g: nat, region: nat, handle: nat)
    requires 0 < g
  {
    exists e: nat :: Meets(ptr, size, g, e) && e < region && d(e).handle == Some(handle)
  }

  /** Why a granule is refused: it is not accessible; or it has an identity, as all before it had, that does not
      cover the span's bytes in it; or it gives no handle; or it gives one that an earlier granule gave and does not
      release it. */
  ghost function Objection(d: Driver, ptr: nat, size: nat, g: nat, region: nat): Option<Failure>
    requires 0 < g && 0 < size
  {
    var a := d(region);
    if !a.accessible then Some(NoAccess)
    else if IdentifiedTo(d, ptr, size, g, region) && a.identity.Some?
            && !(a.identity.value.base <= Max(ptr, region)
                 && Min(ptr + size, region + g) <= a.identity.value.base + a.identity.value.size) then Some(NotCovered)
    else if a.handle.None? then Some(NoHandle)
    else if GivenBefore(d, ptr, size, g, region, a.handle.value) && !a.releases then Some(NoRelease)
    else None
  }

  /** No granule before `region` is refused. */
  ghost predicate NoneRefused(d: Driver, ptr: nat, size: nat, g: nat, region: nat)
    requires 0 < g && 0 < size
  {
    forall e: nat :: Meets(ptr, size, g, e) && e < region ==> Objection(d, ptr, size, g, e).None?
  }

  /** The handles are those of the granules before `region`. */
  ghost predicate HandlesOf(d: Driver, ptr: nat, size: nat, g: nat, region: nat, handles: seq<nat>)
    requires 0 < g
  {
    forall h: nat :: h in handles <==> GivenBefore(d, ptr, size, g, region, h)
  }

  /** What the loop knows when it comes to `region`. */
  ghost predicate Known(d: Driver, ptr: nat, size: nat, g: nat, region: nat, state: Retained)
    requires 0 < g && 0 < size
  {
    && NoneRefused(d, ptr, size, g, region) && HandlesOf(d, ptr, size, g, region, state.handles)
    && (state.complete <==> IdentifiedTo(d, ptr, size, g, region - 1))
  }

  /** The state of the loop when it comes to `region`, with the span's first `covered` bytes behind it. */
  ghost predicate SoFar(d: Driver, ptr: nat, size: nat, g: nat, region: nat, covered: nat, state: Retained)
    requires 0 < g && 0 < size
  {
    && Known(d, ptr, size, g, region, state) && Ordered(state.ranges) && Distinct(state.handles)
    && (state.complete ==>
          Expand(state.ranges) == TagsFrom(d, g, ptr, covered) && Identified(d, g, ptr, covered))
    && (!state.complete ==> state.ranges == [])
  }

  /** One pass of the granule loop. */
  method PassGranule(d: Driver, ptr: nat, size: nat, g: nat, region: nat, state: Retained, ghost covered: nat)
    returns (r: Result<Retained, Failure>, ghost next: nat, ghost held: multiset<nat>)
    requires 0 < size && ptr + size - 1 <= MAX_ADDRESS && 0 < g && Meets(ptr, size, g, region)
    requires SoFar(d, ptr, size, g, region, covered, state) && Max(ptr, region) == ptr + covered
    ensures r.Success? ==> SoFar(d, ptr, size, g, region + g, next, r.value) && ptr + next == Min(ptr + size, region + g)
    ensures r.Success? ==> held == multiset(r.value.handles)
    ensures r.Failure? ==>
      Released(held, r.error) && NoneRefused(d, ptr, size, g, region) && Objection(d, ptr, size, g, region) == Some(r.error)
  {
    SoFarParts(d, ptr, size, g, region, covered, state);
    hide Meets, SoFar, NoneRefused, Objection, Refusal, Released, Ordered, Distinct, Expand, Tags;
    var last := ptr + size - 1;
    var first := Max(ptr, region);
    var end := Min(last, region + Min(g - 1, MAX_ADDRESS - region));
    ghost var count := end - first + 1;
    assert first == ptr + covered && count > 0 && ptr + covered + count == Min(ptr + size, region + g);
    RefusalIsObjection(d, ptr, size, g, region, state);
    r, held := VisitGranule(d(region), state, first, end);
    next := covered + count;
    if r.Success? {
      PassedSoFar(d, ptr, size, g, region, state, r.value, covered, count);
    }
  }

  lemma {:induction false} SoFarParts(d: Driver, ptr: nat, size: nat, g: nat, region: nat, covered: nat, state: Retained)
    requires 0 < g && 0 < size && SoFar(d, ptr, size, g, region, covered, state)
    requires Meets(ptr, size, g, region)
    ensures ptr < region + g && region < ptr + size
    ensures NoneRefused(d, ptr, size, g, region) && Known(d, ptr, size, g, region, state)
    ensures Ordered(state.ranges) && Distinct(state.handles)
    ensures !state.complete ==> state.ranges == []
  {
  }

  lemma {:induction false} PassedSoFar(d: Driver, ptr: nat, size: nat, g: nat, region: nat, state: Retained,
                                       next: Retained, covered: nat, count: nat)
    requires 0 < g && 0 < size && Meets(ptr, size, g, region) && SoFar(d, ptr, size, g, region, covered, state)
    requires Objection(d, ptr, size, g, region).None?
    requires Max(ptr, region) == ptr + covered && ptr + covered + count <= region + g
    requires Ordered(next.ranges) && Distinct(next.handles) && (!next.complete ==> next.ranges == [])
    requires next.complete <==> state.complete && d(region).identity.Some?
    requires next.complete ==>
      var id := d(region).identity.value;
      id.base <= ptr + covered && Expand(next.ranges) == Expand(state.ranges) + Tags(id, ptr + covered, count)
    requires d(region).handle.Some? && next.handles ==
      if d(region).handle.value in state.handles then state.handles else state.handles + [d(region).handle.value]
    ensures SoFar(d, ptr, size, g, region + g, covered + count, next)
  {
    GranulePassed(d, ptr, size, g, region, state, next);
    hide Known, Objection, Expand;
    if next.complete {
      TagsExtend(d, g, ptr, covered, ptr + covered, count, region);
    }
  }

  /** The granule loop.  The span is retained exactly if no granule is refused, and the error is that of the first
      one that is.  The identity is complete exactly if every byte has one; then the coalesced ranges spell out the
      span byte by byte.  Each handle the granules gave is held exactly once.  On failure nothing stays held, except
      a duplicate whose own release failed.  The overflow check never fires. */
  method RetainGranules(d: Driver, ptr: nat, size: nat, g: nat)
    returns (r: Result<Retained, Failure>, ghost held: multiset<nat>)
    requires 0 < size && ptr + size - 1 <= MAX_ADDRESS && 0 < g <= MAX_ADDRESS
    ensures r.Success? <==> NoneRefused(d, ptr, size, g, ptr + size)
    ensures r.Failure? ==> exists e: nat :: Meets(ptr, size, g, e) && NoneRefused(d, ptr, size, g, e)
                                            && Objection(d, ptr, size, g, e) == Some(r.error)
    ensures r.Success? ==> (r.value.complete <==> Identified(d, g, ptr, size))
    ensures r.Success? ==> HandlesOf(d, ptr, size, g, ptr + size, r.value.handles)
    ensures r.Success? ==> Ordered(r.value.ranges) && Distinct(r.value.handles) && held == multiset(r.value.handles)
    ensures r.Success? && r.value.complete ==>
      Expand(r.value.ranges) == TagsFrom(d, g, ptr, size) && Identified(d, g, ptr, size)
    ensures r.Success? && !r.value.complete ==> r.value.ranges == []
    ensures r.Failure? ==> Released(held, r.error)
  {
    hide Known, Objection, NoneRefused, HandlesOf, Identified, TagsFrom, Expand, SoFar;
    held := multiset{};
    var last := ptr + size - 1;
    GranuleBounds(ptr, g);
    GranuleBounds(last, g);
    var region := ptr - ptr % g;
    var lastRegion := last - last % g;
    FirstNotAfterLast(region, lastRegion, ptr, last, g);
    var state := Retained([], true, []);
    ghost var covered: nat := 0;
    NothingYet(d, ptr, size, g, region);
    while true
      invariant Aligned(region, lastRegion, last, g)
      invariant ptr + covered <= last && Max(ptr, region) == ptr + covered < region + g
      invariant SoFar(d, ptr, size, g, region, covered, state)
      decreases lastRegion - region
    {
      var visited;
      ghost var next;
      visited, next, held := PassGranule(d, ptr, size, g, region, state, covered);
      if visited.Failure? {
        RefusedHere(d, ptr, size, g, region);
        return Failure(visited.error), held;
      }
      state, covered := visited.value, next;
      if region == lastRegion {
        AllPassed(d, ptr, size, g, region, covered, state);
        return Success(state), held;
      }
      NextGranule(region, lastRegion, last, g);
      if region > MAX_ADDRESS - g {
        assert false;
      }
      region := region + g;
    }
  }

  lemma {:induction false} NothingYet(d: Driver, ptr: nat, size: nat, g: nat, region: nat)
    requires 0 < g && 0 < size && region % g == 0 && region <= ptr
    ensures SoFar(d, ptr, size, g, region, 0, Retained([], true, []))
  {
    NoneEarlier(d, ptr, size, g, region);
    hide Known;
  }

  lemma {:induction false} NoneEarlier(d: Driver, ptr: nat, size: nat, g: nat, region: nat)
    requires 0 < g && 0 < size && region % g == 0 && region <= ptr
    ensures Known(d, ptr, size, g, region, Retained([], true, []))
  {
    hide Objection;
    forall e: nat | Meets(ptr, size, g, e) ensures e >= region {
      if e < region {
        MultiplesApart(e, region, g);
      }
    }
  }

  /** The tests of one pass, in terms of the driver's answers for the granules before it. */
  lemma {:induction false} RefusalIsObjection(d: Driver, ptr: nat, size: nat, g: nat, region: nat, state: Retained)
    requires 0 < g && 0 < size && ptr + size - 1 <= MAX_ADDRESS && Meets(ptr, size, g, region)
    requires Known(d, ptr, size, g, region, state)
    ensures var end := Min(ptr + size - 1, region + Min(g - 1, MAX_ADDRESS - region));
      Refusal(d(region), state, Max(ptr, region), end) == Objection(d, ptr, size, g, region)
  {
    hide NoneRefused;
    assert IdentifiedTo(d, ptr, size, g, region) <==> IdentifiedTo(d, ptr, size, g, region - 1) && d(region).identity.Some?;
  }

  /** One objection is enough. */
  lemma {:induction false} RefusedHere(d: Driver, ptr: nat, size: nat, g: nat, region: nat)
    requires 0 < g && 0 < size && Meets(ptr, size, g, region) && Objection(d, ptr, size, g, region).Some?
    ensures !NoneRefused(d, ptr, size, g, ptr + size)
  {
    hide Objection;
  }

  /** The granule after `region` is the next multiple, so what was known before `region` is known before that. */
  lemma {:induction false} GranulePassed(d: Driver, ptr: nat, size: nat, g: nat, region: nat, state: Retained, next: Retained)
    requires 0 < g && 0 < size && Meets(ptr, size, g, region)
    requires Known(d, ptr, size, g, region, state) && Objection(d, ptr, size, g, region).None?
    requires next.complete <==> state.complete && d(region).identity.Some?
    requires d(region).handle.Some? && next.handles ==
      if d(region).handle.value in state.handles then state.handles else state.handles + [d(region).handle.value]
    ensures Known(d, ptr, size, g, region + g, next)
  {
    forall e: nat | Meets(ptr, size, g, e) && e < region + g ensures e <= region {
      if e > region {
        MultiplesApart(region, e, g);
      }
    }
    hide Objection;
    forall h: nat ensures h in next.handles <==> GivenBefore(d, ptr, size, g, region + g, h) {
      assert GivenBefore(d, ptr, size, g, region + g, h) <==>
        GivenBefore(d, ptr, size, g, region, h) || d(region).handle == Some(h);
    }
  }

  /** Past the last granule everything is known. */
  lemma {:induction false} AllPassed(d: Driver, ptr: nat, size: nat, g: nat, region: nat, covered: nat, state: Retained)
    requires 0 < g && 0 < size && region < ptr + size <= region + g && covered == size
    requires SoFar(d, ptr, size, g, region + g, covered, state)
    ensures Ordered(state.ranges) && Distinct(state.handles) && (!state.complete ==> state.ranges == [])
    ensures state.complete ==> Expand(state.ranges) == TagsFrom(d, g, ptr, size)
    ensures NoneRefused(d, ptr, size, g, ptr + size) && HandlesOf(d, ptr, size, g, ptr + size, state.handles)
    ensures state.complete <==> Identified(d, g, ptr, size)
  {
    hide Objection;
    assert forall e: nat :: Meets(ptr, size, g, e) ==> e < ptr + size;
    var next, end := region + g, ptr + size;
    assert forall h: nat :: GivenBefore(d, ptr, size, g, next, h) <==> GivenBefore(d, ptr, size, g, end, h);
    if Identified(d, g, ptr, size) {
      forall e: nat | Meets(ptr, size, g, e) ensures d(e).identity.Some? {
        SameGranule(Max(ptr, e), e, g);
      }
    }
    if IdentifiedTo(d, ptr, size, g, region + g - 1) {
      forall a: nat | ptr <= a < ptr + size ensures d(Granule(a, g)).identity.Some? {
        GranuleBounds(a, g);
        assert Meets(ptr, size, g, Granule(a, g));
      }
    }
  }

  ghost predicate Aligned(region: nat, lastRegion: nat, last: nat, g: nat)
    requires 0 < g
  {
    region % g == 0 && lastRegion % g == 0 && region <= lastRegion <= last < lastRegion + g && last <= MAX_ADDRESS
  }

  lemma {:induction false} NextGranule(region: nat, lastRegion: nat, last: nat, g: nat)
    requires 0 < g && Aligned(region, lastRegion, last, g) && region != lastRegion
    ensures Aligned(region + g, lastRegion, last, g) && region + g <= MAX_ADDRESS
  {
    MultiplesApart(region, lastRegion, g);
    NextMultiple(region, g);
  }

  lemma {:induction false} FirstNotAfterLast(region: nat, lastRegion: nat, ptr: nat, last: nat, g: nat)
    requires 0 < g && region % g == 0 && lastRegion % g == 0
    requires region <= ptr <= last < lastRegion + g
    ensures region <= lastRegion
  {
    if lastRegion < region {
      MultiplesApart(lastRegion, region, g);
    }
  }

  lemma {:induction false} NextMultiple(region: nat, g: nat)
    requires 0 < g && region % g == 0
    ensures (region + g) % g == 0
  {
    ModOfProduct(1, g);
    SumOfMultiples(region, g, g);
  }

  /** The bytes of one granule continue the tags of the bytes before it. */
  lemma {:induction false} TagsExtend(d: Driver, g: nat, ptr: nat, covered: nat, first: nat, count: nat, region: nat)
    requires 0 < g && region % g == 0 && first == ptr + covered
    requires region <= first && first + count <= region + g
    requires d(region).identity.Some? && d(region).identity.value.base <= first
    ensures TagsFrom(d, g, ptr, covered + count)
         == TagsFrom(d, g, ptr, covered) + Tags(d(region).identity.value, first, count)
    ensures Identified(d, g, ptr, covered) ==> Identified(d, g, ptr, covered + count)
  {
    forall a: nat | first <= a < first + count ensures d(Granule(a, g)).identity.Some? {
      SameGranule(a, region, g);
    }
    var tail := Tags(d(region).identity.value, first, count);
    forall i: nat | i < count ensures TagFrom(d, g, first + i) == tail[i] {
      SameGranule(first + i, region, g);
    }
    assert TagsFrom(d, g, ptr, covered + count) == TagsFrom(d, g, ptr, covered) + tail;
  }

  // ----- the alias test ------------------------------------------------------------------------------

  predicate VirtualOverlap(a: Span, b: Span) { a.ptr <= b.Last() && b.ptr <= a.Last() }

  predicate RangesMayShare(r: Range, s: Range) {
    r.block == s.block && (r.base != s.base || r.size != s.size || (r.first <= s.last && s.first <= r.last))
  }

  ghost predicate MayAlias(a: Span, b: Span) {
    || VirtualOverlap(a, b)
    || (a.isVmm && b.isVmm &&
        (!a.complete || !b.complete
         || exists i, k :: 0 <= i < |a.ranges| && 0 <= k < |b.ranges| && RangesMayShare(a.ranges[i], b.ranges[k])))
  }

  /** `CudaValidatedSpan::aliases`. */
  method Aliases(a: Span, b: Span) returns (r: bool)
    ensures r <==> MayAlias(a, b)
  {
    if a.ptr <= b.Last() && b.ptr <= a.Last() { return true; }
    if !a.isVmm || !b.isVmm { return false; }
    if !a.complete || !b.complete { return true; }
    for i := 0 to |a.ranges|
      invariant forall n, k :: 0 <= n < i && 0 <= k < |b.ranges| ==> !RangesMayShare(a.ranges[n], b.ranges[k])
    {
      for k := 0 to |b.ranges|
        invariant forall m :: 0 <= m < k ==> !RangesMayShare(a.ranges[i], b.ranges[m])
      {
        var range, other := a.ranges[i], b.ranges[k];
        if range.block != other.block { continue; }
        assert RangesMayShare(range, other) <==>
          (range.base != other.base || range.size != other.size
           || (range.first <= other.last && other.first <= range.last));
        if range.base != other.base || range.size != other.size { return true; }
        if range.first <= other.last && other.first <= range.last { return true; }
      }
    }
    return false;
  }

  lemma {:induction false} AliasSymmetric(a: Span, b: Span)
    ensures MayAlias(a, b) <==> MayAlias(b, a)
  {
    if i, k :| 0 <= i < |a.ranges| && 0 <= k < |b.ranges| && RangesMayShare(a.ranges[i], b.ranges[k]) {
      assert RangesMayShare(b.ranges[k], a.ranges[i]);
    }
    if i, k :| 0 <= i < |b.ranges| && 0 <= k < |a.ranges| && RangesMayShare(b.ranges[i], a.ranges[k]) {
      assert RangesMayShare(a.ranges[k], b.ranges[i]);
    }
  }

  // ----- the hidden mapping ----------------------------------------------------------------------------

  /** One cuMemMap: `offset` is where in the physical block the mapping starts; it is never reported. */
  datatype Mapping = Mapping(base: nat, size: nat, block: nat, offset: nat)

  datatype Physical = Unmapped(address: nat) | InBlock(block: nat, offset: nat)

  type World = set<Mapping>

  predicate Contains(m: Mapping, a: nat) { m.base <= a < m.base + m.size }

  /** Live mappings are granule-aligned and do not overlap in virtual addresses. */
  ghost predicate ValidWorld(w: World, g: nat) {
    && 0 < g
    && (forall m :: m in w ==> m.size > 0 && m.base % g == 0 && m.size % g == 0)
    && (forall m, n, a :: m in w && n in w && Contains(m, a) && Contains(n, a) ==> m == n)
  }

  ghost predicate MappedAt(w: World, a: nat) { exists m :: m in w && Contains(m, a) }

  /** The physical byte behind an address; ordinary allocations are their own physical memory. */
  ghost function PhysicalAt(w: World, a: nat): Physical {
    if MappedAt(w, a) then
      var m :| m in w && Contains(m, a);
      InBlock(m.block, m.offset + (a - m.base))
    else Unmapped(a)
  }

  lemma {:induction false} PhysicalOf(w: World, g: nat, m: Mapping, a: nat)
    requires ValidWorld(w, g) && m in w && Contains(m, a)
    ensures PhysicalAt(w, a) == InBlock(m.block, m.offset + (a - m.base))
  {
  }

  /** The driver's identity answers are those of the mapping that holds the granule's first byte. */
  ghost predicate Reports(d: Driver, w: World) {
    forall region :: d(region).identity.Some? ==>
      exists m :: m in w && Contains(m, region)
        && d(region).identity.value == Identity(m.block, m.base, m.size)
  }

  /** A span retained under a driver that reports a world. */
  ghost predicate RetainedFrom(s: Span, d: Driver, w: World, g: nat) {
    && s.Valid() && 0 < g
    && (!s.isVmm ==> forall a :: s.ptr <= a <= s.Last() ==> !MappedAt(w, a))
    && (s.isVmm && s.complete ==>
          Expand(s.ranges) == TagsFrom(d, g, s.ptr, s.size) && Identified(d, g, s.ptr, s.size))
  }

  /** What the granule loop returns makes such a span. */
  lemma {:induction false} RetainedSpan(d: Driver, w: World, g: nat, ptr: nat, size: nat, retained: Retained)
    requires 0 < size && ptr + size - 1 <= MAX_ADDRESS && 0 < g && Ordered(retained.ranges)
    requires retained.complete ==>
      Expand(retained.ranges) == TagsFrom(d, g, ptr, size) && Identified(d, g, ptr, size)
    ensures RetainedFrom(Span(ptr, size, true, retained.complete, retained.ranges), d, w, g)
  {
  }

  /** Asking once per granule is enough: alignment puts the whole granule into the reported mapping. */
  lemma {:induction false} GranuleMapping(d: Driver, w: World, g: nat, a: nat) returns (m: Mapping)
    requires ValidWorld(w, g) && Reports(d, w) && d(Granule(a, g)).identity.Some?
    ensures m in w && Contains(m, a)
    ensures TagFrom(d, g, a) == Tag(m.block, m.base, m.size, a - m.base)
  {
    var region := Granule(a, g);
    GranuleBounds(a, g);
    m :| m in w && Contains(m, region) && d(region).identity.value == Identity(m.block, m.base, m.size);
    SumOfMultiples(m.base, m.size, g);
    MultiplesApart(region, m.base + m.size, g);
  }

  lemma {:induction false} TagHasRange(ranges: seq<Range>, n: nat) returns (i: nat)
    requires (forall r :: r in ranges ==> r.first <= r.last) && n < |Expand(ranges)|
    ensures i < |ranges|
    ensures var r, t := ranges[i], Expand(ranges)[n];
      t.block == r.block && t.base == r.base && t.size == r.size && r.first <= t.offset <= r.last
  {
    var last := |ranges| - 1;
    if n < |Expand(ranges[..last])| {
      i := TagHasRange(ranges[..last], n);
    } else {
      i := last;
    }
  }

  /** A byte of a complete span lies in one of its ranges, in the mapping the range names. */
  lemma {:induction false} ByteHasRange(s: Span, d: Driver, w: World, g: nat, a: nat) returns (i: nat, m: Mapping)
    requires ValidWorld(w, g) && Reports(d, w) && RetainedFrom(s, d, w, g) && s.isVmm && s.complete
    requires s.ptr <= a <= s.Last()
    ensures m in w && Contains(m, a) && i < |s.ranges|
    ensures s.ranges[i].block == m.block && s.ranges[i].base == m.base && s.ranges[i].size == m.size
    ensures s.ranges[i].first <= a - m.base <= s.ranges[i].last
  {
    m := GranuleMapping(d, w, g, a);
    var n := a - s.ptr;
    assert Expand(s.ranges)[n] == TagFrom(d, g, s.ptr + n);
    i := TagHasRange(s.ranges, n);
  }

  /** The main theorem: when the test says no, no byte of one span is a byte of the other, wherever the
      hidden offsets put the mappings. */
  lemma {:induction false} NoAliasNoSharing(s: Span, t: Span, d: Driver, w: World, g: nat, a: nat, b: nat)
    requires ValidWorld(w, g) && Reports(d, w) && RetainedFrom(s, d, w, g) && RetainedFrom(t, d, w, g)
    requires !MayAlias(s, t)
    requires s.ptr <= a <= s.Last() && t.ptr <= b <= t.Last()
    ensures PhysicalAt(w, a) != PhysicalAt(w, b)
  {
    assert a != b;
    if s.isVmm && t.isVmm {
      var i, m := ByteHasRange(s, d, w, g, a);
      var k, n := ByteHasRange(t, d, w, g, b);
      PhysicalOf(w, g, m, a);
      PhysicalOf(w, g, n, b);
      assert !RangesMayShare(s.ranges[i], t.ranges[k]);
      if m.block == n.block {
        assert Contains(n, m.base) && Contains(m, m.base);
        assert m == n;
      }
    }
  }

  /** Any offset of a range is the offset of some byte of the span. */
  lemma {:induction false} RangeHasByte(ranges: seq<Range>, i: nat, offset: nat) returns (n: nat)
    requires Ordered(ranges) && i < |ranges| && ranges[i].first <= offset <= ranges[i].last
    ensures n < |Expand(ranges)|
    ensures Expand(ranges)[n] == Tag(ranges[i].block, ranges[i].base, ranges[i].size, offset)
  {
    var last := |ranges| - 1;
    if i == last {
      n := |Expand(ranges[..last])| + (offset - ranges[i].first);
    } else {
      n := RangeHasByte(ranges[..last], i, offset);
    }
  }

  lemma {:induction false} RangeNamesMapping(s: Span, d: Driver, w: World, g: nat, i: nat, offset: nat) returns (a: nat, m: Mapping)
    requires ValidWorld(w, g) && Reports(d, w) && RetainedFrom(s, d, w, g) && s.isVmm && s.complete
    requires i < |s.ranges| && s.ranges[i].first <= offset <= s.ranges[i].last
    ensures s.ptr <= a <= s.Last() && m in w && Contains(m, a) && a - m.base == offset
    ensures s.ranges[i].block == m.block && s.ranges[i].base == m.base && s.ranges[i].size == m.size
  {
    var n := RangeHasByte(s.ranges, i, offset);
    a := s.ptr + n;
    assert Expand(s.ranges)[n] == TagFrom(d, g, a);
    m := GranuleMapping(d, w, g, a);
  }

  /** Apart from overlapping addresses and missing identity, the test says yes only for caution: the
      spans lie in two different live mappings of one physical block. */
  lemma {:induction false} CautiousOnly(s: Span, t: Span, d: Driver, w: World, g: nat) returns (a: nat, m: Mapping, b: nat, n: Mapping)
    requires ValidWorld(w, g) && Reports(d, w) && RetainedFrom(s, d, w, g) && RetainedFrom(t, d, w, g)
    requires s.isVmm && t.isVmm && s.complete && t.complete
    requires MayAlias(s, t) && !VirtualOverlap(s, t)
    ensures m in w && n in w && m != n && m.block == n.block
    ensures s.ptr <= a <= s.Last() && Contains(m, a) && t.ptr <= b <= t.Last() && Contains(n, b)
  {
    var i, k :| 0 <= i < |s.ranges| && 0 <= k < |t.ranges| && RangesMayShare(s.ranges[i], t.ranges[k]);
    var r, q := s.ranges[i], t.ranges[k];
    assert r in s.ranges && q in t.ranges;
    var common := Max(r.first, q.first);
    var shared := common <= r.last && common <= q.last;
    a, m := RangeNamesMapping(s, d, w, g, i, if shared then common else r.first);
    b, n := RangeNamesMapping(t, d, w, g, k, if shared then common else q.first);
  }

  predicate HasAddress(s: Span, a: nat) { s.ptr <= a < s.ptr + s.size }

  ghost predicate Touches(s: Span, m: Mapping) { exists a :: s.ptr <= a <= s.Last() && Contains(m, a) }

  /** The spans lie in two different live mappings of one physical block. */
  ghost predicate InTwoMappings(s: Span, t: Span, w: World) {
    exists m, n :: m in w && n in w && m != n && m.block == n.block && Touches(s, m) && Touches(t, n)
  }

  /** The whole relation in terms of addresses and mappings: two spans alias exactly if they have an address in
      common, or both are VMM spans of which one lacks its identity, or both are VMM spans in two different mappings
      of one physical block. */
  lemma {:induction false} AliasExact(s: Span, t: Span, d: Driver, w: World, g: nat)
    requires ValidWorld(w, g) && Reports(d, w) && RetainedFrom(s, d, w, g) && RetainedFrom(t, d, w, g)
    ensures MayAlias(s, t) <==>
      || (exists a :: HasAddress(s, a) && HasAddress(t, a))
      || (s.isVmm && t.isVmm && (!s.complete || !t.complete || InTwoMappings(s, t, w)))
  {
    var overlap := exists a :: HasAddress(s, a) && HasAddress(t, a);
    if VirtualOverlap(s, t) {
      var a := Max(s.ptr, t.ptr);
      assert HasAddress(s, a) && HasAddress(t, a);
    }
    assert VirtualOverlap(s, t) <==> overlap;
    if !overlap && s.isVmm && t.isVmm && s.complete && t.complete {
      hide ValidWorld, Reports, RetainedFrom;
      if MayAlias(s, t) {
        var a, m, b, n := CautiousOnly(s, t, d, w, g);
        assert Touches(s, m) && Touches(t, n);
      }
      if InTwoMappings(s, t, w) {
        TwoMappingsAlias(s, t, d, w, g);
      }
    }
  }

  lemma {:induction false} TwoMappingsAlias(s: Span, t: Span, d: Driver, w: World, g: nat)
    requires ValidWorld(w, g) && Reports(d, w) && RetainedFrom(s, d, w, g) && RetainedFrom(t, d, w, g)
    requires s.isVmm && t.isVmm && s.complete && t.complete && InTwoMappings(s, t, w)
    ensures MayAlias(s, t)
  {
    var m, n :| m in w && n in w && m != n && m.block == n.block && Touches(s, m) && Touches(t, n);
    var a :| s.ptr <= a <= s.Last() && Contains(m, a);
    var b :| t.ptr <= b <= t.Last() && Contains(n, b);
    var i, m1 := ByteHasRange(s, d, w, g, a);
    var k, n1 := ByteHasRange(t, d, w, g, b);
    assert m1 == m && n1 == n;
    assert Contains(m, m.base) && Contains(n, n.base);
    assert RangesMayShare(s.ranges[i], t.ranges[k]);
  }
}
