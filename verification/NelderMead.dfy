/** The calibration optimizer (optimizer.cpp): starting points, bounds and parameter vectors for every setting of
    the locks, and Nelder-Mead descent from several starts.  Arithmetic is exact. */
module NelderMead {
  import opened Results

  type Point = seq<real>

  // ----- vectors and parameters -------------------------------------------------------------------------------

  datatype Flags = Flags(lockCamD: bool, lockZRx: bool, enableXRx: bool)

  datatype OptParams = OptParams(
    xTy: real, intersect: real, camD: real, xRz: real, zRx: real, zRz: Option<real>, xRx: Option<real>)

  datatype Bound = Bound(low: real, high: real)

  const BOUNDS5: seq<Bound> :=
    [Bound(0.1, 0.30), Bound(-0.0, 1.0), Bound(-0.1, 0.1), Bound(-0.3, 0.3), Bound(-0.3, 0.3)]
  const XRX_BOUND: Bound := Bound(-0.3, 0.3)

  const STARTS5: seq<Point> :=
    [[0.225, 0.5, 0.0, 0.0, 0.0], [0.15, 0.5, 0.0, 0.0, 0.0], [0.30, 0.5, 0.0, 0.0, 0.0], [0.225, 0.3, 0.0, 0.0, 0.0],
     [0.225, 0.7, 0.0, 0.0, 0.0], [0.20, 0.5, 0.0, 0.0, 0.0], [0.19, 0.65, 0.0, 0.0, 0.0], [0.15, 0.7, 0.0, 0.0, 0.0]]
  const STARTS4: seq<Point> :=
    [[0.5, 0.0, 0.0, 0.0], [0.3, 0.0, 0.0, 0.0], [0.7, 0.0, 0.0, 0.0], [0.4, 0.0, 0.0, 0.0], [0.6, 0.0, 0.0, 0.0]]

  /** How many parameters are free. */
  function Dimension(f: Flags): nat {
    5 - (if f.lockCamD then 1 else 0) - (if f.lockZRx then 1 else 0) + (if f.enableXRx then 1 else 0)
  }

  /** One bound for every free parameter, in the vector's order: the camera distance, the three that are always
      free, the third angle and the optional one. */
  function ActiveBoundsOf(f: Flags): (bounds: seq<Bound>)
    ensures |bounds| == Dimension(f)
  {
    (if f.lockCamD then [] else [BOUNDS5[0]]) + BOUNDS5[1..4]
    + (if f.lockZRx then [] else [BOUNDS5[4]]) + (if f.enableXRx then [XRX_BOUND] else [])
  }

  /** `active_bounds`: the table cut at both ends. */
  method ActiveBounds(f: Flags) returns (bounds: seq<Bound>)
    ensures bounds == ActiveBoundsOf(f) && |bounds| == Dimension(f)
    ensures !f.lockCamD ==> bounds[0] == BOUNDS5[0]
    ensures var first := if f.lockCamD then 0 else 1; bounds[first..first + 3] == BOUNDS5[1..4]
    ensures !f.lockZRx ==> bounds[if f.lockCamD then 3 else 4] == BOUNDS5[4]
    ensures f.enableXRx ==> bounds[|bounds| - 1] == XRX_BOUND
  {
    bounds := if f.lockCamD then BOUNDS5[1..] else BOUNDS5;
    if f.lockZRx { bounds := bounds[..|bounds| - 1]; }
    if f.enableXRx { bounds := bounds + [XRX_BOUND]; }
  }

  /** `params_from_vec`. */
  function ParamsFromVec(p: Point): Option<OptParams> {
    if |p| < 5 then None
    else Some(OptParams(p[2], p[1], p[0], p[3], p[4], None, if |p| > 5 then Some(p[5]) else None))
  }

  /** `params_from_vec_no_zrx`. */
  function ParamsNoZRx(p: Point): Option<OptParams> {
    if |p| < 4 then None
    else Some(OptParams(p[2], p[1], p[0], p[3], 0.0, None, if |p| > 4 then Some(p[4]) else None))
  }

  /** `params_from_vec_locked`: the camera distance follows from the intersection. */
  function ParamsLocked(p: Point): Option<OptParams> {
    if |p| < 4 then None
    else Some(OptParams(p[1], p[0], 0.5 * (1.0 - p[0]), p[2], p[3], None, if |p| > 4 then Some(p[4]) else None))
  }

  /** `params_from_vec_locked_no_zrx`. */
  function ParamsLockedNoZRx(p: Point): Option<OptParams> {
    if |p| < 3 then None
    else Some(OptParams(p[1], p[0], 0.5 * (1.0 - p[0]), p[2], 0.0, None, if |p| > 3 then Some(p[3]) else None))
  }

  /** The reading of a vector that the cost and the final result use. */
  function Params(f: Flags, p: Point): Option<OptParams> {
    if f.lockCamD && f.lockZRx then ParamsLockedNoZRx(p)
    else if f.lockCamD then ParamsLocked(p)
    else if f.lockZRx then ParamsNoZRx(p)
    else ParamsFromVec(p)
  }

  /** A vector of the free dimension is always read: the camera distance first unless it is locked, then the
      intersection, the translation, the first angle, the third angle unless it is locked, and the optional angle. */
  lemma {:induction false} ParamsFit(f: Flags, p: Point)
    requires |p| == Dimension(f)
    ensures Params(f, p).Some?
    ensures Params(f, p).value.xRx == if f.enableXRx then Some(p[|p| - 1]) else None
    ensures f.lockZRx ==> Params(f, p).value.zRx == 0.0
    ensures f.lockCamD ==> Params(f, p).value.camD == 0.5 * (1.0 - Params(f, p).value.intersect)
    ensures !f.lockCamD ==> Params(f, p).value.camD == p[0]
    ensures var first := if f.lockCamD then 0 else 1; var read := Params(f, p).value;
      && read.intersect == p[first] && read.xTy == p[first + 1] && read.xRz == p[first + 2] && read.zRz.None?
      && (!f.lockZRx ==> read.zRx == p[first + 3])
  {
  }

  // ----- starting points --------------------------------------------------------------------------------------

  datatype Seeds = Seeds(xrz: Option<real>, xrx: Option<real>, zrx: Option<real>)

  function ValueOr(v: Option<real>, default: real): real { if v.Some? then v.value else default }

  /** Where the roll angle about z sits in an unedited start. */
  function ZRxIndex(f: Flags): nat { if f.lockCamD then 3 else 4 }

  function Erased(p: Point, i: nat): Point { if i < |p| then p[..i] + p[i + 1..] else p }

  /** One built-in start, edited for the flags and seeds. */
  function Adapted(f: Flags, seeds: Seeds, start: Point): Point {
    var i := ZRxIndex(f);
    var edited :=
      if f.lockZRx then Erased(start, i)
      else if i < |start| then start[i := ValueOr(seeds.zrx, 0.0)]
      else start;
    if f.enableXRx then edited + [ValueOr(seeds.xrx, 0.0)] else edited
  }

  function BuiltIn(f: Flags): seq<Point> { if f.lockCamD then STARTS4 else STARTS5 }

  /** The start made from an inertial estimate of the first angle; it leaves the others at their defaults. */
  function Inertial(f: Flags, seeds: Seeds): Point
    requires seeds.xrz.Some?
  {
    var start := BuiltIn(f)[0];
    var seeded := start[(if f.lockCamD then 2 else 3) := seeds.xrz.value];
    var edited := if f.lockZRx then Erased(seeded, ZRxIndex(f)) else seeded;
    if f.enableXRx then edited + [ValueOr(seeds.xrx, 0.0)] else edited
  }

  /** Every start: the built-in ones edited for the flags and seeds, then the inertial one if there is an estimate. */
  function Starts(f: Flags, seeds: Seeds): (starts: seq<Point>)
    ensures |starts| == |BuiltIn(f)| + (if seeds.xrz.Some? then 1 else 0)
    ensures forall i :: 0 <= i < |starts| ==> |starts[i]| == Dimension(f)
  {
    assert forall i :: 0 <= i < |BuiltIn(f)| ==> |Adapted(f, seeds, BuiltIn(f)[i])| == Dimension(f) by {
      forall i | 0 <= i < |BuiltIn(f)| ensures |Adapted(f, seeds, BuiltIn(f)[i])| == Dimension(f) {
        AdaptedFits(f, seeds, i);
      }
    }
    seq(|BuiltIn(f)|, i requires 0 <= i < |BuiltIn(f)| => Adapted(f, seeds, BuiltIn(f)[i]))
    + (if seeds.xrz.Some? then InertialFits(f, seeds); [Inertial(f, seeds)] else [])
  }

  /** `starts_for_config`. */
  method StartsForConfig(f: Flags, seeds: Seeds) returns (starts: seq<Point>)
    ensures starts == Starts(f, seeds)
    ensures starts != [] && |starts| == |BuiltIn(f)| + (if seeds.xrz.Some? then 1 else 0)
    ensures forall i :: 0 <= i < |BuiltIn(f)| ==> starts[i] == Adapted(f, seeds, BuiltIn(f)[i])
    ensures seeds.xrz.Some? ==> starts[|starts| - 1] == Inertial(f, seeds)
    ensures forall i :: 0 <= i < |starts| ==> |starts[i]| == Dimension(f)
  {
    starts := BuiltIn(f);
    var k := 0;
    while k < |BuiltIn(f)|
      invariant 0 <= k <= |BuiltIn(f)| && |starts| == |BuiltIn(f)|
      invariant forall i :: 0 <= i < k ==> starts[i] == Adapted(f, seeds, BuiltIn(f)[i])
      invariant forall i :: k <= i < |starts| ==> starts[i] == BuiltIn(f)[i]
    {
      var start := starts[k];
      var i := if f.lockCamD then 3 else 4;
      if !f.lockZRx {
        if i < |start| { start := start[i := ValueOr(seeds.zrx, 0.0)]; }
      } else {
        start := Erased(start, i);
      }
      if f.enableXRx { start := start + [ValueOr(seeds.xrx, 0.0)]; }
      starts := starts[k := start];
      k := k + 1;
    }
    forall i | 0 <= i < |starts| ensures |starts[i]| == Dimension(f) {
      AdaptedFits(f, seeds, i);
    }
    if seeds.xrz.Some? {
      InertialFits(f, seeds);
      starts := starts + [Inertial(f, seeds)];
    }
  }

  lemma {:induction false} BuiltInSize(f: Flags, i: nat)
    requires i < |BuiltIn(f)|
    ensures |BuiltIn(f)[i]| == if f.lockCamD then 4 else 5
  {
  }

  /** What an adapted start means to the parameters: the locked angle is zero, the free ones carry their seeds. */
  lemma {:induction false} AdaptedFits(f: Flags, seeds: Seeds, i: nat)
    requires i < |BuiltIn(f)|
    ensures var p := Adapted(f, seeds, BuiltIn(f)[i]);
      |p| == Dimension(f) && Params(f, p).Some?
      && Params(f, p).value.zRx == (if f.lockZRx then 0.0 else ValueOr(seeds.zrx, 0.0))
      && Params(f, p).value.xRx == (if f.enableXRx then Some(ValueOr(seeds.xrx, 0.0)) else None)
  {
    BuiltInSize(f, i);
    hide BuiltIn;
    ParamsFit(f, Adapted(f, seeds, BuiltIn(f)[i]));
  }

  /** What the inertial start means: its own angle carries the estimate and the optional one its seed, but the third
      angle stays at zero whatever its seed says. */
  lemma {:induction false} InertialFits(f: Flags, seeds: Seeds)
    requires seeds.xrz.Some?
    ensures var p := Inertial(f, seeds);
      |p| == Dimension(f) && Params(f, p).Some? && Params(f, p).value.xRz == seeds.xrz.value
      && Params(f, p).value.zRx == 0.0
      && Params(f, p).value.xRx == (if f.enableXRx then Some(ValueOr(seeds.xrx, 0.0)) else None)
  {
    assert BuiltIn(f)[0][ZRxIndex(f)] == 0.0;
    BuiltInSize(f, 0);
    hide BuiltIn;
    ParamsFit(f, Inertial(f, seeds));
  }

  /** So the inertial start agrees with the other starts on the third angle exactly if that angle is locked or its
      seed is missing or zero. */
  lemma {:induction false} InertialAgrees(f: Flags, seeds: Seeds, i: nat)
    requires seeds.xrz.Some? && i < |BuiltIn(f)|
    ensures var inertial, adapted := Params(f, Inertial(f, seeds)), Params(f, Adapted(f, seeds, BuiltIn(f)[i]));
      inertial.Some? && adapted.Some? &&
      (inertial.value.zRx == adapted.value.zRx <==> f.lockZRx || ValueOr(seeds.zrx, 0.0) == 0.0)
  {
    InertialFits(f, seeds);
    AdaptedFits(f, seeds, i);
  }

  /** A configuration whose third-angle seed the inertial start drops. */
  lemma {:induction false} InertialLosesSeed()
    ensures var f, seeds := Flags(false, false, false), Seeds(Some(0.05), None, Some(0.02));
      Params(f, Adapted(f, seeds, BuiltIn(f)[0])).value.zRx == 0.02 && Params(f, Inertial(f, seeds)).value.zRx == 0.0
  {
    var f, seeds := Flags(false, false, false), Seeds(Some(0.05), None, Some(0.02));
    InertialFits(f, seeds);
    AdaptedFits(f, seeds, 0);
  }

  // ----- bounds penalty -----------------------------------------------------------------------------------------

  function Product(a: real, b: real): real { a * b }

  function Square(d: real): real { Product(d, d) }

  lemma {:induction false} PositiveProduct(a: real, b: real)
    requires a > 0.0 && b > 0.0
    ensures Product(a, b) > 0.0
  {
  }

  function Outside(x: real, b: Bound): real {
    if x < b.low then 10000.0 * Square(b.low - x) else if x > b.high then 10000.0 * Square(x - b.high) else 0.0
  }

  function Penalty(p: Point, bounds: seq<Bound>, n: nat): real
    requires n <= |p| && n <= |bounds|
  {
    if n == 0 then 0.0 else Penalty(p, bounds, n - 1) + Outside(p[n - 1], bounds[n - 1])
  }

  /** `bounds_penalty`. */
  method BoundsPenalty(p: Point, bounds: seq<Bound>) returns (penalty: real)
    ensures penalty == Penalty(p, bounds, Min(|p|, |bounds|))
  {
    penalty := 0.0;
    var i := 0;
    while i < |p| && i < |bounds|
      invariant 0 <= i <= |p| && i <= |bounds| && penalty == Penalty(p, bounds, i)
    {
      if p[i] < bounds[i].low {
        penalty := penalty + 10000.0 * Square(bounds[i].low - p[i]);
      } else if p[i] > bounds[i].high {
        penalty := penalty + 10000.0 * Square(p[i] - bounds[i].high);
      }
      i := i + 1;
    }
  }

  lemma {:induction false} SquarePositive(d: real)
    requires d > 0.0
    ensures Square(d) > 0.0
  {
    hide Product;
    PositiveProduct(d, d);
  }

  lemma {:induction false} OutsideExact(x: real, b: Bound)
    requires b.low <= b.high
    ensures Outside(x, b) >= 0.0 && (Outside(x, b) == 0.0 <==> b.low <= x <= b.high)
  {
    hide Square;
    if x < b.low {
      SquarePositive(b.low - x);
    } else if x > b.high {
      SquarePositive(x - b.high);
    }
  }

  /** A coordinate outside its bound by `d` costs ten thousand times the square. */
  lemma {:induction false} OutsideIs(x: real, b: Bound, d: real)
    requires b.low <= b.high && d >= 0.0 && (x == b.low - d || x == b.high + d)
    ensures Outside(x, b) == 10000.0 * (d * d)
  {
    if d > 0.0 {
      assert Outside(x, b) == 10000.0 * Square(d);
    }
  }

  /** The penalty is never negative, and vanishes exactly inside the bounds. */
  lemma {:induction false} PenaltyExact(p: Point, bounds: seq<Bound>, n: nat)
    requires n <= |p| && n <= |bounds| && forall i :: 0 <= i < n ==> bounds[i].low <= bounds[i].high
    ensures Penalty(p, bounds, n) >= 0.0
    ensures Penalty(p, bounds, n) == 0.0 <==> forall i :: 0 <= i < n ==> bounds[i].low <= p[i] <= bounds[i].high
  {
    if n > 0 {
      PenaltyExact(p, bounds, n - 1);
      OutsideExact(p[n - 1], bounds[n - 1]);
      hide Outside;
    }
  }

  // ----- the simplex ----------------------------------------------------------------------------------------------

  const PERTURBATION: real := 0.10

  predicate Inside(x: real, b: Bound) { b.low <= x <= b.high }

  /** A vertex that differs from the start along axis `i` at most, stays inside that bound if the start does, and
      is another point where the bound has room. */
  predicate MovedAlong(start: Point, b: Bound, vertex: Point, i: nat) {
    |vertex| == |start| && i < |start| && vertex == start[i := vertex[i]]
    && (Inside(start[i], b) ==> Inside(vertex[i], b) && (b.low < b.high ==> vertex[i] != start[i]))
  }

  /** A tenth of the bound's range up along axis `i`, or down if that would leave the bound. */
  function Perturbed(start: Point, b: Bound, i: nat): Point
    requires i < |start|
  {
    var tenth := (b.high - b.low) / 10.0;
    start[i := if start[i] + tenth <= b.high then start[i] + tenth else start[i] - tenth]
  }

  predicate Simplex(start: Point, bounds: seq<Bound>, vertices: seq<Point>, n: nat) {
    n <= |start| <= |bounds| && |vertices| == n + 1 && vertices[0] == start
    && forall i :: 0 <= i < n ==>
         vertices[1..][i] == Perturbed(start, bounds[i], i) && MovedAlong(start, bounds[i], vertices[1..][i], i)
  }

  /** `build_simplex`: None is the thrown error.  The start, and one vertex moved along each axis. */
  method BuildSimplex(start: Point, bounds: seq<Bound>) returns (r: Option<seq<Point>>)
    ensures r.None? <==> |bounds| < |start|
    ensures r.Some? ==> Simplex(start, bounds, r.value, |start|)
    ensures r.Some? ==> AllOf(r.value, |start|)
  {
    if |bounds| < |start| { return None; }
    var vertices := [start];
    var i := 0;
    while i < |start|
      invariant 0 <= i <= |start| && Simplex(start, bounds, vertices, i) && AllOf(vertices, |start|)
    {
      var range := bounds[i].high - bounds[i].low;
      var delta := PERTURBATION * range;
      var vertex := start[i := if start[i] + delta <= bounds[i].high then start[i] + delta else start[i] - delta];
      assert vertex == Perturbed(start, bounds[i], i) && MovedAlong(start, bounds[i], vertex, i);
      assert (vertices + [vertex])[1..] == vertices[1..] + [vertex];
      vertices := vertices + [vertex];
      i := i + 1;
    }
    return Some(vertices);
  }

  /** Every vertex has `n` coordinates. */
  predicate AllOf(vertices: seq<Point>, n: nat) { forall i :: 0 <= i < |vertices| ==> |vertices[i]| == n }

  // ----- costs ----------------------------------------------------------------------------------------------------

  /** A cost is defined at least on the points of `n` coordinates. */
  ghost predicate Costs(cost: Point --> real, n: nat) { forall p: Point :: |p| == n ==> cost.requires(p) }

  /** The stored costs are the vertices' costs. */
  ghost predicate Stored(cost: Point --> real, simplex: seq<Point>, costs: seq<real>, n: nat)
    requires Costs(cost, n)
  {
    AllOf(simplex, n) && |costs| == |simplex| && forall i :: 0 <= i < |simplex| ==> costs[i] == cost(simplex[i])
  }

  /** A simplex and its vertices' costs. */
  datatype Round = Round(simplex: seq<Point>, costs: seq<real>)

  function Least(costs: seq<real>): real
    requires costs != []
  {
    if |costs| == 1 then costs[0]
    else
      var rest := Least(costs[..|costs| - 1]);
      var last := costs[|costs| - 1];
      if last < rest then last else rest
  }

  lemma {:induction false} LeastIs(costs: seq<real>)
    requires costs != []
    ensures forall i :: 0 <= i < |costs| ==> Least(costs) <= costs[i]
    ensures exists i :: 0 <= i < |costs| && costs[i] == Least(costs)
  {
    if |costs| == 1 {
      assert costs[0] == Least(costs);
    } else {
      var front := costs[..|costs| - 1];
      LeastIs(front);
      forall i | 0 <= i < |costs| ensures Least(costs) <= costs[i] {
        if i < |front| { assert front[i] == costs[i]; }
      }
      if costs[|costs| - 1] < Least(front) {
        assert costs[|costs| - 1] == Least(costs);
      } else {
        var i :| 0 <= i < |front| && front[i] == Least(front);
        assert costs[i] == Least(costs);
      }
    }
  }

  lemma {:induction false} LeastAtMost(costs: seq<real>, i: nat, bound: real)
    requires i < |costs| && costs[i] <= bound
    ensures Least(costs) <= bound
  {
    LeastIs(costs);
  }

  // ----- one round ---------------------------------------------------------------------------------------------------

  /** An index goes behind every one whose cost is not greater: a stable sort. */
  function InsertIndex(order: seq<nat>, i: nat, costs: seq<real>): seq<nat>
    requires i < |costs| && forall k :: 0 <= k < |order| ==> order[k] < |costs|
  {
    if order == [] then [i]
    else
      var last := |order| - 1;
      if costs[i] < costs[order[last]] then InsertIndex(order[..last], i, costs) + [order[last]] else order + [i]
  }

  predicate Sorted(order: seq<nat>, costs: seq<real>) {
    (forall k :: 0 <= k < |order| ==> order[k] < |costs|)
    && forall j, k :: 0 <= j < k < |order| ==> Precedes(order[j], order[k], costs)
  }

  /** Cheaper first, and the earlier index where costs are equal. */
  predicate Precedes(a: nat, b: nat, costs: seq<real>) {
    a < |costs| && b < |costs| && (costs[a] < costs[b] || (costs[a] == costs[b] && a < b))
  }

  lemma {:induction false} InsertHas(order: seq<nat>, i: nat, costs: seq<real>)
    requires i < |costs| && forall k :: 0 <= k < |order| ==> order[k] < |costs|
    ensures multiset(InsertIndex(order, i, costs)) == multiset(order) + multiset{i}
  {
    if order != [] {
      var last := |order| - 1;
      assert order == order[..last] + [order[last]];
      if costs[i] < costs[order[last]] {
        InsertHas(order[..last], i, costs);
      }
    }
  }

  lemma {:induction false} SortedThen(order: seq<nat>, x: nat, costs: seq<real>)
    requires Sorted(order, costs) && x < |costs| && forall k :: 0 <= k < |order| ==> Precedes(order[k], x, costs)
    ensures Sorted(order + [x], costs)
  {
  }

  lemma {:induction false} InsertSorted(order: seq<nat>, i: nat, costs: seq<real>)
    requires i < |costs| && Sorted(order, costs) && forall k :: 0 <= k < |order| ==> order[k] < i
    ensures Sorted(InsertIndex(order, i, costs), costs)
  {
    if order != [] {
      var last := |order| - 1;
      var front := order[..last];
      hide Sorted, Precedes;
      if costs[i] < costs[order[last]] {
        InsertSorted(front, i, costs);
        InsertHas(front, i, costs);
        var rest := InsertIndex(front, i, costs);
        forall k | 0 <= k < |rest| ensures Precedes(rest[k], order[last], costs) {
          assert rest[k] in multiset(rest);
          assert rest[k] == i || rest[k] in multiset(front);
        }
        SortedThen(rest, order[last], costs);
      } else {
        forall k | 0 <= k < |order| ensures Precedes(order[k], i, costs) {
          if k < last {
            assert order[k] in front;
          }
        }
        SortedThen(order, i, costs);
      }
    }
  }

  /** `std::stable_sort` of the indices by cost. */
  method SortOrder(costs: seq<real>) returns (order: seq<nat>)
    ensures Sorted(order, costs) && |order| == |costs|
    ensures forall i: nat :: i < |costs| ==> i in order
  {
    order := [];
    assert Sorted(order, costs);
    hide Sorted, Precedes, InsertIndex;
    var i := 0;
    while i < |costs|
      invariant 0 <= i <= |costs| && |order| == i && Sorted(order, costs)
      invariant forall k :: 0 <= k < |order| ==> order[k] < i
      invariant forall k: nat :: k < i ==> k in multiset(order)
    {
      InsertSorted(order, i, costs);
      InsertHas(order, i, costs);
      ghost var before := order;
      order := InsertIndex(order, i, costs);
      assert |multiset(order)| == |multiset(before)| + 1;
      forall k | 0 <= k < |order| ensures order[k] < i + 1 {
        assert order[k] in multiset(order);
        if order[k] != i {
          assert order[k] in multiset(before);
        }
      }
      i := i + 1;
    }
    forall k: nat | k < |costs| ensures k in order {
      assert k in multiset(order);
    }
  }

  /** `after` is `before` in the order of a stable sort by cost. */
  ghost predicate Reordered(before: Round, after: Round) {
    |before.simplex| == |before.costs| == |after.simplex| == |after.costs| && exists order :: ReorderedBy(before, after, order)
  }

  ghost predicate ReorderedBy(before: Round, after: Round, order: seq<nat>)
    requires |before.simplex| == |before.costs| == |after.simplex| == |after.costs|
  {
    && |order| == |before.costs| && Sorted(order, before.costs) && (forall i: nat :: i < |order| ==> i in order)
    && forall k :: 0 <= k < |order| ==>
         after.simplex[k] == before.simplex[order[k]] && after.costs[k] == before.costs[order[k]]
  }

  /** Vertices and costs put in order: the best first. */
  method SortSimplex(cost: Point --> real, simplex: seq<Point>, costs: seq<real>, ghost n: nat)
    returns (simplex': seq<Point>, costs': seq<real>)
    requires Costs(cost, n) && Stored(cost, simplex, costs, n) && simplex != []
    ensures Stored(cost, simplex', costs', n) && |simplex'| == |simplex|
    ensures Ascends(costs') && costs'[0] == Least(costs)
    ensures Reordered(Round(simplex, costs), Round(simplex', costs'))
  {
    var order := SortOrder(costs);
    simplex', costs' := [], [];
    var i := 0;
    while i < |order|
      invariant 0 <= i <= |order| && |simplex'| == i && |costs'| == i
      invariant forall k :: 0 <= k < i ==> simplex'[k] == simplex[order[k]] && costs'[k] == costs[order[k]]
    {
      simplex' := simplex' + [simplex[order[i]]];
      costs' := costs' + [costs[order[i]]];
      i := i + 1;
    }
    forall j, k | 0 <= j < k < |costs'| ensures costs'[j] <= costs'[k] {
      assert Precedes(order[j], order[k], costs);
    }
    LeastIs(costs);
    var best: nat :| best < |costs| && costs[best] == Least(costs);
    assert best in order;
    var at :| 0 <= at < |order| && order[at] == best;
    assert costs'[at] == Least(costs);
    assert ReorderedBy(Round(simplex, costs), Round(simplex', costs'), order);
  }

  predicate Ascends(costs: seq<real>) { forall j, k :: 0 <= j < k < |costs| ==> costs[j] <= costs[k] }

  // ----- moving the simplex --------------------------------------------------------------------------------------------

  function Combined(a: Point, b: Point, scale: real): (r: Point)
    requires |a| == |b|
    ensures |r| == |a|
  {
    seq(|a|, i requires 0 <= i < |a| => a[i] + scale * (b[i] - a[i]))
  }

  /** `combine`: from `a` towards `b`. */
  method Combine(a: Point, b: Point, scale: real) returns (r: Point)
    requires |a| == |b|
    ensures r == Combined(a, b, scale)
  {
    r := [];
    var i := 0;
    while i < |a|
      invariant 0 <= i <= |a| && |r| == i
      invariant forall k :: 0 <= k < i ==> r[k] == Combined(a, b, scale)[k]
    {
      assert Combined(a, b, scale)[i] == a[i] + scale * (b[i] - a[i]);
      r := r + [a[i] + scale * (b[i] - a[i])];
      i := i + 1;
    }
  }

  /** The sum of one coordinate over the first `count` vertices. */
  function SumAt(simplex: seq<Point>, d: nat, count: nat): real
    requires count <= |simplex| && forall i :: 0 <= i < count ==> d < |simplex[i]|
  {
    if count == 0 then 0.0 else SumAt(simplex, d, count - 1) + simplex[count - 1][d]
  }

  function Mean(total: real, count: nat): real
    requires count > 0
  {
    total / count as real
  }

  /** `centroid_except_worst`: the mean of all vertices but the last. */
  method CentroidExceptWorst(simplex: seq<Point>, n: nat) returns (centroid: Point)
    requires |simplex| >= 2 && AllOf(simplex, n)
    ensures |centroid| == n
    ensures forall d: nat :: d < n ==> centroid[d] == Mean(SumAt(simplex, d, |simplex| - 1), |simplex| - 1)
  {
    var sums: Point := seq(n, _ => 0.0);
    var i := 0;
    while i < |simplex| - 1
      invariant 0 <= i <= |simplex| - 1 && |sums| == n
      invariant forall d: nat :: d < n ==> sums[d] == SumAt(simplex, d, i)
    {
      sums := AddTo(sums, simplex[i]);
      i := i + 1;
    }
    centroid := seq(n, d requires 0 <= d < n => Mean(sums[d], |simplex| - 1));
  }

  function AddTo(sums: Point, p: Point): (r: Point)
    requires |sums| == |p|
    ensures |r| == |p| && forall d :: 0 <= d < |p| ==> r[d] == sums[d] + p[d]
  {
    seq(|p|, d requires 0 <= d < |p| => sums[d] + p[d])
  }

  function Total(values: seq<real>): real {
    if values == [] then 0.0 else Total(values[..|values| - 1]) + values[|values| - 1]
  }

  function Deviations(values: seq<real>, mean: real): real {
    if values == [] then 0.0 else Deviations(values[..|values| - 1], mean) + Square(values[|values| - 1] - mean)
  }

  /** `standard_deviation` at most 1e-12, squared. */
  predicate Flat(costs: seq<real>) {
    costs == [] || Mean(Deviations(costs, Mean(Total(costs), |costs|)), |costs|) <= 0.000000000000000000000001
  }

  lemma {:induction false} SquareNotNegative(d: real)
    ensures Square(d) >= 0.0
  {
  }

  /** What flatness means: no cost is further from the mean than the square root of their number times 1e-12; and if
      none is further than 1e-12, the costs are flat. */
  lemma {:induction false} FlatMeans(costs: seq<real>)
    requires costs != []
    ensures var mean := Mean(Total(costs), |costs|);
      && (Flat(costs) ==> forall i :: 0 <= i < |costs| ==>
            Square(costs[i] - mean) <= |costs| as real * 0.000000000000000000000001)
      && ((forall i :: 0 <= i < |costs| ==> Square(costs[i] - mean) <= 0.000000000000000000000001) ==> Flat(costs))
  {
    var mean := Mean(Total(costs), |costs|);
    var sum := Deviations(costs, mean);
    hide Square;
    DeviationsHold(costs, mean);
    if forall i :: 0 <= i < |costs| ==> Square(costs[i] - mean) <= 0.000000000000000000000001 {
      DeviationsBelow(costs, mean, 0.000000000000000000000001);
      MeanAtMost(sum, |costs|, 0.000000000000000000000001);
    }
    if Flat(costs) {
      SumAtMost(sum, |costs|, 0.000000000000000000000001);
    }
  }

  lemma {:induction false} MeanAtMost(total: real, count: nat, limit: real)
    requires count > 0 && total <= count as real * limit
    ensures Mean(total, count) <= limit
  {
    var n, mean := count as real, total / count as real;
    assert mean * n == total;
    if mean > limit {
      assert (mean - limit) * n > 0.0;
    }
  }

  lemma {:induction false} SumAtMost(total: real, count: nat, limit: real)
    requires count > 0 && Mean(total, count) <= limit
    ensures total <= count as real * limit
  {
    var n, mean := count as real, total / count as real;
    assert mean * n == total;
    assert (limit - mean) * n >= 0.0;
  }

  lemma {:induction false} DeviationsHold(values: seq<real>, mean: real)
    ensures Deviations(values, mean) >= 0.0
    ensures forall i :: 0 <= i < |values| ==> Square(values[i] - mean) <= Deviations(values, mean)
  {
    if values != [] {
      var front, last := values[..|values| - 1], values[|values| - 1];
      DeviationsHold(front, mean);
      SquareNotNegative(last - mean);
      hide Square;
      forall i | 0 <= i < |values| ensures Square(values[i] - mean) <= Deviations(values, mean) {
        if i < |front| { assert front[i] == values[i]; }
      }
    }
  }

  lemma {:induction false} DeviationsBelow(values: seq<real>, mean: real, limit: real)
    requires forall i :: 0 <= i < |values| ==> Square(values[i] - mean) <= limit
    ensures Deviations(values, mean) <= |values| as real * limit
  {
    if values != [] {
      hide Square;
      DeviationsBelow(values[..|values| - 1], mean, limit);
      assert |values| as real * limit == (|values| - 1) as real * limit + limit;
    }
  }

  lemma {:induction false} OneIsFlat(cost: real)
    ensures Flat([cost])
  {
    assert [cost][..0] == [];
    assert Total([cost]) == cost;
    assert Mean(cost, 1) == cost;
    assert Square(0.0) == 0.0;
    assert Deviations([cost], cost) == 0.0;
  }

  /** The worst vertex gave way to a strictly cheaper one. */
  ghost predicate Replaced(cost: Point --> real, simplex: seq<Point>, costs: seq<real>, simplex': seq<Point>,
                           costs': seq<real>, v: Point)
    requires cost.requires(v) && |simplex| == |costs| >= 2
  {
    var worst := |simplex| - 1;
    simplex' == simplex[worst := v] && costs' == costs[worst := cost(v)] && cost(v) < costs[worst]
  }

  /** Every vertex but the best moved half way to it. */
  predicate Shrunk(simplex: seq<Point>, simplex': seq<Point>, n: nat)
    requires AllOf(simplex, n)
  {
    |simplex'| == |simplex| >= 1 && simplex'[0] == simplex[0]
    && forall i :: 1 <= i < |simplex| ==> simplex'[i] == Combined(simplex[0], simplex[i], 0.5)
  }

  /** The shrink loop. */
  method Shrink(cost: Point --> real, simplex: seq<Point>, costs: seq<real>, ghost n: nat)
    returns (simplex': seq<Point>, costs': seq<real>)
    requires Costs(cost, n) && Stored(cost, simplex, costs, n) && simplex != []
    ensures Stored(cost, simplex', costs', n) && Shrunk(simplex, simplex', n) && costs'[0] == costs[0]
  {
    simplex', costs' := simplex, costs;
    var i := 1;
    while i < |simplex|
      invariant 1 <= i <= |simplex| && Stored(cost, simplex', costs', n) && |simplex'| == |simplex|
      invariant simplex'[0] == simplex[0] && costs'[0] == costs[0]
      invariant forall k :: 1 <= k < i ==> simplex'[k] == Combined(simplex[0], simplex[k], 0.5)
      invariant forall k :: i <= k < |simplex| ==> simplex'[k] == simplex[k]
    {
      var p := Combine(simplex'[0], simplex'[i], 0.5);
      simplex' := simplex'[i := p];
      costs' := costs'[i := cost(p)];
      i := i + 1;
    }
  }

  /** Putting one vertex in the worst one's place. */
  lemma {:induction false} StoredReplaced(cost: Point --> real, simplex: seq<Point>, costs: seq<real>, n: nat, v: Point)
    requires Costs(cost, n) && Stored(cost, simplex, costs, n) && simplex != [] && |v| == n
    ensures Stored(cost, simplex[|simplex| - 1 := v], costs[|simplex| - 1 := cost(v)], n)
  {
  }

  /** The mean of every vertex but the worst. */
  ghost predicate IsCentroid(simplex: seq<Point>, centroid: Point, n: nat)
    requires |simplex| >= 2 && AllOf(simplex, n)
  {
    |centroid| == n && forall d: nat :: d < n ==> centroid[d] == Mean(SumAt(simplex, d, |simplex| - 1), |simplex| - 1)
  }

  ghost predicate ReplacedBy(cost: Point --> real, before: Round, after: Round, v: Point)
    requires cost.requires(v) && |before.simplex| == |before.costs| >= 2
  {
    var worst := |before.simplex| - 1;
    after == Round(before.simplex[worst := v], before.costs[worst := cost(v)])
  }

  /** Whether one vertex is replaced, and the point tried: the reflection of the worst vertex in the centroid if it
      beats the best, or its expansion if that is cheaper still; the reflection if it beats the second worst; else a
      contraction of the better of the two, which replaces the worst if it beats what it started from. */
  ghost function Choice(cost: Point --> real, n: nat, before: Round, centroid: Point): (r: (bool, Point))
    requires Costs(cost, n) && Stored(cost, before.simplex, before.costs, n) && |before.simplex| >= 2 && |centroid| == n
    ensures |r.1| == n
  {
    var s, c, worst := before.simplex, before.costs, |before.simplex| - 1;
    var reflected := Combined(centroid, s[worst], -1.0);
    var expanded := Combined(centroid, reflected, 2.0);
    var outside := cost(reflected) < c[worst];
    var contracted := Combined(centroid, if outside then reflected else s[worst], 0.5);
    if cost(reflected) < c[0] then (true, if cost(expanded) < cost(reflected) then expanded else reflected)
    else if cost(reflected) < c[worst - 1] then (true, reflected)
    else (cost(contracted) < (if outside then cost(reflected) else c[worst]), contracted)
  }

  /** The rule: the worst vertex gives way to the chosen point, or everything shrinks. */
  ghost predicate Rule(cost: Point --> real, n: nat, before: Round, after: Round, centroid: Point)
    requires Costs(cost, n) && Stored(cost, before.simplex, before.costs, n) && |before.simplex| >= 2 && |centroid| == n
  {
    var (replaced, vertex) := Choice(cost, n, before, centroid);
    if replaced then ReplacedBy(cost, before, after, vertex)
    else Shrunk(before.simplex, after.simplex, n) && Stored(cost, after.simplex, after.costs, n)
  }

  /** `after` is the outcome of the rule on the sorted simplex `before`. */
  ghost predicate MovedTo(cost: Point --> real, n: nat, before: Round, after: Round)
    requires Costs(cost, n)
  {
    Stored(cost, before.simplex, before.costs, n) && |before.simplex| >= 2
    && exists centroid :: IsCentroid(before.simplex, centroid, n) && Rule(cost, n, before, after, centroid)
  }

  /** What the points of the rule are: the centroid is the midpoint of the worst vertex and its reflection, the
      expansion lies twice as far out, and a contraction or a shrunken vertex half way. */
  lemma {:induction false} RulePoints(centroid: Point, p: Point, d: nat)
    requires |centroid| == |p| && d < |p|
    ensures Combined(centroid, p, -1.0)[d] + p[d] == 2.0 * centroid[d]
    ensures Combined(centroid, p, 2.0)[d] - centroid[d] == 2.0 * (p[d] - centroid[d])
    ensures 2.0 * Combined(centroid, p, 0.5)[d] == centroid[d] + p[d]
  {
  }

  /** The mean times the count is the sum. */
  lemma {:induction false} MeanIs(total: real, count: nat)
    requires count > 0
    ensures Mean(total, count) * count as real == total
  {
  }

  /** The choice of a move of a sorted simplex; a chosen vertex is strictly cheaper than the worst. */
  method Choose(cost: Point --> real, simplex: seq<Point>, costs: seq<real>, n: nat, centroid: Point)
    returns (replaced: bool, vertex: Point)
    requires Costs(cost, n) && Stored(cost, simplex, costs, n) && |simplex| >= 2 && Ascends(costs) && |centroid| == n
    ensures (replaced, vertex) == Choice(cost, n, Round(simplex, costs), centroid)
    ensures replaced ==> cost(vertex) < costs[|simplex| - 1]
  {
    hide Combined;
    var worst := |simplex| - 1;
    var reflected := Combine(centroid, simplex[worst], -1.0);
    var reflectedCost := cost(reflected);
    replaced, vertex := true, reflected;
    assert costs[worst - 1] <= costs[worst] && costs[0] <= costs[worst - 1];
    if reflectedCost < costs[0] {
      var expanded := Combine(centroid, reflected, 2.0);
      if cost(expanded) < reflectedCost { vertex := expanded; }
    } else if reflectedCost < costs[worst - 1] {
    } else {
      var outside := reflectedCost < costs[worst];
      vertex := Combine(centroid, if outside then reflected else simplex[worst], 0.5);
      if !(cost(vertex) < (if outside then reflectedCost else costs[worst])) { replaced := false; }
    }
  }

  /** One move of a sorted simplex, by the rule.  A replaced vertex is strictly cheaper than the worst was, and the
      best cost never rises. */
  method Move(cost: Point --> real, simplex: seq<Point>, costs: seq<real>, n: nat)
    returns (simplex': seq<Point>, costs': seq<real>, replaced: bool, vertex: Point, centroid: Point)
    requires Costs(cost, n) && Stored(cost, simplex, costs, n) && |simplex| >= 2 && Ascends(costs)
    ensures Stored(cost, simplex', costs', n) && |simplex'| == |simplex| && |vertex| == n
    ensures IsCentroid(simplex, centroid, n)
    ensures (replaced, vertex) == Choice(cost, n, Round(simplex, costs), centroid)
    ensures replaced ==> Replaced(cost, simplex, costs, simplex', costs', vertex)
    ensures !replaced ==> Shrunk(simplex, simplex', n)
    ensures MovedTo(cost, n, Round(simplex, costs), Round(simplex', costs'))
    ensures costs'[0] == costs[0] && Least(costs') <= Least(costs)
  {
    centroid := CentroidExceptWorst(simplex, n);
    assert IsCentroid(simplex, centroid, n);
    hide Combined, Shrunk, SumAt, Mean, Choice, IsCentroid;
    replaced, vertex := Choose(cost, simplex, costs, n, centroid);
    if replaced {
      var worst := |simplex| - 1;
      simplex', costs' := simplex[worst := vertex], costs[worst := cost(vertex)];
      StoredReplaced(cost, simplex, costs, n, vertex);
    } else {
      simplex', costs' := Shrink(cost, simplex, costs, n);
    }
    LeastIs(costs);
    LeastAtMost(costs', 0, Least(costs));
    assert Rule(cost, n, Round(simplex, costs), Round(simplex', costs'), centroid);
  }

  /** One round: the simplex is sorted, is not flat, and moves. */
  ghost predicate RoundTo(cost: Point --> real, n: nat, before: Round, after: Round)
    requires Costs(cost, n)
  {
    exists sorted :: Reordered(before, sorted) && !Flat(sorted.costs) && MovedTo(cost, n, sorted, after)
  }

  /** The rounds of a descent, from the simplex built around the start. */
  ghost predicate Rounds(cost: Point --> real, start: Point, bounds: seq<Bound>, trace: seq<Round>)
    requires Costs(cost, |start|)
  {
    && trace != [] && Simplex(start, bounds, trace[0].simplex, |start|)
    && Stored(cost, trace[0].simplex, trace[0].costs, |start|)
    && forall k :: 0 <= k < |trace| - 1 ==> RoundTo(cost, |start|, trace[k], trace[k + 1])
  }

  /** Where a descent ends: after as many rounds as allowed, or at a simplex that is flat once sorted. */
  ghost predicate EndsAt(trace: seq<Round>, maxIters: nat, end: Round)
    requires trace != []
  {
    if |trace| == maxIters + 1 then end == trace[maxIters]
    else |trace| <= maxIters && Reordered(trace[|trace| - 1], end) && Flat(end.costs)
  }

  /** The first cheapest vertex and its cost. */
  ghost predicate FirstCheapest(end: Round, p: Point, value: real) {
    exists best :: 0 <= best < |end.costs| == |end.simplex| && p == end.simplex[best] && value == end.costs[best]
      && (forall i :: 0 <= i < |end.costs| ==> value <= end.costs[i]) && (forall i :: 0 <= i < best ==> value < end.costs[i])
  }

  /** A descent from the start gives this point and cost. */
  ghost predicate Descends(cost: Point --> real, start: Point, bounds: seq<Bound>, maxIters: nat, p: Point, value: real)
    requires Costs(cost, |start|)
  {
    exists trace, end :: Rounds(cost, start, bounds, trace) && EndsAt(trace, maxIters, end) && FirstCheapest(end, p, value)
  }

  /** The costs of a simplex. */
  method CostsOf(cost: Point --> real, simplex: seq<Point>, ghost n: nat) returns (costs: seq<real>)
    requires Costs(cost, n) && AllOf(simplex, n)
    ensures Stored(cost, simplex, costs, n)
  {
    costs := [];
    var i := 0;
    while i < |simplex|
      invariant 0 <= i <= |simplex| && |costs| == i
      invariant forall k :: 0 <= k < i ==> costs[k] == cost(simplex[k])
    {
      costs := costs + [cost(simplex[i])];
      i := i + 1;
    }
  }

  /** The body of the loop: sort, and unless the simplex is flat, move. */
  method OneRound(cost: Point --> real, simplex: seq<Point>, costs: seq<real>, n: nat)
    returns (flat: bool, simplex': seq<Point>, costs': seq<real>)
    requires Costs(cost, n) && Stored(cost, simplex, costs, n) && simplex != []
    ensures Stored(cost, simplex', costs', n) && simplex' != [] && Least(costs') <= Least(costs)
    ensures flat ==> Reordered(Round(simplex, costs), Round(simplex', costs')) && Flat(costs')
    ensures !flat ==> RoundTo(cost, n, Round(simplex, costs), Round(simplex', costs'))
  {
    hide Reordered, MovedTo, Flat, IsCentroid, Rule, Shrunk, Replaced, Combined;
    simplex', costs' := SortSimplex(cost, simplex, costs, n);
    ghost var sorted := Round(simplex', costs');
    LeastAtMost(costs', 0, Least(costs));
    flat := Flat(costs');
    if !flat {
      if |costs'| == 1 { assert costs' == [costs'[0]]; OneIsFlat(costs'[0]); }
      var replaced, vertex, centroid;
      simplex', costs', replaced, vertex, centroid := Move(cost, simplex', costs', n);
      assert Reordered(Round(simplex, costs), sorted) && MovedTo(cost, n, sorted, Round(simplex', costs'));
    }
  }

  /** `run_nelder_mead`: None is an empty simplex, which a start never makes.  The result is the first cheapest vertex
      where the rounds end.  Its cost is its point's cost, the best cost never rose on the way, so no vertex of the
      first simplex, the start among them, is cheaper; and the point keeps the start's dimension. */
  method RunNelderMead(cost: Point --> real, start: Point, bounds: seq<Bound>, maxIters: nat)
    returns (r: Option<(Point, real)>, ghost trace: seq<Round>, ghost end: Round)
    requires Costs(cost, |start|) && |start| <= |bounds|
    ensures r.Some? && |r.value.0| == |start| && r.value.1 == cost(r.value.0)
    ensures Rounds(cost, start, bounds, trace) && EndsAt(trace, maxIters, end)
    ensures FirstCheapest(end, r.value.0, r.value.1)
    ensures forall k :: 0 <= k < |trace[0].costs| ==> r.value.1 <= trace[0].costs[k]
  {
    var built := BuildSimplex(start, bounds);
    var simplex := built.value;
    var costs := CostsOf(cost, simplex, |start|);
    trace, end := [Round(simplex, costs)], Round(simplex, costs);
    assert Rounds(cost, start, bounds, trace);
    hide Simplex, Reordered, Flat, Rounds, RoundTo, FirstCheapest;
    ghost var first, initial := end, Least(costs);
    LeastIs(costs);
    var iter := 0;
    while iter < maxIters
      invariant iter <= maxIters && Stored(cost, simplex, costs, |start|) && simplex != [] && Least(costs) <= initial
      invariant |trace| == iter + 1 && trace[0] == first && end == trace[iter] == Round(simplex, costs)
      invariant Rounds(cost, start, bounds, trace)
      decreases maxIters - iter
    {
      var flat;
      flat, simplex, costs := OneRound(cost, simplex, costs, |start|);
      end := Round(simplex, costs);
      if flat { break; }
      OneMoreRound(cost, start, bounds, trace, end);
      trace := trace + [end];
      iter := iter + 1;
    }
    var best := Cheapest(costs);
    CheapestIsFirst(end, best);
    return Some((simplex[best], costs[best])), trace, end;
  }

  lemma {:induction false} CheapestIsFirst(end: Round, best: nat)
    requires best < |end.costs| == |end.simplex| && end.costs[best] == Least(end.costs)
    requires forall i :: 0 <= i < best ==> end.costs[best] < end.costs[i]
    ensures FirstCheapest(end, end.simplex[best], end.costs[best])
  {
    LeastIs(end.costs);
  }

  lemma {:induction false} OneMoreRound(cost: Point --> real, start: Point, bounds: seq<Bound>, trace: seq<Round>, next: Round)
    requires Costs(cost, |start|) && Rounds(cost, start, bounds, trace)
    requires RoundTo(cost, |start|, trace[|trace| - 1], next)
    ensures Rounds(cost, start, bounds, trace + [next])
  {
    hide Simplex, RoundTo;
    var longer := trace + [next];
    forall k | 0 <= k < |longer| - 1 ensures RoundTo(cost, |start|, longer[k], longer[k + 1]) {
      if k < |trace| - 1 {
        assert RoundTo(cost, |start|, trace[k], trace[k + 1]);
      }
    }
  }

  /** The first cheapest vertex. */
  method Cheapest(costs: seq<real>) returns (best: nat)
    requires costs != []
    ensures best < |costs| && costs[best] == Least(costs) && forall i :: 0 <= i < best ==> costs[best] < costs[i]
  {
    best := 0;
    var i := 1;
    while i < |costs|
      invariant 1 <= i <= |costs| && best < i
      invariant forall k :: 0 <= k < i ==> costs[best] <= costs[k]
      invariant forall k :: 0 <= k < best ==> costs[best] < costs[k]
    {
      if costs[i] < costs[best] { best := i; }
      i := i + 1;
    }
    LeastIs(costs);
  }

  // ----- several starts ----------------------------------------------------------------------------------------------

  /** The cost of a vector: the error of the parameters it reads as, and the penalty of leaving the bounds. */
  function Cost(error: OptParams -> real, f: Flags, bounds: seq<Bound>, p: Point): real
    requires |p| == Dimension(f) && |bounds| == Dimension(f)
  {
    ParamsFit(f, p);
    error(Params(f, p).value) + Penalty(p, bounds, Dimension(f))
  }

  predicate WithinBounds(p: Point, bounds: seq<Bound>) {
    forall i :: 0 <= i < |p| && i < |bounds| ==> bounds[i].low <= p[i] <= bounds[i].high
  }

  /** Under the active bounds a point costs its error, and strictly more exactly if it leaves them. */
  lemma {:induction false} CostMeans(error: OptParams -> real, f: Flags, p: Point)
    requires |p| == Dimension(f)
    ensures Params(f, p).Some?
    ensures Cost(error, f, ActiveBoundsOf(f), p) >= error(Params(f, p).value)
    ensures Cost(error, f, ActiveBoundsOf(f), p) == error(Params(f, p).value) <==> WithinBounds(p, ActiveBoundsOf(f))
  {
    ParamsFit(f, p);
    var bounds := ActiveBoundsOf(f);
    assert forall b :: b in bounds ==> b.low <= b.high;
    hide ActiveBoundsOf, Params, Penalty;
    PenaltyExact(p, bounds, Dimension(f));
  }

  /** `CalibrationCost::operator()`; `error` is the reprojection error of the parameters. */
  method Evaluate(error: OptParams -> real, f: Flags, bounds: seq<Bound>, p: Point) returns (cost: real)
    requires |p| == Dimension(f) && |bounds| == Dimension(f)
    ensures cost == Cost(error, f, bounds, p)
  {
    ParamsFit(f, p);
    var params := Params(f, p).value;
    var penalty := BoundsPenalty(p, bounds);
    return error(params) + penalty;
  }

  /** `Cost` as the function a descent minimises. */
  function CostFunction(error: OptParams -> real, f: Flags, bounds: seq<Bound>): (cost: Point --> real)
    requires |bounds| == Dimension(f)
    ensures forall p: Point :: |p| == Dimension(f) ==> cost.requires(p) && cost(p) == Cost(error, f, bounds, p)
  {
    (p: Point) requires |p| == Dimension(f) => Cost(error, f, bounds, p)
  }

  /** One descent under the optimizer's own cost. */
  method DescendFrom(error: OptParams -> real, f: Flags, active: seq<Bound>, start: Point, maxIters: nat)
    returns (r: Option<(Point, real)>)
    requires |start| == Dimension(f) && |active| == Dimension(f)
    ensures r.Some? && |r.value.0| == Dimension(f) && r.value.1 == Cost(error, f, active, r.value.0)
    ensures r.value.1 <= Cost(error, f, active, start)
    ensures Descends(CostFunction(error, f, active), start, active, maxIters, r.value.0, r.value.1)
  {
    hide Cost, MovedAlong, Perturbed, RoundTo, FirstCheapest, EndsAt;
    ghost var trace, end;
    r, trace, end := RunNelderMead(CostFunction(error, f, active), start, active, maxIters);
    assert trace[0].simplex[0] == start;
  }

  /** The results of the descents from every start. */
  ghost predicate Descended(error: OptParams -> real, f: Flags, seeds: Seeds, maxIters: nat, results: seq<(Point, real)>)
  {
    |results| <= |Starts(f, seeds)| && forall i :: 0 <= i < |results| ==>
      Descends(CostFunction(error, f, ActiveBoundsOf(f)), Starts(f, seeds)[i], ActiveBoundsOf(f), maxIters,
               results[i].0, results[i].1)
  }

  /** The first cheapest result. */
  ghost predicate FirstBest(results: seq<(Point, real)>, p: Point, value: real) {
    exists i :: 0 <= i < |results| && results[i] == (p, value)
      && (forall k :: 0 <= k < |results| ==> value <= results[k].1) && (forall k :: 0 <= k < i ==> value < results[k].1)
  }

  /** `NelderMeadOptimizer::optimize`: for every setting of the flags and seeds the vectors fit, so nothing is
      refused; the result is the first cheapest of the descents from all starts; the reported cost is that of the
      reported point under the active bounds, and no start, the inertial one included, is cheaper. */
  method Optimize(error: OptParams -> real, f: Flags, seeds: Seeds, maxIters: nat)
    returns (params: OptParams, finalCost: real, point: Point, ghost results: seq<(Point, real)>)
    ensures |point| == Dimension(f) && Params(f, point) == Some(params)
    ensures finalCost == Cost(error, f, ActiveBoundsOf(f), point)
    ensures |results| == |Starts(f, seeds)| && Descended(error, f, seeds, maxIters, results)
    ensures FirstBest(results, point, finalCost)
    ensures forall i :: 0 <= i < |Starts(f, seeds)| ==>
      finalCost <= Cost(error, f, ActiveBoundsOf(f), Starts(f, seeds)[i])
  {
    hide Adapted, Inertial, BuiltIn, Params, Cost, Starts, ActiveBoundsOf, Descends, CostFunction;
    var active := ActiveBounds(f);
    var starts := StartsForConfig(f, seeds);
    var best: Option<(Point, real)> := None;
    results := [];
    var i := 0;
    while i < |starts|
      invariant 0 <= i <= |starts| && |results| == i && Descended(error, f, seeds, maxIters, results)
      invariant best.None? <==> i == 0
      invariant best.Some? ==> FirstBest(results, best.value.0, best.value.1)
      invariant best.Some? ==> |best.value.0| == Dimension(f) && best.value.1 == Cost(error, f, active, best.value.0)
      invariant forall k :: 0 <= k < i ==> best.value.1 <= Cost(error, f, active, starts[k])
    {
      var result := DescendFrom(error, f, active, starts[i], maxIters);
      if result.Some? && (best.None? || result.value.1 < best.value.1) {
        BetterResult(results, if best.Some? then best.value else result.value, result.value);
        best := result;
      } else {
        WorseResult(results, best.value, result.value);
      }
      results := results + [result.value];
      i := i + 1;
    }
    point := best.value.0;
    ParamsFit(f, point);
    return Params(f, point).value, best.value.1, point, results;
  }

  lemma {:induction false} BetterResult(results: seq<(Point, real)>, best: (Point, real), next: (Point, real))
    requires results == [] || (FirstBest(results, best.0, best.1) && next.1 < best.1)
    ensures FirstBest(results + [next], next.0, next.1)
  {
    assert (results + [next])[|results|] == next;
  }

  lemma {:induction false} WorseResult(results: seq<(Point, real)>, best: (Point, real), next: (Point, real))
    requires FirstBest(results, best.0, best.1) && best.1 <= next.1
    ensures FirstBest(results + [next], best.0, best.1)
  {
    var i :| 0 <= i < |results| && results[i] == best
      && (forall k :: 0 <= k < |results| ==> best.1 <= results[k].1) && (forall k :: 0 <= k < i ==> best.1 < results[k].1);
    assert (results + [next])[i] == best;
  }
}
