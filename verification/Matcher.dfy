/** Descriptor matching (features.cpp): word-wise Hamming distance, the one-way nearest-neighbour search with its
    ratio test, and the mutual check. */
module Matcher {
  import opened Arithmetic
  import opened Results

  // ----- Hamming distance ------------------------------------------------------------------------------------

  type Byte = b: nat | b < 0x100

  const WORDS: nat := 8
  const DESCRIPTOR_BYTES: nat := 64

  type Descriptor = s: seq<Byte> | |s| == DESCRIPTOR_BYTES witness seq(DESCRIPTOR_BYTES, _ => 0)

  /** How many binary digits of two numbers differ: `popcount` of their exclusive or. */
  function DifferingBits(x: nat, y: nat): nat {
    if x == 0 && y == 0 then 0 else (if x % 2 != y % 2 then 1 else 0) + DifferingBits(x / 2, y / 2)
  }

  /** The positions below `k` where the binary digits of two numbers differ. */
  function DifferentDigits(x: nat, y: nat, k: nat): set<nat> {
    set i | 0 <= i < k && Digit(x, i) != Digit(y, i)
  }

  function Raised(s: set<nat>): set<nat> { set i | i in s :: i + 1 }

  lemma {:induction false} RaisedSize(s: set<nat>)
    ensures |Raised(s)| == |s| && 0 !in Raised(s)
  {
    if s != {} {
      var i :| i in s;
      RaisedSize(s - {i});
      forall j: nat ensures j in Raised(s) <==> j in Raised(s - {i}) + {i + 1} {
        assert j > 0 && j - 1 in s && j - 1 != i ==> j - 1 in s - {i};
      }
      assert Raised(s) == Raised(s - {i}) + {i + 1};
    }
  }

  function FirstDiffers(x: nat, y: nat): set<nat> { if x % 2 != y % 2 then {0} else {} }

  /** The positions are the first one, if it differs, and those of the halves raised by one. */
  lemma {:induction false} DigitsStep(x: nat, y: nat, k: nat)
    requires k > 0
    ensures DifferentDigits(x, y, k) == FirstDiffers(x, y) + Raised(DifferentDigits(x / 2, y / 2, k - 1))
  {
    var rest := DifferentDigits(x / 2, y / 2, k - 1);
    forall i: nat ensures i in DifferentDigits(x, y, k) <==> i in FirstDiffers(x, y) + Raised(rest) {
      assert i in Raised(rest) <==> i > 0 && i - 1 in rest;
      if i > 0 {
        assert Digit(x, i) == Digit(x / 2, i - 1) && Digit(y, i) == Digit(y / 2, i - 1);
      } else {
        assert Digit(x, 0) == x % 2 && Digit(y, 0) == y % 2;
      }
    }
  }

  /** The count is that of the positions whose digits differ. */
  lemma {:induction false} DifferingBitsCount(x: nat, y: nat, k: nat)
    requires x < Doubled(1, k) && y < Doubled(1, k)
    ensures DifferingBits(x, y) == |DifferentDigits(x, y, k)|
  {
    if k == 0 {
      assert DifferentDigits(x, y, 0) == {};
    } else {
      DifferingBitsCount(x / 2, y / 2, k - 1);
      DigitsStep(x, y, k);
      hide DifferentDigits, Raised;
      RaisedSize(DifferentDigits(x / 2, y / 2, k - 1));
    }
  }

  /** Only equal numbers differ nowhere. */
  lemma {:induction false} NoDifference(x: nat, y: nat)
    ensures DifferingBits(x, y) == 0 <==> x == y
    decreases x + y
  {
    if x != 0 || y != 0 {
      NoDifference(x / 2, y / 2);
    }
  }

  /** A little-endian word: disjoint shifted bytes or-ed together. */
  function Pack(bytes: seq<Byte>): nat { if bytes == [] then 0 else bytes[0] + 0x100 * Pack(bytes[1..]) }

  /** The differing bits, byte by byte. */
  function BitDistance(a: seq<Byte>, b: seq<Byte>): nat
    requires |a| == |b|
  {
    if a == [] then 0 else DifferingBits(a[0], b[0]) + BitDistance(a[1..], b[1..])
  }

  /** The low `k` digits and the digits above them differ independently. */
  lemma {:induction false} BitsSplit(x: nat, y: nat, p: nat, q: nat, k: nat)
    requires x < Doubled(1, k) && y < Doubled(1, k)
    ensures DifferingBits(x + Doubled(p, k), y + Doubled(q, k)) == DifferingBits(x, y) + DifferingBits(p, q)
  {
    if k > 0 {
      BitsSplit(x / 2, y / 2, p, q, k - 1);
      assert (x + Doubled(p, k)) / 2 == x / 2 + Doubled(p, k - 1) && (x + Doubled(p, k)) % 2 == x % 2;
      assert (y + Doubled(q, k)) / 2 == y / 2 + Doubled(q, k - 1) && (y + Doubled(q, k)) % 2 == y % 2;
    }
  }

  lemma {:induction false} DoubledEight(v: nat)
    ensures Doubled(v, 8) == 0x100 * v
  {
    assert Doubled(v, 1) == 2 * v;
    assert Doubled(v, 2) == 4 * v;
    assert Doubled(v, 3) == 8 * v;
    assert Doubled(v, 4) == 16 * v;
    assert Doubled(v, 5) == 32 * v;
    assert Doubled(v, 6) == 64 * v;
    assert Doubled(v, 7) == 128 * v;
  }

  /** Comparing packed words counts the same bits as comparing their bytes. */
  lemma {:induction false} PackedDistance(a: seq<Byte>, b: seq<Byte>)
    requires |a| == |b|
    ensures DifferingBits(Pack(a), Pack(b)) == BitDistance(a, b)
  {
    if a != [] {
      PackedDistance(a[1..], b[1..]);
      DoubledEight(1);
      DoubledEight(Pack(a[1..]));
      DoubledEight(Pack(b[1..]));
      BitsSplit(a[0], b[0], Pack(a[1..]), Pack(b[1..]), 8);
    }
  }

  lemma {:induction false} DistanceSplit(a: seq<Byte>, b: seq<Byte>, i: nat)
    requires |a| == |b| && i <= |a|
    ensures BitDistance(a, b) == BitDistance(a[..i], b[..i]) + BitDistance(a[i..], b[i..])
  {
    if i == 0 {
      assert a[0..] == a && b[0..] == b;
    } else {
      DistanceSplit(a[1..], b[1..], i - 1);
      assert a[..i][1..] == a[1..][..i - 1] && b[..i][1..] == b[1..][..i - 1];
      assert a[i..] == a[1..][i - 1..] && b[i..] == b[1..][i - 1..];
    }
  }

  lemma {:induction false} BitsBound(x: nat, y: nat, k: nat)
    requires x < Doubled(1, k) && y < Doubled(1, k)
    ensures DifferingBits(x, y) <= k
  {
    if k > 0 {
      BitsBound(x / 2, y / 2, k - 1);
    }
  }

  /** Only equal byte strings have distance zero. */
  lemma {:induction false} ZeroDistance(a: seq<Byte>, b: seq<Byte>)
    requires |a| == |b|
    ensures BitDistance(a, b) == 0 <==> a == b
  {
    if a != [] {
      NoDifference(a[0], b[0]);
      ZeroDistance(a[1..], b[1..]);
      assert a == [a[0]] + a[1..] && b == [b[0]] + b[1..];
    }
  }

  lemma {:induction false} PackBound(bytes: seq<Byte>)
    ensures Pack(bytes) < Doubled(1, 8 * |bytes|)
  {
    if bytes != [] {
      PackBound(bytes[1..]);
      EightMore(8 * |bytes[1..]|);
    }
  }

  lemma {:induction false} EightMore(k: nat)
    ensures Doubled(1, k + 8) == 0x100 * Doubled(1, k)
  {
    assert Doubled(1, k + 4) == 2 * Doubled(1, k + 3) == 4 * Doubled(1, k + 2) == 8 * Doubled(1, k + 1);
    assert Doubled(1, k + 8) == 2 * Doubled(1, k + 7) == 4 * Doubled(1, k + 6) == 8 * Doubled(1, k + 5);
  }

  /** Digit `8 * i + bit` of the packed number is digit `bit` of byte `i`. */
  lemma {:induction false} PackDigit(bytes: seq<Byte>, i: nat, bit: nat)
    requires i < |bytes| && bit < 8
    ensures Digit(Pack(bytes), 8 * i + bit) == Digit(bytes[i], bit)
  {
    var rest := Pack(bytes[1..]);
    DoubledEight(1);
    DoubledEight(rest);
    if i == 0 {
      LowDigit(bytes[0], rest, bit, 8);
    } else {
      PackDigit(bytes[1..], i - 1, bit);
      HighDigit(bytes[0], rest, 8, 8 * (i - 1) + bit);
    }
  }

  lemma {:induction false} LowDigit(low: nat, high: nat, bit: nat, k: nat)
    requires bit < k
    ensures Digit(low + Doubled(high, k), bit) == Digit(low, bit)
  {
    if bit > 0 {
      assert (low + Doubled(high, k)) / 2 == low / 2 + Doubled(high, k - 1);
      LowDigit(low / 2, high, bit - 1, k - 1);
    }
  }

  lemma {:induction false} HighDigit(low: nat, high: nat, k: nat, bit: nat)
    requires low < Doubled(1, k)
    ensures Digit(low + Doubled(high, k), k + bit) == Digit(high, bit)
  {
    if k > 0 {
      assert (low + Doubled(high, k)) / 2 == low / 2 + Doubled(high, k - 1);
      HighDigit(low / 2, high, k - 1, bit);
    }
  }

  /** So the distance of two descriptors is the number of their bits that differ. */
  lemma {:induction false} DistanceCounts(a: seq<Byte>, b: seq<Byte>)
    requires |a| == |b|
    ensures BitDistance(a, b) == |DifferentBits(a, b)|
  {
    PackedDistance(a, b);
    PackBound(a);
    PackBound(b);
    DifferingBitsCount(Pack(a), Pack(b), 8 * |a|);
    forall i: nat | i < 8 * |a| ensures Digit(Pack(a), i) == BitOf(a, i) && Digit(Pack(b), i) == BitOf(b, i) {
      PackDigit(a, i / 8, i % 8);
      PackDigit(b, i / 8, i % 8);
    }
    assert DifferentBits(a, b) == DifferentDigits(Pack(a), Pack(b), 8 * |a|);
  }

  /** Bit `i` of a byte string: digit `i % 8` of byte `i / 8`. */
  function BitOf(bytes: seq<Byte>, i: nat): nat
    requires i < 8 * |bytes|
  {
    Digit(bytes[i / 8], i % 8)
  }

  function DifferentBits(a: seq<Byte>, b: seq<Byte>): set<nat>
    requires |a| == |b|
  {
    set i: nat | i < 8 * |a| && BitOf(a, i) != BitOf(b, i)
  }

  lemma {:induction false} DistanceBound(a: seq<Byte>, b: seq<Byte>)
    requires |a| == |b|
    ensures BitDistance(a, b) <= 8 * |a|
  {
    if a != [] {
      DoubledEight(1);
      BitsBound(a[0], b[0], 8);
      DistanceBound(a[1..], b[1..]);
    }
  }

  lemma {:induction false} BitsSymmetric(x: nat, y: nat)
    ensures DifferingBits(x, y) == DifferingBits(y, x)
    decreases x + y
  {
    if x != 0 || y != 0 {
      BitsSymmetric(x / 2, y / 2);
    }
  }

  lemma {:induction false} DistanceSymmetric(a: seq<Byte>, b: seq<Byte>)
    requires |a| == |b|
    ensures BitDistance(a, b) == BitDistance(b, a)
  {
    if a != [] {
      BitsSymmetric(a[0], b[0]);
      DistanceSymmetric(a[1..], b[1..]);
    }
  }

  /** `hamming_distance`: eight words of eight bytes give the number of differing bits; zero means equal. */
  method HammingDistance(a: Descriptor, b: Descriptor) returns (distance: nat)
    ensures distance == BitDistance(a, b) == |DifferentBits(a, b)|
    ensures distance == 0 <==> a == b
  {
    DistanceCounts(a, b);
    ZeroDistance(a, b);
    hide DifferentBits;
    distance := 0;
    var i: nat := 0;
    while i < WORDS
      invariant i <= WORDS && distance == BitDistance(a[..8 * i], b[..8 * i])
    {
      var wa, wb := PackWord(a[8 * i..8 * i + 8]), PackWord(b[8 * i..8 * i + 8]);
      PackedDistance(a[8 * i..8 * i + 8], b[8 * i..8 * i + 8]);
      DistanceSplit(a[..8 * (i + 1)], b[..8 * (i + 1)], 8 * i);
      assert a[..8 * (i + 1)][..8 * i] == a[..8 * i] && a[..8 * (i + 1)][8 * i..] == a[8 * i..8 * i + 8];
      assert b[..8 * (i + 1)][..8 * i] == b[..8 * i] && b[..8 * (i + 1)][8 * i..] == b[8 * i..8 * i + 8];
      distance := distance + DifferingBits(wa, wb);
      i := i + 1;
    }
    assert a[..64] == a && b[..64] == b;
  }

  function PackWord(bytes: seq<Byte>): nat
    requires |bytes| == 8
  {
    Pack(bytes)
  }

  // ----- one way ------------------------------------------------------------------------------------------------

  const INFINITE: nat := 0xFFFF_FFFF

  /** Distances from one query to every candidate. */
  function Row(q: Descriptor, train: seq<Descriptor>): (row: seq<nat>)
    ensures |row| == |train| && forall t :: 0 <= t < |train| ==> row[t] == BitDistance(q, train[t])
  {
    seq(|train|, t requires 0 <= t < |train| => BitDistance(q, train[t]))
  }

  datatype Scan = Scan(best: nat, second: nat, index: nat)

  /** One candidate of the inner loop. */
  function Next(s: Scan, distance: nat, t: nat): Scan {
    if distance < s.best then Scan(distance, s.best, t)
    else if distance < s.second then Scan(s.best, distance, s.index)
    else s
  }

  /** The state after `n` candidates. */
  function ScanRow(row: seq<nat>, n: nat): Scan
    requires n <= |row|
  {
    if n == 0 then Scan(INFINITE, INFINITE, 0) else Next(ScanRow(row, n - 1), row[n - 1], n - 1)
  }

  predicate Finite(row: seq<nat>) { forall t :: 0 <= t < |row| ==> row[t] < INFINITE }

  /** The scan keeps the first smallest distance, and the smallest of the others. */
  predicate Smallest(row: seq<nat>, n: nat, s: Scan)
    requires n <= |row|
  {
    && (n == 0 ==> s.best == INFINITE && s.second == INFINITE)
    && (n > 0 ==> s.index < n && row[s.index] == s.best)
    && (forall t :: 0 <= t < n ==> s.best <= row[t] && (t < s.index ==> s.best < row[t]))
    && (forall t :: 0 <= t < n && t != s.index ==> s.second <= row[t])
    && (s.second == INFINITE || exists t :: 0 <= t < n && t != s.index && row[t] == s.second)
    && s.best <= s.second
  }

  lemma {:induction false} ScanSmallest(row: seq<nat>, n: nat)
    requires n <= |row| && Finite(row)
    ensures Smallest(row, n, ScanRow(row, n))
  {
    if n > 0 {
      ScanSmallest(row, n - 1);
    }
  }

  function Times(ratio: real, distance: nat): real { ratio * distance as real }

  datatype Match = Match(left: nat, right: nat, distance: nat)

  /** What the outer loop pushes for one query. */
  function Chosen(row: seq<nat>, ratio: real): Option<nat> {
    var s := ScanRow(row, |row|);
    if ratio < 1.0 then
      (if s.second > 0 && s.best as real < Times(ratio, s.second) then Some(s.index) else None)
    else if s.best < INFINITE then Some(s.index)
    else None
  }

  /** The meaning of a choice.  With a ratio test: nearer than the ratio allows to every other candidate, or to an
      infinitely far one where there is no other.  Without: the first nearest. */
  ghost predicate Picks(row: seq<nat>, ratio: real, t: nat) {
    t < |row| &&
    if ratio < 1.0 then
      row[t] as real < Times(ratio, INFINITE)
      && forall u :: 0 <= u < |row| && u != t ==> row[t] as real < Times(ratio, row[u])
    else forall u :: 0 <= u < |row| ==> row[t] <= row[u] && (u < t ==> row[t] < row[u])
  }

  lemma {:induction false} TimesMonotone(ratio: real, a: nat, b: nat)
    requires ratio > 0.0 && a <= b
    ensures Times(ratio, a) <= Times(ratio, b)
  {
  }

  lemma {:induction false} ProductNotNegative(x: real, y: real)
    requires x >= 0.0 && y >= 0.0
    ensures x * y >= 0.0
  {
  }

  lemma {:induction false} TimesSmall(ratio: real, a: nat)
    ensures ratio <= 0.0 ==> Times(ratio, a) <= 0.0
    ensures ratio < 1.0 ==> Times(ratio, a) <= a as real
    ensures Times(ratio, 0) == 0.0
  {
    var x := a as real;
    if ratio <= 0.0 {
      ProductNotNegative(-ratio, x);
      assert (-ratio) * x == -(ratio * x);
    } else if ratio < 1.0 {
      ProductNotNegative(1.0 - ratio, x);
      assert (1.0 - ratio) * x == x - ratio * x;
    }
  }

  /** The scan chooses a candidate exactly when it is the one that is picked. */
  lemma {:induction false} ChosenExact(row: seq<nat>, ratio: real, t: nat)
    requires Finite(row)
    ensures Chosen(row, ratio) == Some(t) <==> Picks(row, ratio, t)
  {
    ScanSmallest(row, |row|);
    var s := ScanRow(row, |row|);
    hide ScanRow, Times;
    if ratio < 1.0 {
      RatioExact(row, ratio, t, s);
      assert Chosen(row, ratio) == Some(t) <==>
        (s.second > 0 && s.best as real < Times(ratio, s.second) && s.index == t);
    } else {
      assert row != [] ==> row[s.index] == s.best < INFINITE;
      if t < |row| {
        FirstExact(row, t, s);
      }
    }
  }

  lemma {:induction false} FirstExact(row: seq<nat>, t: nat, s: Scan)
    requires Finite(row) && row != [] && Smallest(row, |row|, s) && t < |row|
    ensures (forall u :: 0 <= u < |row| ==> row[t] <= row[u] && (u < t ==> row[t] < row[u])) <==> t == s.index
  {
    assert row[s.index] == s.best;
  }

  lemma {:induction false} RatioExact(row: seq<nat>, ratio: real, t: nat, s: Scan)
    requires Finite(row) && Smallest(row, |row|, s) && ratio < 1.0
    ensures (s.second > 0 && s.best as real < Times(ratio, s.second) && s.index == t) <==> Picks(row, ratio, t)
  {
    TimesSmall(ratio, s.second);
    TimesSmall(ratio, INFINITE);
    if s.second > 0 && s.best as real < Times(ratio, s.second) && s.index == t {
      RatioPicks(row, ratio, s);
    }
    if Picks(row, ratio, t) {
      PickedIsBest(row, ratio, t, s);
    }
  }

  lemma {:induction false} RatioPicks(row: seq<nat>, ratio: real, s: Scan)
    requires Finite(row) && Smallest(row, |row|, s) && ratio < 1.0
    requires s.second > 0 && s.best as real < Times(ratio, s.second)
    ensures Picks(row, ratio, s.index)
  {
    hide Times;
    TimesSmall(ratio, s.second);
    assert row != [] by {
      if row == [] { TimesSmall(ratio, INFINITE); }
    }
    TimesMonotone(ratio, s.second, INFINITE);
    forall u | 0 <= u < |row| && u != s.index ensures row[s.index] as real < Times(ratio, row[u]) {
      TimesMonotone(ratio, s.second, row[u]);
    }
  }

  lemma {:induction false} PickedIsBest(row: seq<nat>, ratio: real, t: nat, s: Scan)
    requires Finite(row) && Smallest(row, |row|, s) && ratio < 1.0 && Picks(row, ratio, t)
    ensures s.index == t && s.second > 0 && s.best as real < Times(ratio, s.second)
  {
    hide Times;
    TimesSmall(ratio, row[s.index]);
    assert s.index == t;
    TimesSmall(ratio, s.second);
  }

  // ----- the loops ------------------------------------------------------------------------------------------------

  /** The inner loop. */
  method ScanCandidates(query: Descriptor, train: seq<Descriptor>) returns (s: Scan)
    ensures s == ScanRow(Row(query, train), |train|)
  {
    var best, second, index := INFINITE, INFINITE, 0;
    var t := 0;
    ghost var row := Row(query, train);
    while t < |train|
      invariant 0 <= t <= |train| && Scan(best, second, index) == ScanRow(row, t)
    {
      var distance := HammingDistance(query, train[t]);
      if distance < best {
        second := best;
        best := distance;
        index := t;
      } else if distance < second {
        second := distance;
      }
      t := t + 1;
    }
    return Scan(best, second, index);
  }

  function Push(query: seq<Descriptor>, train: seq<Descriptor>, ratio: real, q: nat): seq<Match>
    requires q < |query|
  {
    var row := Row(query[q], train);
    var t := Chosen(row, ratio);
    if t.Some? then [Match(q, t.value, ScanRow(row, |row|).best)] else []
  }

  /** The matches of the first `n` queries. */
  function OneWay(query: seq<Descriptor>, train: seq<Descriptor>, ratio: real, n: nat): seq<Match>
    requires n <= |query|
  {
    if n == 0 then [] else OneWay(query, train, ratio, n - 1) + Push(query, train, ratio, n - 1)
  }

  /** `find_matches_one_way`. */
  method FindMatchesOneWay(query: seq<Descriptor>, train: seq<Descriptor>, ratio: real) returns (matches: seq<Match>)
    ensures matches == OneWay(query, train, ratio, |query|)
  {
    hide ScanRow, Row;
    var useRatioTest := ratio < 1.0;
    matches := [];
    var q := 0;
    while q < |query|
      invariant 0 <= q <= |query| && matches == OneWay(query, train, ratio, q)
    {
      var s := ScanCandidates(query[q], train);
      if useRatioTest {
        if s.second > 0 && s.best as real < Times(ratio, s.second) {
          matches := matches + [Match(q, s.index, s.best)];
        }
      } else if s.best < INFINITE {
        matches := matches + [Match(q, s.index, s.best)];
      }
      q := q + 1;
    }
  }

  // ----- what one way returns -------------------------------------------------------------------------------------

  /** Query `q` picks candidate `t`. */
  ghost predicate PicksOf(query: seq<Descriptor>, train: seq<Descriptor>, ratio: real, q: nat, t: nat) {
    q < |query| && Picks(Row(query[q], train), ratio, t)
  }

  lemma {:induction false} RowFinite(q: Descriptor, train: seq<Descriptor>)
    ensures Finite(Row(q, train))
  {
    forall t | 0 <= t < |train| ensures Row(q, train)[t] < INFINITE {
      DistanceBound(q, train[t]);
    }
  }

  lemma {:induction false} PushExact(query: seq<Descriptor>, train: seq<Descriptor>, ratio: real, q: nat, m: Match)
    requires q < |query|
    ensures m in Push(query, train, ratio, q) <==>
      m.left == q && PicksOf(query, train, ratio, q, m.right) && m.distance == BitDistance(query[q], train[m.right])
    ensures |Push(query, train, ratio, q)| <= 1
  {
    var row := Row(query[q], train);
    RowFinite(query[q], train);
    ScanSmallest(row, |row|);
    hide ScanRow, Picks;
    ChosenExact(row, ratio, m.right);
    if Chosen(row, ratio).Some? {
      ChosenExact(row, ratio, Chosen(row, ratio).value);
    }
    hide Chosen;
    if Chosen(row, ratio) == Some(m.right) {
      ChosenDistance(row, ratio);
    }
  }

  lemma {:induction false} ChosenDistance(row: seq<nat>, ratio: real)
    requires Finite(row) && Chosen(row, ratio).Some?
    ensures var t := Chosen(row, ratio).value; t < |row| && ScanRow(row, |row|).best == row[t]
  {
    ScanSmallest(row, |row|);
    ChosenExact(row, ratio, Chosen(row, ratio).value);
    hide ScanRow, Picks;
  }

  /** One way returns, in query order, exactly the picks of every query. */
  lemma {:induction false} OneWayExact(query: seq<Descriptor>, train: seq<Descriptor>, ratio: real, n: nat, m: Match)
    requires n <= |query|
    ensures m in OneWay(query, train, ratio, n) <==>
      m.left < n && PicksOf(query, train, ratio, m.left, m.right)
      && m.distance == BitDistance(query[m.left], train[m.right])
  {
    if n > 0 {
      hide Push, PicksOf;
      OneWayExact(query, train, ratio, n - 1, m);
      PushExact(query, train, ratio, n - 1, m);
    }
  }

  // ----- both ways ---------------------------------------------------------------------------------------------------

  /** The table of the backward matches: for every right descriptor, the left one it picked. */
  function Table(backward: seq<Match>, size: nat): (table: seq<Option<nat>>)
    ensures |table| == size
  {
    if backward == [] then seq(size, _ => None)
    else
      var last := |backward| - 1;
      var rest := Table(backward[..last], size);
      if backward[last].left < size then rest[backward[last].left := Some(backward[last].right)] else rest
  }

  /** The forward matches whose right descriptor picked them back. */
  function Kept(forward: seq<Match>, table: seq<Option<nat>>): seq<Match> {
    if forward == [] then []
    else
      var last := |forward| - 1;
      var m := forward[last];
      Kept(forward[..last], table) + (if m.right < |table| && table[m.right] == Some(m.left) then [m] else [])
  }

  /** `std::stable_sort` by distance: each match goes before the first one that is not nearer. */
  function Insert(m: Match, sorted: seq<Match>): seq<Match> {
    if sorted == [] || m.distance <= sorted[0].distance then [m] + sorted
    else [sorted[0]] + Insert(m, sorted[1..])
  }

  function StableSorted(ms: seq<Match>): seq<Match> {
    if ms == [] then [] else Insert(ms[0], StableSorted(ms[1..]))
  }

  function Matched(left: seq<Descriptor>, right: seq<Descriptor>, ratio: real): seq<Match> {
    StableSorted(Kept(OneWay(left, right, ratio, |left|), Table(OneWay(right, left, ratio, |right|), |right|)))
  }

  /** `match_descriptors`. */
  method MatchDescriptors(left: seq<Descriptor>, right: seq<Descriptor>, ratio: real) returns (matches: seq<Match>)
    ensures matches == Matched(left, right, ratio)
  {
    hide OneWay;
    var forward := FindMatchesOneWay(left, right, ratio);
    var backward := FindMatchesOneWay(right, left, ratio);
    BackwardInRange(left, right, ratio);
    var rightToLeft: seq<Option<nat>> := seq(|right|, _ => None);
    var i := 0;
    assert backward[..0] == [] && forward[..0] == [];
    while i < |backward|
      invariant 0 <= i <= |backward| && rightToLeft == Table(backward[..i], |right|)
    {
      assert backward[..i + 1][..i] == backward[..i];
      rightToLeft := rightToLeft[backward[i].left := Some(backward[i].right)];
      i := i + 1;
    }
    assert backward[..i] == backward;
    matches := [];
    i := 0;
    while i < |forward|
      invariant 0 <= i <= |forward| && matches == Kept(forward[..i], rightToLeft)
    {
      assert forward[..i + 1][..i] == forward[..i];
      var m := forward[i];
      if m.right < |rightToLeft| && rightToLeft[m.right] == Some(m.left) { matches := matches + [m]; }
      i := i + 1;
    }
    assert forward[..i] == forward;
    matches := StableSorted(matches);
  }

  lemma {:induction false} BackwardInRange(left: seq<Descriptor>, right: seq<Descriptor>, ratio: real)
    ensures forall m :: m in OneWay(right, left, ratio, |right|) ==> m.left < |right|
  {
    hide OneWay, PicksOf;
    forall m | m in OneWay(right, left, ratio, |right|) ensures m.left < |right| {
      OneWayExact(right, left, ratio, |right|, m);
    }
  }

  // ----- which pairs ---------------------------------------------------------------------------------------------------

  /** A query has one pick. */
  lemma {:induction false} PickUnique(row: seq<nat>, ratio: real, t: nat, u: nat)
    requires Finite(row) && Picks(row, ratio, t) && Picks(row, ratio, u)
    ensures t == u
  {
    hide Picks;
    ChosenExact(row, ratio, t);
    ChosenExact(row, ratio, u);
  }

  predicate Functional(ms: seq<Match>) {
    forall i, j :: 0 <= i < |ms| && 0 <= j < |ms| && ms[i].left == ms[j].left ==> ms[i].right == ms[j].right
  }

  lemma {:induction false} OneWayFunctional(query: seq<Descriptor>, train: seq<Descriptor>, ratio: real)
    ensures Functional(OneWay(query, train, ratio, |query|))
  {
    var ms := OneWay(query, train, ratio, |query|);
    hide OneWay, Picks;
    forall i, j | 0 <= i < |ms| && 0 <= j < |ms| && ms[i].left == ms[j].left ensures ms[i].right == ms[j].right {
      OneWayExact(query, train, ratio, |query|, ms[i]);
      OneWayExact(query, train, ratio, |query|, ms[j]);
      RowFinite(query[ms[i].left], train);
      PickUnique(Row(query[ms[i].left], train), ratio, ms[i].right, ms[j].right);
    }
  }

  lemma {:induction false} TableExact(backward: seq<Match>, size: nat, r: nat, l: nat)
    requires Functional(backward) && r < size
    ensures Table(backward, size)[r] == Some(l) <==> exists m :: m in backward && m.left == r && m.right == l
  {
    if backward != [] {
      var last := |backward| - 1;
      var front := backward[..last];
      assert backward == front + [backward[last]];
      TableExact(front, size, r, l);
      if backward[last].left == r {
        if backward[last].right == l {
          assert backward[last] in backward;
        }
      } else {
        if m :| m in backward && m.left == r && m.right == l {
          assert m in front;
        }
      }
    }
  }

  lemma {:induction false} KeptExact(forward: seq<Match>, table: seq<Option<nat>>, m: Match)
    ensures m in Kept(forward, table) <==> m in forward && m.right < |table| && table[m.right] == Some(m.left)
  {
    if forward != [] {
      var last := |forward| - 1;
      assert forward == forward[..last] + [forward[last]];
      KeptExact(forward[..last], table, m);
    }
  }

  lemma {:induction false} InsertHas(m: Match, sorted: seq<Match>)
    ensures multiset(Insert(m, sorted)) == multiset{m} + multiset(sorted)
  {
    if sorted != [] && m.distance > sorted[0].distance {
      InsertHas(m, sorted[1..]);
      assert sorted == [sorted[0]] + sorted[1..];
    }
  }

  lemma {:induction false} SortHas(ms: seq<Match>)
    ensures multiset(StableSorted(ms)) == multiset(ms)
  {
    if ms != [] {
      SortHas(ms[1..]);
      InsertHas(ms[0], StableSorted(ms[1..]));
      assert ms == [ms[0]] + ms[1..];
    }
  }

  /** Each of the two picks the other. */
  ghost predicate Mutual(left: seq<Descriptor>, right: seq<Descriptor>, ratio: real, m: Match) {
    && PicksOf(left, right, ratio, m.left, m.right) && PicksOf(right, left, ratio, m.right, m.left)
    && m.left < |left| && m.right < |right| && m.distance == BitDistance(left[m.left], right[m.right])
  }

  /** What the mutual check keeps. */
  lemma {:induction false} KeptMutual(left: seq<Descriptor>, right: seq<Descriptor>, ratio: real, m: Match)
    ensures m in Kept(OneWay(left, right, ratio, |left|), Table(OneWay(right, left, ratio, |right|), |right|))
      <==> Mutual(left, right, ratio, m)
  {
    hide OneWay, PicksOf, Table, Kept;
    var backward := OneWay(right, left, ratio, |right|);
    KeptExact(OneWay(left, right, ratio, |left|), Table(backward, |right|), m);
    OneWayExact(left, right, ratio, |left|, m);
    OneWayFunctional(right, left, ratio);
    if PicksOf(left, right, ratio, m.left, m.right) {
      PicksInRange(left, right, ratio, m);
      TableExact(backward, |right|, m.right, m.left);
      BackMatch(left, right, ratio, m);
    }
  }

  /** The matcher returns exactly the pairs that pick each other. */
  lemma {:induction false} MatchedExact(left: seq<Descriptor>, right: seq<Descriptor>, ratio: real, m: Match)
    ensures m in Matched(left, right, ratio) <==> Mutual(left, right, ratio, m)
  {
    hide OneWay, Table, Kept, StableSorted, Mutual;
    var kept := Kept(OneWay(left, right, ratio, |left|), Table(OneWay(right, left, ratio, |right|), |right|));
    SortHas(kept);
    assert m in multiset(StableSorted(kept)) <==> m in multiset(kept);
    KeptMutual(left, right, ratio, m);
  }

  /** Nearer to `q` than the ratio allows to every other candidate, and than to an infinitely far one. */
  ghost predicate NearestByRatio(q: Descriptor, train: seq<Descriptor>, ratio: real, t: nat) {
    && t < |train| && BitDistance(q, train[t]) as real < ratio * 4294967295.0
    && forall u :: 0 <= u < |train| && u != t ==>
         BitDistance(q, train[t]) as real < ratio * BitDistance(q, train[u]) as real
  }

  lemma {:induction false} TimesIs(ratio: real, n: nat)
    ensures Times(ratio, n) == ratio * n as real
  {
  }

  lemma {:induction false} PicksByRatio(q: Descriptor, train: seq<Descriptor>, ratio: real, t: nat)
    requires ratio < 1.0
    ensures Picks(Row(q, train), ratio, t) <==> NearestByRatio(q, train, ratio, t)
  {
    hide Times, BitDistance;
    TimesIs(ratio, INFINITE);
    if t < |train| {
      forall u | 0 <= u < |train|
        ensures Times(ratio, Row(q, train)[u]) == ratio * BitDistance(q, train[u]) as real
      {
        TimesIs(ratio, BitDistance(q, train[u]));
      }
    }
  }

  /** With a ratio test, in plain terms: the matches are the pairs nearer to each other than the ratio allows to
      every other candidate on either side. */
  lemma {:induction false} RatioMatchedExact(left: seq<Descriptor>, right: seq<Descriptor>, ratio: real, m: Match)
    requires ratio < 1.0
    ensures m in Matched(left, right, ratio) <==>
      && m.left < |left| && m.right < |right| && m.distance == BitDistance(left[m.left], right[m.right])
      && NearestByRatio(left[m.left], right, ratio, m.right) && NearestByRatio(right[m.right], left, ratio, m.left)
  {
    MatchedExact(left, right, ratio, m);
    hide Matched, BitDistance, NearestByRatio, Picks;
    if m.left < |left| && m.right < |right| {
      PicksByRatio(left[m.left], right, ratio, m.right);
      PicksByRatio(right[m.right], left, ratio, m.left);
    } else {
      PickedAreThere(left, right, ratio, m);
    }
  }

  lemma {:induction false} PickedAreThere(left: seq<Descriptor>, right: seq<Descriptor>, ratio: real, m: Match)
    ensures Mutual(left, right, ratio, m) ==> m.left < |left| && m.right < |right|
  {
    hide Picks, BitDistance;
  }

  lemma {:induction false} PicksInRange(left: seq<Descriptor>, right: seq<Descriptor>, ratio: real, m: Match)
    requires PicksOf(left, right, ratio, m.left, m.right)
    ensures m.left < |left| && m.right < |right|
  {
  }

  lemma {:induction false} BackMatch(left: seq<Descriptor>, right: seq<Descriptor>, ratio: real, m: Match)
    requires m.right < |right| && m.left < |left|
    ensures (exists b :: b in OneWay(right, left, ratio, |right|) && b.left == m.right && b.right == m.left)
      <==> PicksOf(right, left, ratio, m.right, m.left)
  {
    hide OneWay, PicksOf;
    var back := Match(m.right, m.left, BitDistance(right[m.right], left[m.left]));
    OneWayExact(right, left, ratio, |right|, back);
    if b :| b in OneWay(right, left, ratio, |right|) && b.left == m.right && b.right == m.left {
      OneWayExact(right, left, ratio, |right|, b);
    }
  }

  // ----- order, one to one, transposition ------------------------------------------------------------------------

  /** Left indices ascend. */
  predicate Ascending(ms: seq<Match>) { forall i, j :: 0 <= i < j < |ms| ==> ms[i].left < ms[j].left }

  /** By distance, and by left index where distances are equal: the one order a stable sort can give. */
  predicate Before(a: Match, b: Match) { a.distance < b.distance || (a.distance == b.distance && a.left < b.left) }

  predicate Ordered(ms: seq<Match>) { forall i, j :: 0 <= i < j < |ms| ==> Before(ms[i], ms[j]) }

  lemma {:induction false} OneWayAscending(query: seq<Descriptor>, train: seq<Descriptor>, ratio: real, n: nat)
    requires n <= |query|
    ensures Ascending(OneWay(query, train, ratio, n))
  {
    if n > 0 {
      OneWayAscending(query, train, ratio, n - 1);
      var front, last := OneWay(query, train, ratio, n - 1), Push(query, train, ratio, n - 1);
      forall m | m in front ensures m.left < n - 1 { OneWayExact(query, train, ratio, n - 1, m); }
      forall m | m in last ensures m.left == n - 1 { PushExact(query, train, ratio, n - 1, m); }
      assert |last| <= 1;
    }
  }

  lemma {:induction false} KeptAscending(forward: seq<Match>, table: seq<Option<nat>>)
    requires Ascending(forward)
    ensures Ascending(Kept(forward, table))
  {
    if forward != [] {
      var last := |forward| - 1;
      var front := forward[..last];
      KeptAscending(front, table);
      forall m | m in Kept(front, table) ensures m.left < forward[last].left {
        KeptExact(front, table, m);
        var i :| 0 <= i < last && front[i] == m;
        assert forward[i] == m;
      }
    }
  }

  lemma {:induction false} InsertOrdered(m: Match, sorted: seq<Match>)
    requires Ordered(sorted) && forall x :: x in sorted ==> m.left < x.left
    ensures Ordered(Insert(m, sorted))
  {
    if sorted != [] && m.distance > sorted[0].distance {
      InsertOrdered(m, sorted[1..]);
      var rest := Insert(m, sorted[1..]);
      InsertHas(m, sorted[1..]);
      forall j | 0 <= j < |rest| ensures Before(sorted[0], rest[j]) {
        assert rest[j] in multiset(rest);
        if rest[j] != m {
          assert rest[j] in multiset(sorted[1..]);
          var k :| 0 <= k < |sorted| - 1 && sorted[1..][k] == rest[j];
          assert sorted[k + 1] == rest[j];
        }
      }
    } else {
      InsertFront(m, sorted);
    }
  }

  lemma {:induction false} InsertFront(m: Match, sorted: seq<Match>)
    requires Ordered(sorted) && forall x :: x in sorted ==> m.left < x.left
    requires sorted == [] || m.distance <= sorted[0].distance
    ensures Ordered([m] + sorted)
  {
    forall j | 0 <= j < |sorted| ensures Before(m, sorted[j]) {
      assert sorted[j] in sorted;
      if j > 0 { assert Before(sorted[0], sorted[j]); }
    }
  }

  lemma {:induction false} SortOrdered(ms: seq<Match>)
    requires Ascending(ms)
    ensures Ordered(StableSorted(ms))
  {
    if ms != [] {
      SortOrdered(ms[1..]);
      SortHas(ms[1..]);
      forall x | x in StableSorted(ms[1..]) ensures ms[0].left < x.left {
        assert x in multiset(ms[1..]);
        var k :| 0 <= k < |ms| - 1 && ms[1..][k] == x;
        assert ms[k + 1] == x;
      }
      InsertOrdered(ms[0], StableSorted(ms[1..]));
    }
  }

  /** The result is sorted by distance, ties in left order. */
  lemma {:induction false} MatchedOrdered(left: seq<Descriptor>, right: seq<Descriptor>, ratio: real)
    ensures Ordered(Matched(left, right, ratio))
  {
    hide OneWay, Table, Kept, StableSorted, Ordered, Ascending;
    OneWayAscending(left, right, ratio, |left|);
    var forward, table := OneWay(left, right, ratio, |left|), Table(OneWay(right, left, ratio, |right|), |right|);
    KeptAscending(forward, table);
    SortOrdered(Kept(forward, table));
  }

  /** No descriptor of either side is matched twice. */
  lemma {:induction false} MatchedOneToOne(left: seq<Descriptor>, right: seq<Descriptor>, ratio: real, i: nat, j: nat)
    requires i < j < |Matched(left, right, ratio)|
    ensures var ms := Matched(left, right, ratio); ms[i].left != ms[j].left && ms[i].right != ms[j].right
  {
    MatchedOrdered(left, right, ratio);
    hide Matched, Picks;
    var ms := Matched(left, right, ratio);
    var a, b := ms[i], ms[j];
    assert Before(a, b);
    MatchedExact(left, right, ratio, a);
    MatchedExact(left, right, ratio, b);
    if a.left == b.left {
      RowFinite(left[a.left], right);
      PickUnique(Row(left[a.left], right), ratio, a.right, b.right);
    }
    if a.right == b.right {
      RowFinite(right[a.right], left);
      PickUnique(Row(right[a.right], left), ratio, a.left, b.left);
    }
  }

  function Transposed(m: Match): Match { Match(m.right, m.left, m.distance) }

  /** Swapping the inputs gives the transposed matches. */
  lemma {:induction false} MatchedTransposed(left: seq<Descriptor>, right: seq<Descriptor>, ratio: real, m: Match)
    ensures m in Matched(left, right, ratio) <==> Transposed(m) in Matched(right, left, ratio)
  {
    hide Matched, PicksOf;
    MatchedExact(left, right, ratio, m);
    MatchedExact(right, left, ratio, Transposed(m));
    if m.left < |left| && m.right < |right| {
      DistanceSymmetric(left[m.left], right[m.right]);
    }
  }
}
