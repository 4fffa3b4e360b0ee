/** Boxes of any number of dimensions in a GiST index; a dimension that a box lacks is read as zero. */
module Cube {
  import opened Wrappers

  /** Two opposite corners; which of them is lower may differ from one dimension to the next. */
  datatype Box = Box(ll: seq<real>, ur: seq<real>)
  {
    predicate Valid() { |ll| == |ur| }

    function Dim(): nat { |ll| }

    function Low(i: nat): real
      requires Valid()
    {
      if i < Dim() then Min(ll[i], ur[i]) else 0.0
    }

    function High(i: nat): real
      requires Valid()
    {
      if i < Dim() then Max(ll[i], ur[i]) else 0.0
    }
  }

  function Min(a: real, b: real): real { if a < b then a else b }

  function Max(a: real, b: real): real { if a > b then a else b }

  function MaxDim(a: Box, b: Box): nat { if a.Dim() < b.Dim() then b.Dim() else a.Dim() }

  /** `k` encloses `l` in every dimension, and has all its dimensions. */
  ghost predicate Covers(k: Box, l: Box)
    requires k.Valid() && l.Valid()
  {
    l.Dim() <= k.Dim() && forall i: nat :: k.Low(i) <= l.Low(i) && l.High(i) <= k.High(i)
  }

  // ----- union -----

  function UnionBox(a: Box, b: Box): Box
    requires a.Valid() && b.Valid()
  {
    Box(seq(MaxDim(a, b), i requires 0 <= i => Min(a.Low(i), b.Low(i))),
        seq(MaxDim(a, b), i requires 0 <= i => Max(a.High(i), b.High(i))))
  }

  /** The smallest box that encloses both. */
  method Union(a0: Box, b0: Box) returns (r: Box)
    requires a0.Valid() && b0.Valid()
    ensures r == UnionBox(a0, b0) && r.Valid() && r.Dim() == MaxDim(a0, b0)
    ensures forall i: nat :: r.Low(i) == Min(a0.Low(i), b0.Low(i)) && r.High(i) == Max(a0.High(i), b0.High(i))
    ensures Covers(r, a0) && Covers(r, b0)
  {
    var a, b := a0, b0;
    if a.Dim() < b.Dim() {
      a, b := b0, a0;
    }
    var ll, ur := new real[a.Dim()](_ => 0.0), new real[a.Dim()](_ => 0.0);
    var i: nat := 0;
    while i < b.Dim()
      invariant i <= b.Dim()
      invariant forall k :: 0 <= k < i ==> ll[k] == Min(a.Low(k), b.Low(k)) && ur[k] == Max(a.High(k), b.High(k))
    {
      ll[i] := Min(Min(a.ll[i], a.ur[i]), Min(b.ll[i], b.ur[i]));
      ur[i] := Max(Max(a.ll[i], a.ur[i]), Max(b.ll[i], b.ur[i]));
      i := i + 1;
    }
    while i < a.Dim()
      invariant b.Dim() <= i <= a.Dim()
      invariant forall k :: 0 <= k < i ==> ll[k] == Min(a.Low(k), b.Low(k)) && ur[k] == Max(a.High(k), b.High(k))
    {
      ll[i] := Min(0.0, Min(a.ll[i], a.ur[i]));
      ur[i] := Max(0.0, Max(a.ll[i], a.ur[i]));
      i := i + 1;
    }
    r := Box(ll[..], ur[..]);
  }

  // ----- tests -----

  /** In every dimension of `b`, `a` encloses `b`; dimensions that only `a` has do not count. */
  predicate Encloses(a: Box, b: Box)
    requires a.Valid() && b.Valid()
  {
    forall i: nat :: i < b.Dim() ==> a.Low(i) <= b.Low(i) && b.High(i) <= a.High(i)
  }

  method Contains(a: Box, b: Box) returns (res: bool)
    requires a.Valid() && b.Valid()
    ensures res <==> Encloses(a, b)
  {
    var i: nat := a.Dim();
    while i < b.Dim()
      invariant a.Dim() <= i && (i <= b.Dim() || a.Dim() == i)
      invariant forall k: nat :: a.Dim() <= k < i && k < b.Dim() ==> b.Low(k) == 0.0 == b.High(k)
    {
      if b.ll[i] != 0.0 || b.ur[i] != 0.0 {
        assert !(a.Low(i) <= b.Low(i) && b.High(i) <= a.High(i));
        return false;
      }
      i := i + 1;
    }
    var common := if a.Dim() < b.Dim() then a.Dim() else b.Dim();
    i := 0;
    while i < common
      invariant i <= common
      invariant forall k: nat :: k < i ==> a.Low(k) <= b.Low(k) && b.High(k) <= a.High(k)
    {
      if Min(a.ll[i], a.ur[i]) > Min(b.ll[i], b.ur[i]) || Max(a.ll[i], a.ur[i]) < Max(b.ll[i], b.ur[i]) {
        assert !(a.Low(i) <= b.Low(i) && b.High(i) <= a.High(i));
        return false;
      }
      i := i + 1;
    }
    return true;
  }

  /** The two boxes have a point in common. */
  predicate Meets(a: Box, b: Box)
    requires a.Valid() && b.Valid()
  {
    forall i: nat :: i < MaxDim(a, b) ==> a.Low(i) <= b.High(i) && b.Low(i) <= a.High(i)
  }

  method Overlap(a0: Box, b0: Box) returns (res: bool)
    requires a0.Valid() && b0.Valid()
    ensures res <==> Meets(a0, b0)
  {
    var a, b := a0, b0;
    if a.Dim() < b.Dim() {
      a, b := b0, a0;
    }
    var i: nat := 0;
    while i < a.Dim()
      invariant i <= a.Dim()
      invariant forall k: nat :: k < i ==> a0.Low(k) <= b0.High(k) && b0.Low(k) <= a0.High(k)
    {
      var low := if i < b.Dim() then Min(b.ll[i], b.ur[i]) else 0.0;
      var high := if i < b.Dim() then Max(b.ll[i], b.ur[i]) else 0.0;
      if Min(a.ll[i], a.ur[i]) > high || Max(a.ll[i], a.ur[i]) < low {
        assert !(a0.Low(i) <= b0.High(i) && b0.Low(i) <= a0.High(i));
        return false;
      }
      i := i + 1;
    }
    return true;
  }

  /** Equal boxes with equally many dimensions. */
  ghost predicate Same(a: Box, b: Box)
    requires a.Valid() && b.Valid()
  {
    a.Dim() == b.Dim() && forall i: nat :: a.Low(i) == b.Low(i) && a.High(i) == b.High(i)
  }

  // ----- search -----

  /** An internal key passes the test for overlap and for containment whenever a leaf below satisfies the
      operator, and for equality too. */
  lemma InternalConsistent(k: Box, l: Box, q: Box)
    requires k.Valid() && l.Valid() && q.Valid() && Covers(k, l)
    ensures Meets(l, q) ==> Meets(k, q)
    ensures Encloses(l, q) ==> Encloses(k, q)
    ensures Same(l, q) ==> Encloses(k, q)
  {
    if Meets(l, q) {
      forall i: nat | i < MaxDim(k, q) ensures k.Low(i) <= q.High(i) && q.Low(i) <= k.High(i) {
        assert k.Low(i) <= l.Low(i) && l.High(i) <= k.High(i);
      }
    }
    forall i: nat | i < q.Dim() && l.Low(i) <= q.Low(i) && q.High(i) <= l.High(i)
      ensures k.Low(i) <= q.Low(i) && q.High(i) <= k.High(i)
    {
      assert k.Low(i) <= l.Low(i) && l.High(i) <= k.High(i);
    }
  }

  /** In the dimensions that only the query has, it reaches zero. */
  predicate ReachesZero(q: Box, dim: nat)
    requires q.Valid()
  {
    forall i: nat :: dim <= i < q.Dim() ==> q.Low(i) <= 0.0 <= q.High(i)
  }

  /** A leaf that is contained in the query is reached through every key that covers it if and only if the
      query reaches zero in the dimensions that the leaf lacks. */
  lemma ContainedByIff(l: Box, q: Box)
    requires l.Valid() && q.Valid() && Encloses(q, l)
    ensures (forall k: Box :: k.Valid() && Covers(k, l) ==> Meets(k, q)) <==> ReachesZero(q, l.Dim())
  {
    if ReachesZero(q, l.Dim()) {
      forall k: Box | k.Valid() && Covers(k, l) ensures Meets(k, q) {
        forall i: nat | i < MaxDim(k, q) ensures k.Low(i) <= q.High(i) && q.Low(i) <= k.High(i) {
          assert k.Low(i) <= l.Low(i) && l.High(i) <= k.High(i);
        }
      }
    } else {
      assert Covers(l, l);
      assert !Meets(l, q);
    }
  }

  /** The point (0) is contained in the query (0, 5), which ignores its own second dimension, but the
      overlap test does not. */
  lemma ContainedByMissed()
    ensures var l, q := Box([0.0], [0.0]), Box([0.0, 5.0], [0.0, 5.0]);
      Encloses(q, l) && Covers(l, l) && !Meets(l, q)
  {
    var l, q := Box([0.0], [0.0]), Box([0.0, 5.0], [0.0, 5.0]);
    assert q.Low(1) == 5.0 && l.High(1) == 0.0;
  }

  // ----- distances -----

  /** The gap between two intervals. */
  function Gap(a: Box, b: Box, i: nat): real
    requires a.Valid() && b.Valid()
  {
    if a.High(i) <= b.Low(i) then b.Low(i) - a.High(i)
    else if b.High(i) < a.Low(i) then a.Low(i) - b.High(i)
    else 0.0
  }

  function Distance1D(a1: real, a2: real, b1: real, b2: real): real
  {
    if a1 <= b1 && a2 <= b1 && a1 <= b2 && a2 <= b2 then Min(b1, b2) - Max(a1, a2)
    else if a1 > b1 && a2 > b1 && a1 > b2 && a2 > b2 then Min(a1, a2) - Max(b1, b2)
    else 0.0
  }

  lemma GapIsDistance(a: Box, b: Box, i: nat)
    requires a.Valid() && b.Valid() && i < a.Dim()
    ensures Gap(a, b, i) == if i < b.Dim() then Distance1D(a.ll[i], a.ur[i], b.ll[i], b.ur[i])
                            else Distance1D(a.ll[i], a.ur[i], 0.0, 0.0)
    ensures Gap(a, b, i) >= 0.0 && Gap(b, a, i) == Gap(a, b, i)
  {
  }

  /** The sum, and the maximum, of the gaps in the first `n` dimensions. */
  function Sum(a: Box, b: Box, n: nat): real
    requires a.Valid() && b.Valid()
  {
    if n == 0 then 0.0 else Sum(a, b, n - 1) + Gap(a, b, n - 1)
  }

  function Largest(a: Box, b: Box, n: nat): real
    requires a.Valid() && b.Valid()
  {
    if n == 0 then 0.0 else Max(Largest(a, b, n - 1), Gap(a, b, n - 1))
  }

  /** The gaps in the first `n` dimensions. */
  function Gaps(a: Box, b: Box, n: nat): seq<real>
    requires a.Valid() && b.Valid()
  {
    seq(n, i requires 0 <= i && a.Valid() && b.Valid() => Gap(a, b, i))
  }

  function SquareSum(s: seq<real>): real
  {
    if s == [] then 0.0 else SquareSum(s[..|s| - 1]) + s[|s| - 1] * s[|s| - 1]
  }

  lemma SquareSumSnoc(s: seq<real>, x: real)
    ensures SquareSum(s + [x]) == SquareSum(s) + x * x
  {
    assert (s + [x])[..|s|] == s;
  }

  lemma GapsSnoc(a: Box, b: Box, n: nat)
    requires a.Valid() && b.Valid()
    ensures Gaps(a, b, n + 1) == Gaps(a, b, n) + [Gap(a, b, n)]
  {
  }

  /** The square of the Euclidean distance. */
  function Squares(a: Box, b: Box, n: nat): real
    requires a.Valid() && b.Valid()
  {
    SquareSum(Gaps(a, b, n))
  }

  method GapAt(a: Box, b: Box, i: nat) returns (g: real)
    requires a.Valid() && b.Valid() && b.Dim() <= a.Dim() && i < a.Dim()
    ensures g == Gap(a, b, i) == Gap(b, a, i)
  {
    GapIsDistance(a, b, i);
    g := if i < b.Dim() then Distance1D(a.ll[i], a.ur[i], b.ll[i], b.ur[i])
         else Distance1D(a.ll[i], a.ur[i], 0.0, 0.0);
  }

  /** The sum whose root is the Euclidean distance. */
  method DistanceSquared(a0: Box, b0: Box) returns (d: real)
    requires a0.Valid() && b0.Valid()
    ensures d == Squares(a0, b0, MaxDim(a0, b0))
  {
    var a, b := a0, b0;
    if a.Dim() < b.Dim() {
      a, b := b0, a0;
    }
    d := 0.0;
    var i: nat := 0;
    while i < a.Dim()
      invariant i <= a.Dim() && d == SquareSum(Gaps(a0, b0, i))
    {
      var g := GapAt(a, b, i);
      GapsSnoc(a0, b0, i);
      SquareSumSnoc(Gaps(a0, b0, i), g);
      d := d + g * g;
      i := i + 1;
    }
  }

  method TaxicabDistance(a0: Box, b0: Box) returns (d: real)
    requires a0.Valid() && b0.Valid()
    ensures d == Sum(a0, b0, MaxDim(a0, b0))
  {
    var a, b := a0, b0;
    if a.Dim() < b.Dim() {
      a, b := b0, a0;
    }
    d := 0.0;
    var i: nat := 0;
    while i < a.Dim()
      invariant i <= a.Dim() && d == Sum(a0, b0, i)
    {
      var g := GapAt(a, b, i);
      d := d + g;
      i := i + 1;
    }
  }

  method ChebyshevDistance(a0: Box, b0: Box) returns (d: real)
    requires a0.Valid() && b0.Valid()
    ensures d == Largest(a0, b0, MaxDim(a0, b0))
  {
    var a, b := a0, b0;
    if a.Dim() < b.Dim() {
      a, b := b0, a0;
    }
    d := 0.0;
    var i: nat := 0;
    while i < a.Dim()
      invariant i <= a.Dim() && d == Largest(a0, b0, i)
    {
      var g := GapAt(a, b, i);
      if g > d {
        d := g;
      }
      i := i + 1;
    }
  }

  lemma {:induction false} SumShrinks(k: Box, l: Box, q: Box, n: nat)
    requires k.Valid() && l.Valid() && q.Valid() && Covers(k, l)
    ensures Sum(k, q, n) <= Sum(l, q, n) && Largest(k, q, n) <= Largest(l, q, n)
  {
    if n > 0 {
      SumShrinks(k, l, q, n - 1);
    }
  }

  /** Dimensions that neither box has add nothing. */
  lemma {:induction false} SumStays(a: Box, b: Box, n: nat)
    requires a.Valid() && b.Valid() && n >= MaxDim(a, b)
    ensures Sum(a, b, n) == Sum(a, b, MaxDim(a, b)) && Largest(a, b, n) == Largest(a, b, MaxDim(a, b))
  {
    if n > MaxDim(a, b) {
      SumStays(a, b, n - 1);
    }
  }

  /** Distances to an internal key never exceed those to a leaf below it. */
  lemma DistanceLowerBound(k: Box, l: Box, q: Box)
    requires k.Valid() && l.Valid() && q.Valid() && Covers(k, l)
    ensures Sum(k, q, MaxDim(k, q)) <= Sum(l, q, MaxDim(l, q))
    ensures Largest(k, q, MaxDim(k, q)) <= Largest(l, q, MaxDim(l, q))
  {
    SumShrinks(k, l, q, MaxDim(k, q));
    SumStays(l, q, MaxDim(k, q));
  }

  lemma SquareBound(x: real, y: real)
    requires 0.0 <= x <= y
    ensures x * x <= y * y
  {
    assert x * x <= x * y by { assert x * (y - x) >= 0.0; }
    assert x * y <= y * y by { assert (y - x) * y >= 0.0; }
  }

  lemma SquareStrict(x: real, y: real)
    requires 0.0 <= y < x
    ensures y * y < x * x
  {
    var d := x - y;
    assert x * x == y * y + 2.0 * (d * y) + d * d;
    assert d * y >= 0.0 && d * d > 0.0;
  }

  lemma RootBound(x: real, y: real)
    requires 0.0 <= x && 0.0 <= y && x * x <= y * y
    ensures x <= y
  {
    if y < x {
      SquareStrict(x, y);
    }
  }

  lemma {:induction false} SquareSumBound(s: seq<real>, t: seq<real>)
    requires |s| == |t| && forall i :: 0 <= i < |s| ==> 0.0 <= s[i] <= t[i]
    ensures SquareSum(s) <= SquareSum(t)
  {
    if s != [] {
      var n := |s| - 1;
      SquareSumBound(s[..n], t[..n]);
      SquareBound(s[n], t[n]);
    }
  }

  lemma GapBound(k: Box, l: Box, q: Box, i: nat)
    requires k.Valid() && l.Valid() && q.Valid() && Covers(k, l)
    ensures 0.0 <= Gap(k, q, i) <= Gap(l, q, i)
  {
    assert k.Low(i) <= l.Low(i) && l.High(i) <= k.High(i);
  }

  lemma SquaresShrink(k: Box, l: Box, q: Box, n: nat)
    requires k.Valid() && l.Valid() && q.Valid() && Covers(k, l)
    ensures Squares(k, q, n) <= Squares(l, q, n)
  {
    var s, t := Gaps(k, q, n), Gaps(l, q, n);
    forall i | 0 <= i < n ensures 0.0 <= s[i] <= t[i] {
      GapBound(k, l, q, i);
    }
    SquareSumBound(s, t);
  }

  lemma GapBeyond(a: Box, b: Box, i: nat)
    requires a.Valid() && b.Valid() && i >= MaxDim(a, b)
    ensures Gap(a, b, i) == 0.0
  {
  }

  lemma SquaresSame(a: Box, b: Box, n: nat)
    requires a.Valid() && b.Valid() && n >= MaxDim(a, b)
    ensures Squares(a, b, n + 1) == Squares(a, b, n)
  {
    GapBeyond(a, b, n);
    GapsSnoc(a, b, n);
    SquareSumSnoc(Gaps(a, b, n), 0.0);
  }

  lemma {:induction false} SquaresStay(a: Box, b: Box, n: nat)
    requires a.Valid() && b.Valid() && n >= MaxDim(a, b)
    ensures Squares(a, b, n) == Squares(a, b, MaxDim(a, b))
  {
    if n > MaxDim(a, b) {
      SquaresStay(a, b, n - 1);
      SquaresSame(a, b, n - 1);
    }
  }

  /** Nor does the Euclidean distance: `dk` and `dl` are the roots. */
  lemma EuclideanLowerBound(k: Box, l: Box, q: Box, dk: real, dl: real)
    requires k.Valid() && l.Valid() && q.Valid() && Covers(k, l)
    requires dk >= 0.0 && dk * dk == Squares(k, q, MaxDim(k, q))
    requires dl >= 0.0 && dl * dl == Squares(l, q, MaxDim(l, q))
    ensures Squares(k, q, MaxDim(k, q)) <= Squares(l, q, MaxDim(l, q)) && dk <= dl
  {
    SquaresShrink(k, l, q, MaxDim(k, q));
    SquaresStay(l, q, MaxDim(k, q));
    RootBound(dk, dl);
  }

  /** Ordering by coordinate: odd numbers mean lower, even numbers upper bounds, negative ones the
      inverse; an internal key answers with the least value possible below it. */
  function CoordValue(b: Box, coord: int, leaf: bool): real
    requires b.Valid() && coord != 0
  {
    var c := if coord < 0 then -coord else coord;
    var v := if c > 2 * b.Dim() then 0.0
             else if leaf then if (c - 1) % 2 == 1 then b.High((c - 1) / 2) else b.Low((c - 1) / 2)
             else if coord > 0 then b.Low((c - 1) / 2) else b.High((c - 1) / 2);
    if coord < 0 then -v else v
  }

  /** There is no coordinate 0. */
  function CoordDistance(b: Box, coord: int, leaf: bool): (r: Option<real>)
    requires b.Valid()
    ensures r.None? <==> coord == 0
  {
    if coord == 0 then None else Some(CoordValue(b, coord, leaf))
  }

  lemma CoordLowerBound(k: Box, l: Box, coord: int)
    requires k.Valid() && l.Valid() && Covers(k, l) && coord != 0
    ensures CoordDistance(k, coord, false).value <= CoordDistance(l, coord, true).value
  {
    var c := if coord < 0 then -coord else coord;
    var i := (c - 1) / 2;
    assert k.Low(i) <= l.Low(i) && l.High(i) <= k.High(i);
  }

  // ----- split -----

  /** The product of the sides of the first `n` dimensions. */
  function Product(b: Box, n: nat): real
    requires b.Valid() && n <= b.Dim()
  {
    if n == 0 then 1.0 else Product(b, n - 1) * (b.High(n - 1) - b.Low(n - 1))
  }

  function Volume(b: Box): real
    requires b.Valid()
  {
    if b.Dim() == 0 then 0.0 else Product(b, b.Dim())
  }

  lemma ProductBound(a: real, b: real, c: real, d: real)
    requires 0.0 <= a <= b && 0.0 <= c <= d
    ensures 0.0 <= a * c <= b * d
  {
    assert a * c <= a * d by { assert a * (d - c) >= 0.0; }
    assert a * d <= b * d by { assert (b - a) * d >= 0.0; }
    assert 0.0 <= a * c;
  }

  lemma {:induction false} ProductMonotone(k: Box, u: Box, n: nat)
    requires k.Valid() && u.Valid() && Covers(u, k) && n <= k.Dim()
    ensures 0.0 <= Product(k, n) <= Product(u, n)
  {
    if n > 0 {
      ProductMonotone(k, u, n - 1);
      assert u.Low(n - 1) <= k.Low(n - 1) && k.High(n - 1) <= u.High(n - 1);
      ProductBound(Product(k, n - 1), Product(u, n - 1), k.High(n - 1) - k.Low(n - 1), u.High(n - 1) - u.Low(n - 1));
    }
  }

  /** `u` is a box that `k` could grow to so as to take `e` in. */
  ghost predicate Enlarged(k: Box, e: Box, u: Box)
    requires k.Valid() && e.Valid()
  {
    u.Valid() && u.Dim() == MaxDim(k, e) && Covers(u, k) && Covers(u, e)
  }

  /** The union is the enlargement with the least volume. */
  lemma UnionLeast(k: Box, e: Box, u: Box)
    requires k.Valid() && e.Valid() && Enlarged(k, e, u)
    ensures Volume(UnionBox(k, e)) <= Volume(u)
  {
    var r := UnionBox(k, e);
    forall i: nat ensures u.Low(i) <= r.Low(i) && r.High(i) <= u.High(i) {
      assert u.Low(i) <= k.Low(i) && k.High(i) <= u.High(i);
      assert u.Low(i) <= e.Low(i) && e.High(i) <= u.High(i);
    }
    ProductMonotone(r, u, r.Dim());
  }

  // ----- seeds -----

  /** The common part of two boxes; where they do not meet, the gap between them. */
  function InterBox(a: Box, b: Box): Box
    requires a.Valid() && b.Valid()
  {
    Box(seq(MaxDim(a, b), i requires 0 <= i => Max(a.Low(i), b.Low(i))),
        seq(MaxDim(a, b), i requires 0 <= i => Min(a.High(i), b.High(i))))
  }

  method Inter(a0: Box, b0: Box) returns (r: Box)
    requires a0.Valid() && b0.Valid()
    ensures r == InterBox(a0, b0) && r.Valid()
  {
    var a, b := a0, b0;
    if a.Dim() < b.Dim() {
      a, b := b0, a0;
    }
    var ll, ur := new real[a.Dim()](_ => 0.0), new real[a.Dim()](_ => 0.0);
    var i: nat := 0;
    while i < b.Dim()
      invariant i <= b.Dim()
      invariant forall k :: 0 <= k < i ==> ll[k] == Max(a.Low(k), b.Low(k)) && ur[k] == Min(a.High(k), b.High(k))
    {
      ll[i] := Max(Min(a.ll[i], a.ur[i]), Min(b.ll[i], b.ur[i]));
      ur[i] := Min(Max(a.ll[i], a.ur[i]), Max(b.ll[i], b.ur[i]));
      i := i + 1;
    }
    while i < a.Dim()
      invariant b.Dim() <= i <= a.Dim()
      invariant forall k :: 0 <= k < i ==> ll[k] == Max(a.Low(k), b.Low(k)) && ur[k] == Min(a.High(k), b.High(k))
    {
      ll[i] := Max(0.0, Min(a.ll[i], a.ur[i]));
      ur[i] := Min(0.0, Max(a.ll[i], a.ur[i]));
      i := i + 1;
    }
    r := Box(ll[..], ur[..]);
  }

  /** In every dimension `c` lies within `a`. */
  ghost predicate Within(c: Box, a: Box)
    requires c.Valid() && a.Valid()
  {
    forall i: nat :: a.Low(i) <= c.Low(i) && c.High(i) <= a.High(i)
  }

  /** Of two boxes that meet it is the greatest box within both. */
  lemma InterIsGreatest(a: Box, b: Box, c: Box)
    requires a.Valid() && b.Valid() && c.Valid() && Meets(a, b)
    ensures Within(InterBox(a, b), a) && Within(InterBox(a, b), b)
    ensures Within(c, a) && Within(c, b) ==> Within(c, InterBox(a, b))
  {
    var r := InterBox(a, b);
    forall i: nat ensures r.Low(i) == Max(a.Low(i), b.Low(i)) && r.High(i) == Min(a.High(i), b.High(i)) {
      if i < r.Dim() {
        assert r.ll[i] <= r.ur[i];
      }
    }
  }

  /** What a box around both would waste. */
  function Waste(a: Box, b: Box): real
    requires a.Valid() && b.Valid()
  {
    Volume(UnionBox(a, b)) - Volume(InterBox(a, b))
  }

  method WasteOf(a: Box, b: Box) returns (w: real)
    requires a.Valid() && b.Valid()
    ensures w == Waste(a, b)
  {
    var around := Union(a, b);
    var common := Inter(a, b);
    w := Volume(around) - Volume(common);
  }

  type Cost = (Box, Box) -> real

  ghost function WasteCost(): Cost { (a: Box, b: Box) => if a.Valid() && b.Valid() then Waste(a, b) else 0.0 }

  /** No two of the entries that the search for seeds has looked at cost more than `most`. */
  ghost predicate Searched(w: Cost, keys: seq<Box>, k: nat, j: nat, most: real)
  {
    forall a, b :: 0 <= a < b < |keys| - 1 && (a < k || (a == k && b < j)) ==> w(keys[a], keys[b]) <= most
  }

  /** The pair found so far, if any. */
  ghost predicate Best(w: Cost, keys: seq<Box>, s1: nat, s2: nat, first: bool, k: nat, j: nat, most: real)
  {
    if first then k == 0 && j <= 1 && s1 == 0 && s2 == 1
    else s1 < s2 < |keys| - 1 && most == w(keys[s1], keys[s2]) && Searched(w, keys, k, j, most)
  }

  method SeedStep(ghost w: Cost, ghost keys: seq<Box>, k: nat, j: nat, s1: nat, s2: nat, first: bool, waste: real,
                  size: real)
    returns (s1': nat, s2': nat, waste': real)
    requires k < j < |keys| - 1 && Best(w, keys, s1, s2, first, k, j, waste) && size == w(keys[k], keys[j])
    ensures Best(w, keys, s1', s2', false, k, j + 1, waste')
  {
    if size > waste || first {
      return k, j, size;
    }
    return s1, s2, waste;
  }

  /** The seeds are the two entries, of all but the last, that would waste most together. */
  method Seeds(keys: seq<Box>) returns (s1: nat, s2: nat)
    requires AllValid(keys) && |keys| >= 2
    ensures s1 < s2 < |keys| && (|keys| > 2 ==> s2 < |keys| - 1)
    ensures forall a, b :: 0 <= a < b < |keys| - 1 ==> Waste(keys[a], keys[b]) <= Waste(keys[s1], keys[s2])
  {
    var most;
    s1, s2, most := SeedLoop(keys, WasteCost());
    forall a, b | 0 <= a < b < |keys| - 1 ensures Waste(keys[a], keys[b]) <= Waste(keys[s1], keys[s2]) {
      assert WasteCost()(keys[a], keys[b]) <= most;
    }
  }

  method SeedLoop(keys: seq<Box>, ghost w: Cost) returns (s1: nat, s2: nat, waste: real)
    requires AllValid(keys) && |keys| >= 2 && w == WasteCost()
    ensures s1 < s2 < |keys|
    ensures |keys| > 2 ==> Best(w, keys, s1, s2, false, |keys| - 2, 0, waste)
  {
    var maxoff, first := |keys| - 1, true;
    s1, s2, waste := 0, 1, 0.0;
    var k: nat := 0;
    while k + 1 < maxoff
      invariant k <= maxoff && (k > 0 ==> !first && k < maxoff) && Best(w, keys, s1, s2, first, k, 0, waste)
    {
      var j: nat := k + 1;
      while j < maxoff
        invariant k < j <= maxoff && (j > k + 1 ==> !first) && Best(w, keys, s1, s2, first, k, j, waste)
      {
        var size := WasteOf(keys[k], keys[j]);
        s1, s2, waste := SeedStep(w, keys, k, j, s1, s2, first, waste, size);
        first := false;
        j := j + 1;
      }
      k := k + 1;
    }
  }

  ghost predicate AllValid(keys: seq<Box>) { forall i :: 0 <= i < |keys| ==> keys[i].Valid() }

  ghost predicate HalfCovers(k: Box, keys: seq<Box>, half: seq<nat>)
  {
    AllValid(keys) && k.Valid() && forall i :: 0 <= i < |half| ==> half[i] < |keys| && Covers(k, keys[half[i]])
  }

  /** Taking `e` in costs `k`, on its way to `k'`, no more volume than it would cost `other`. */
  ghost predicate GrowsLeast(k: Box, k': Box, other: Box, e: Box)
    requires k.Valid() && k'.Valid() && other.Valid() && e.Valid()
  {
    forall u :: Enlarged(other, e, u) ==> Volume(k') - Volume(k) <= Volume(u) - Volume(other)
  }

  /** Puts one entry into the half that has to grow least. */
  method Place(keys: seq<Box>, i: nat, left: seq<nat>, right: seq<nat>, l: Box, r: Box)
    returns (left': seq<nat>, right': seq<nat>, l': Box, r': Box)
    requires i < |keys| && HalfCovers(l, keys, left) && HalfCovers(r, keys, right)
    ensures HalfCovers(l', keys, left') && HalfCovers(r', keys, right') && Covers(l', l) && Covers(r', r)
    ensures || (left' == left + [i] && right' == right && r' == r && GrowsLeast(l, l', r, keys[i]))
            || (left' == left && right' == right + [i] && l' == l && GrowsLeast(r, r', l, keys[i]))
  {
    var ul := Union(l, keys[i]);
    var ur := Union(r, keys[i]);
    left', right', l', r' := left, right, l, r;
    if Volume(ul) - Volume(l) < Volume(ur) - Volume(r) {
      l', left' := ul, left + [i];
      forall u | Enlarged(r, keys[i], u) ensures Volume(ul) - Volume(l) <= Volume(u) - Volume(r) {
        UnionLeast(r, keys[i], u);
      }
    } else {
      r', right' := ur, right + [i];
      forall u | Enlarged(l, keys[i], u) ensures Volume(ur) - Volume(r) <= Volume(u) - Volume(l) {
        UnionLeast(l, keys[i], u);
      }
    }
  }

  /** The halves deal out the first `i` entries in order. */
  ghost predicate Dealt(left: seq<nat>, right: seq<nat>, i: nat)
  {
    if i == 0 then left == [] && right == [] else
    || (|left| > 0 && left[|left| - 1] == i - 1 && Dealt(left[..|left| - 1], right, i - 1))
    || (|right| > 0 && right[|right| - 1] == i - 1 && Dealt(left, right[..|right| - 1], i - 1))
  }

  lemma LastCounts(s: seq<nat>, x: nat)
    requires |s| > 0
    ensures multiset(s)[x] == multiset(s[..|s| - 1])[x] + if s[|s| - 1] == x then 1 else 0
  {
    assert s == s[..|s| - 1] + [s[|s| - 1]];
  }

  /** Every entry is in one half, once. */
  lemma {:induction false} DealtOnce(left: seq<nat>, right: seq<nat>, i: nat, x: nat)
    requires Dealt(left, right, i)
    ensures multiset(left)[x] + multiset(right)[x] == if x < i then 1 else 0
  {
    if i > 0 {
      if |left| > 0 && left[|left| - 1] == i - 1 && Dealt(left[..|left| - 1], right, i - 1) {
        DealtOnce(left[..|left| - 1], right, i - 1, x);
        LastCounts(left, x);
      } else {
        DealtOnce(left, right[..|right| - 1], i - 1, x);
        LastCounts(right, x);
      }
    }
  }

  /** The halves hold each of the first `i` entries once, and one seed each. */
  ghost predicate Parted(left: seq<nat>, right: seq<nat>, i: nat, seed1: nat, seed2: nat)
  {
    Dealt(left, right, i) && (seed1 < i ==> seed1 in left) && (seed2 < i ==> seed2 in right)
  }

  ghost predicate Covering(keys: seq<Box>, left: seq<nat>, right: seq<nat>, l: Box, r: Box, seed1: nat, seed2: nat)
    requires seed1 < |keys| && seed2 < |keys|
  {
    && HalfCovers(l, keys, left) && HalfCovers(r, keys, right)
    && Covers(l, keys[seed1]) && Covers(r, keys[seed2])
  }

  /** The seeds go where they are; any other entry is placed. */
  method SplitStep(keys: seq<Box>, i: nat, seed1: nat, seed2: nat, left: seq<nat>, right: seq<nat>, l: Box, r: Box)
    returns (left': seq<nat>, right': seq<nat>, l': Box, r': Box)
    requires i < |keys| && seed1 < seed2 < |keys| && Covering(keys, left, right, l, r, seed1, seed2)
    ensures Covering(keys, left', right', l', r', seed1, seed2)
    ensures (left' == left + [i] && right' == right) || (left' == left && right' == right + [i])
    ensures (i == seed1 ==> left' == left + [i]) && (i == seed2 ==> right' == right + [i])
  {
    left', right', l', r' := left, right, l, r;
    if i == seed1 {
      left' := left + [i];
    } else if i == seed2 {
      right' := right + [i];
    } else {
      left', right', l', r' := Place(keys, i, left, right, l, r);
    }
  }

  /** One turn of the loop over the entries. */
  method SplitTurn(keys: seq<Box>, i: nat, seed1: nat, seed2: nat, left: seq<nat>, right: seq<nat>, l: Box, r: Box)
    returns (left': seq<nat>, right': seq<nat>, l': Box, r': Box)
    requires i < |keys| && seed1 < seed2 < |keys| && Covering(keys, left, right, l, r, seed1, seed2)
    requires Parted(left, right, i, seed1, seed2)
    ensures Covering(keys, left', right', l', r', seed1, seed2)
    ensures Parted(left', right', i + 1, seed1, seed2)
  {
    left', right', l', r' := SplitStep(keys, i, seed1, seed2, left, right, l, r);
  }

  method SplitLoop(keys: seq<Box>, seed1: nat, seed2: nat, l0: Box, r0: Box)
    returns (left: seq<nat>, right: seq<nat>, l: Box, r: Box)
    requires seed1 < seed2 < |keys| && Covering(keys, [], [], l0, r0, seed1, seed2)
    ensures Parted(left, right, |keys|, seed1, seed2) && Covering(keys, left, right, l, r, seed1, seed2)
  {
    left, right, l, r := [], [], l0, r0;
    var i: nat := 0;
    while i < |keys|
      invariant i <= |keys| && Parted(left, right, i, seed1, seed2)
      invariant Covering(keys, left, right, l, r, seed1, seed2)
    {
      left, right, l, r := SplitTurn(keys, i, seed1, seed2, left, right, l, r);
      i := i + 1;
    }
  }

  /** The halves keep the order of the entries, take each exactly once, have one seed each and cover what
      they hold; no two other entries, the last one left aside, would have wasted more together. */
  method PickSplit(keys: seq<Box>)
    returns (left: seq<nat>, right: seq<nat>, l: Box, r: Box, seed1: nat, seed2: nat)
    requires AllValid(keys) && |keys| >= 2
    ensures Dealt(left, right, |keys|)
    ensures forall x :: 0 <= x < |keys| ==> multiset(left)[x] + multiset(right)[x] == 1
    ensures seed1 in left && seed2 in right && seed1 < seed2 < |keys|
    ensures forall a, b :: 0 <= a < b < |keys| - 1 ==> Waste(keys[a], keys[b]) <= Waste(keys[seed1], keys[seed2])
    ensures HalfCovers(l, keys, left) && HalfCovers(r, keys, right)
  {
    seed1, seed2 := Seeds(keys);
    var l0 := Union(keys[seed1], keys[seed1]);
    var r0 := Union(keys[seed2], keys[seed2]);
    left, right, l, r := SplitLoop(keys, seed1, seed2, l0, r0);
    forall x: nat | x < |keys| ensures multiset(left)[x] + multiset(right)[x] == 1 {
      DealtOnce(left, right, |keys|, x);
    }
  }
}
