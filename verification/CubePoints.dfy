/** Boxes as sets of points: what the tests, distances and bounds of the index mean. */
module CubePoints {
  import opened Wrappers
  import opened Cube

  /** Coordinates that are not given are zero. */
  type Point = seq<real>

  function Coord(p: Point, i: nat): real { if i < |p| then p[i] else 0.0 }

  /** In dimension `i`, `x` lies between the corners of `b`, whichever of them is the lower. */
  predicate Between(b: Box, i: nat, x: real)
    requires b.Valid()
  {
    if i < b.Dim() then b.ll[i] <= x <= b.ur[i] || b.ur[i] <= x <= b.ll[i] else x == 0.0
  }

  ghost predicate Inside(b: Box, p: Point)
    requires b.Valid()
  {
    forall i: nat :: Between(b, i, Coord(p, i))
  }

  lemma BetweenIff(b: Box, i: nat, x: real)
    requires b.Valid()
    ensures Between(b, i, x) <==> b.Low(i) <= x <= b.High(i)
    ensures b.Low(i) <= b.High(i)
  {
  }

  /** The two extreme points of a box. */
  function Lows(b: Box): Point
    requires b.Valid()
  {
    seq(b.Dim(), i requires 0 <= i && b.Valid() => b.Low(i))
  }

  function Highs(b: Box): Point
    requires b.Valid()
  {
    seq(b.Dim(), i requires 0 <= i && b.Valid() => b.High(i))
  }

  lemma Extremes(b: Box)
    requires b.Valid()
    ensures Inside(b, Lows(b)) && Inside(b, Highs(b))
    ensures forall i: nat :: Coord(Lows(b), i) == b.Low(i) && Coord(Highs(b), i) == b.High(i)
  {
  }

  // ----- tests -----

  /** Two boxes overlap exactly if they have a point in common. */
  lemma MeetsExact(a: Box, b: Box)
    requires a.Valid() && b.Valid()
    ensures Meets(a, b) <==> exists p :: Inside(a, p) && Inside(b, p)
  {
    if Meets(a, b) {
      var p: Point := seq(MaxDim(a, b), i requires 0 <= i => Max(a.Low(i), b.Low(i)));
      forall i: nat ensures Between(a, i, Coord(p, i)) && Between(b, i, Coord(p, i)) {
        BetweenIff(a, i, Coord(p, i));
        BetweenIff(b, i, Coord(p, i));
      }
      assert Inside(a, p) && Inside(b, p);
    } else {
      forall p | Inside(a, p) ensures !Inside(b, p) {
        var i: nat :| i < MaxDim(a, b) && !(a.Low(i) <= b.High(i) && b.Low(i) <= a.High(i));
        assert Between(a, i, Coord(p, i));
        BetweenIff(a, i, Coord(p, i));
        BetweenIff(b, i, Coord(p, i));
      }
    }
  }

  /** A box contains another exactly if it does so with every point, in the dimensions of the other. */
  lemma EnclosesExact(a: Box, b: Box)
    requires a.Valid() && b.Valid()
    ensures Encloses(a, b) <==>
      forall p, i: nat :: Inside(b, p) && i < b.Dim() ==> Between(a, i, Coord(p, i))
  {
    if Encloses(a, b) {
      forall p, i: nat | Inside(b, p) && i < b.Dim() ensures Between(a, i, Coord(p, i)) {
        assert Between(b, i, Coord(p, i));
        BetweenIff(a, i, Coord(p, i));
        BetweenIff(b, i, Coord(p, i));
      }
    }
    if forall p, i: nat :: Inside(b, p) && i < b.Dim() ==> Between(a, i, Coord(p, i)) {
      Extremes(b);
      forall i: nat | i < b.Dim() ensures a.Low(i) <= b.Low(i) && b.High(i) <= a.High(i) {
        assert Between(a, i, Coord(Lows(b), i)) && Between(a, i, Coord(Highs(b), i));
        BetweenIff(a, i, b.Low(i));
        BetweenIff(a, i, b.High(i));
      }
    }
  }

  // ----- distances -----

  function Abs(x: real): real { if x < 0.0 then -x else x }

  /** No two points of the boxes are nearer to each other in dimension `i` than the gap. */
  lemma GapIsLeast(a: Box, b: Box, p: Point, q: Point, i: nat)
    requires a.Valid() && b.Valid() && Inside(a, p) && Inside(b, q)
    ensures Gap(a, b, i) <= Abs(Coord(p, i) - Coord(q, i))
  {
    assert Between(a, i, Coord(p, i)) && Between(b, i, Coord(q, i));
    BetweenIff(a, i, Coord(p, i));
    BetweenIff(b, i, Coord(q, i));
  }

  /** The coordinate of a point of `a` that is nearest to `b`. */
  function NearLow(a: Box, b: Box, i: nat): real
    requires a.Valid() && b.Valid()
  {
    if a.High(i) <= b.Low(i) then a.High(i) else Max(a.Low(i), b.Low(i))
  }

  function NearHigh(a: Box, b: Box, i: nat): real
    requires a.Valid() && b.Valid()
  {
    if b.High(i) < a.Low(i) then b.High(i) else Max(a.Low(i), b.Low(i))
  }

  /** Some two points are as near as the gaps in all dimensions at once. */
  lemma NearestPoints(a: Box, b: Box) returns (p: Point, q: Point)
    requires a.Valid() && b.Valid()
    ensures Inside(a, p) && Inside(b, q) && AsNear(a, b, p, q)
  {
    p := seq(MaxDim(a, b), i requires 0 <= i => NearLow(a, b, i));
    q := seq(MaxDim(a, b), i requires 0 <= i => NearHigh(a, b, i));
    forall i: nat
      ensures Between(a, i, Coord(p, i)) && Between(b, i, Coord(q, i))
      ensures Gap(a, b, i) == Abs(Coord(p, i) - Coord(q, i))
    {
      BetweenIff(a, i, Coord(p, i));
      BetweenIff(b, i, Coord(q, i));
    }
  }

  // ----- ordering by a coordinate -----

  /** A leaf answers for coordinate 2i+1 with the least, and for 2i+2 with the greatest coordinate `i` of its
      points, with zero for dimensions it lacks. */
  lemma CoordLeaf(b: Box, i: nat) returns (low: Point, high: Point)
    requires b.Valid()
    ensures Inside(b, low) && CoordDistance(b, 2 * i + 1, true) == Some(Coord(low, i))
    ensures Inside(b, high) && CoordDistance(b, 2 * i + 2, true) == Some(Coord(high, i))
    ensures forall p :: Inside(b, p) ==> Coord(low, i) <= Coord(p, i) <= Coord(high, i)
    ensures i >= b.Dim() ==> Coord(low, i) == 0.0 == Coord(high, i)
  {
    CoordIs(b, i);
    Extremes(b);
    low, high := Lows(b), Highs(b);
    forall p | Inside(b, p) ensures Coord(low, i) <= Coord(p, i) <= Coord(high, i) {
      assert Between(b, i, Coord(p, i));
      BetweenIff(b, i, Coord(p, i));
    }
  }

  lemma CoordIs(b: Box, i: nat)
    requires b.Valid()
    ensures CoordValue(b, 2 * i + 1, true) == b.Low(i) && CoordValue(b, 2 * i + 2, true) == b.High(i)
  {
    assert (2 * i + 1 - 1) / 2 == i && (2 * i + 1 - 1) % 2 == 0;
    assert (2 * i + 2 - 1) / 2 == i && (2 * i + 2 - 1) % 2 == 1;
  }

  /** It answers for a negative coordinate with the opposite. */
  lemma CoordInverse(b: Box, coord: int)
    requires b.Valid() && coord > 0
    ensures CoordDistance(b, -coord, true) == Some(-CoordDistance(b, coord, true).value)
  {
  }

  /** The answer of an internal key is that of some leaf it may cover. */
  lemma CoordInner(k: Box, coord: int)
    requires k.Valid() && coord != 0
    ensures exists l: Box ::
      l.Valid() && Covers(k, l) && CoordDistance(l, coord, true) == CoordDistance(k, coord, false)
  {
    Extremes(k);
    var p := if coord > 0 then Lows(k) else Highs(k);
    var l := Box(p, p);
    forall i: nat ensures l.Low(i) == Coord(p, i) == l.High(i) && k.Low(i) <= l.Low(i) && l.High(i) <= k.High(i) {
      BetweenIff(k, i, Coord(p, i));
    }
    assert Covers(k, l);
  }

  // ----- distances between points -----

  /** How far apart two points are in their first `n` coordinates. */
  function Apart(p: Point, q: Point, n: nat): seq<real> { seq(n, i requires 0 <= i => Abs(Coord(p, i) - Coord(q, i))) }

  function PointSum(p: Point, q: Point, n: nat): real
  {
    if n == 0 then 0.0 else PointSum(p, q, n - 1) + Abs(Coord(p, n - 1) - Coord(q, n - 1))
  }

  /** `most` bounds the difference of `p` and `q` in the first `n` coordinates. */
  ghost predicate Closer(p: Point, q: Point, n: nat, most: real)
  {
    forall i: nat :: i < n ==> Abs(Coord(p, i) - Coord(q, i)) <= most
  }

  lemma {:induction false} LargestBounds(a: Box, b: Box, n: nat)
    requires a.Valid() && b.Valid()
    ensures forall i: nat :: i < n ==> Gap(a, b, i) <= Largest(a, b, n)
    ensures Largest(a, b, n) == 0.0 || exists i: nat :: i < n && Gap(a, b, i) == Largest(a, b, n)
  {
    if n > 0 {
      LargestBounds(a, b, n - 1);
      assert Gap(a, b, n - 1) <= Largest(a, b, n);
    }
  }

  lemma GapSign(a: Box, b: Box, i: nat)
    requires a.Valid() && b.Valid()
    ensures 0.0 <= Gap(a, b, i)
  {
  }

  /** No two points of the boxes are nearer to each other than the boxes, by any of the three distances. */
  lemma {:induction false} SumLeast(a: Box, b: Box, p: Point, q: Point, n: nat)
    requires a.Valid() && b.Valid() && Inside(a, p) && Inside(b, q)
    ensures Sum(a, b, n) <= PointSum(p, q, n)
  {
    if n > 0 {
      SumLeast(a, b, p, q, n - 1);
      GapIsLeast(a, b, p, q, n - 1);
    }
  }

  lemma SquaresLeast(a: Box, b: Box, p: Point, q: Point, n: nat)
    requires a.Valid() && b.Valid() && Inside(a, p) && Inside(b, q)
    ensures Squares(a, b, n) <= SquareSum(Apart(p, q, n))
  {
    var s, t := Gaps(a, b, n), Apart(p, q, n);
    forall i: nat | i < n ensures 0.0 <= s[i] <= t[i] {
      GapSign(a, b, i);
      GapIsLeast(a, b, p, q, i);
    }
    SquareSumBound(s, t);
  }

  lemma LargestLeast(a: Box, b: Box, p: Point, q: Point, n: nat, most: real)
    requires a.Valid() && b.Valid() && Inside(a, p) && Inside(b, q) && 0.0 <= most && Closer(p, q, n, most)
    ensures Largest(a, b, n) <= most
  {
    LargestBounds(a, b, n);
    forall i: nat | i < n ensures Gap(a, b, i) <= most {
      GapIsLeast(a, b, p, q, i);
    }
  }

  /** The differences between the points are the gaps between the boxes. */
  ghost predicate AsNear(a: Box, b: Box, p: Point, q: Point)
    requires a.Valid() && b.Valid()
  {
    forall i: nat :: Gap(a, b, i) == Abs(Coord(p, i) - Coord(q, i))
  }

  lemma {:induction false} SumEqual(a: Box, b: Box, p: Point, q: Point, n: nat)
    requires a.Valid() && b.Valid() && AsNear(a, b, p, q)
    ensures Sum(a, b, n) == PointSum(p, q, n)
  {
    if n > 0 {
      SumEqual(a, b, p, q, n - 1);
      assert Gap(a, b, n - 1) == Abs(Coord(p, n - 1) - Coord(q, n - 1));
    }
  }

  /** Some two points are as near as the boxes, by all three distances at once. */
  lemma DistancesAttained(a: Box, b: Box, n: nat) returns (p: Point, q: Point)
    requires a.Valid() && b.Valid()
    ensures Inside(a, p) && Inside(b, q)
    ensures Sum(a, b, n) == PointSum(p, q, n) && Squares(a, b, n) == SquareSum(Apart(p, q, n))
    ensures Closer(p, q, n, Largest(a, b, n))
  {
    p, q := NearestPoints(a, b);
    SumEqual(a, b, p, q, n);
    assert Gaps(a, b, n) == Apart(p, q, n);
    LargestBounds(a, b, n);
  }

  // ----- volume -----

  /** The part of `b` between `x` and `y` in dimension `i`. */
  function Slab(b: Box, i: nat, x: real, y: real): Box
    requires b.Valid() && i < b.Dim()
  {
    Box(Lows(b)[i := x], Highs(b)[i := y])
  }

  function Side(b: Box, k: nat): real
    requires b.Valid()
  {
    b.High(k) - b.Low(k)
  }

  lemma SlabSides(b: Box, i: nat, x: real, y: real)
    requires b.Valid() && i < b.Dim() && x <= y
    ensures Slab(b, i, x, y).Valid() && Slab(b, i, x, y).Dim() == b.Dim()
    ensures forall k: nat :: k < b.Dim() ==> Side(Slab(b, i, x, y), k) == if k == i then y - x else Side(b, k)
  {
  }

  lemma Combine(l: real, r: real, w: real, x: real, y: real, z: real)
    requires (l == r == w && x + y == z) || (l + r == w && x == y == z)
    ensures l * x + r * y == w * z
  {
    if x == y == z {
      assert (l + r) * z == l * z + r * z;
    }
  }

  lemma ProductStep(b: Box, n: nat)
    requires b.Valid() && 0 < n <= b.Dim()
    ensures Product(b, n) == Product(b, n - 1) * Side(b, n - 1)
  {
  }

  lemma StepAdds(s: Box, t: Box, u: Box, m: nat, l: real, r: real, w: real, x: real, y: real, z: real)
    requires s.Valid() && t.Valid() && u.Valid() && m < s.Dim() && m < t.Dim() && m < u.Dim()
    requires Product(s, m) == l && Product(t, m) == r && Product(u, m) == w
    requires Side(s, m) == x && Side(t, m) == y && Side(u, m) == z
    requires (l == r == w && x + y == z) || (l + r == w && x == y == z)
    ensures Product(s, m + 1) + Product(t, m + 1) == Product(u, m + 1)
  {
    ProductStep(s, m + 1);
    ProductStep(t, m + 1);
    ProductStep(u, m + 1);
    Combine(l, r, w, x, y, z);
  }

  lemma {:induction false} SameProduct(s: Box, t: Box, n: nat)
    requires s.Valid() && t.Valid() && n <= s.Dim() && n <= t.Dim()
    requires forall k: nat :: k < n ==> Side(s, k) == Side(t, k)
    ensures Product(s, n) == Product(t, n)
  {
    if n > 0 {
      SameProduct(s, t, n - 1);
      ProductStep(s, n);
      ProductStep(t, n);
    }
  }

  /** Boxes that differ in one side only, where those of two make up that of the third. */
  lemma {:induction false} ProductsAdd(s: Box, t: Box, u: Box, i: nat, n: nat)
    requires s.Valid() && t.Valid() && u.Valid() && i < n <= s.Dim() && n <= t.Dim() && n <= u.Dim()
    requires forall k: nat :: k < n && k != i ==> Side(s, k) == Side(t, k) == Side(u, k)
    requires Side(s, i) + Side(t, i) == Side(u, i)
    ensures Product(s, n) + Product(t, n) == Product(u, n)
  {
    var m := n - 1;
    if i < m {
      ProductsAdd(s, t, u, i, m);
    } else {
      SameProduct(s, t, m);
      SameProduct(s, u, m);
    }
    StepAdds(s, t, u, m, Product(s, m), Product(t, m), Product(u, m), Side(s, m), Side(t, m), Side(u, m));
  }

  /** A cut across any dimension divides the volume between the parts. */
  lemma VolumeAdds(b: Box, i: nat, x: real, y: real, z: real)
    requires b.Valid() && i < b.Dim() && x <= y <= z
    ensures Slab(b, i, x, y).Valid() && Slab(b, i, y, z).Valid() && Slab(b, i, x, z).Valid()
    ensures Volume(Slab(b, i, x, y)) + Volume(Slab(b, i, y, z)) == Volume(Slab(b, i, x, z))
  {
    SlabSides(b, i, x, y);
    SlabSides(b, i, y, z);
    SlabSides(b, i, x, z);
    ProductsAdd(Slab(b, i, x, y), Slab(b, i, y, z), Slab(b, i, x, z), i, b.Dim());
  }

  /** The box from the origin to the point with `n` coordinates 1. */
  function UnitBox(n: nat): Box { Box(seq(n, i => 0.0), seq(n, i => 1.0)) }

  lemma {:induction false} UnitProduct(m: nat, n: nat)
    requires n <= m
    ensures Product(UnitBox(m), n) == 1.0
  {
    if n > 0 {
      UnitProduct(m, n - 1);
    }
  }

  /** The unit box has volume 1, unless it has no dimension. */
  lemma UnitVolume(n: nat)
    ensures Volume(UnitBox(n)) == if n == 0 then 0.0 else 1.0
  {
    UnitProduct(n, n);
  }
}
