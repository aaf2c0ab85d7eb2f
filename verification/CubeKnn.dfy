/** Ordering scans over cubes (the distance functions and g_cube_distance in cube.c): the value computed for an inner
    key never exceeds the value of an entry below it. The Euclidean distance is the square root of the sum used here,
    and roots keep order. */
module CubeKnn {
  import opened Cube

  /** distance_1D */
  function Distance1D(a1: real, a2: real, b1: real, b2: real): real {
    if a1 <= b1 && a2 <= b1 && a1 <= b2 && a2 <= b2 then Min(b1, b2) - Max(a1, a2)
    else if a1 > b1 && a2 > b1 && a1 > b2 && a2 > b2 then Min(a1, a2) - Max(b1, b2)
    else 0.0
  }

  /** How far apart two intervals are. */
  function Gap(lo1: real, hi1: real, lo2: real, hi2: real): (d: real)
    ensures d >= 0.0
  {
    if hi1 < lo2 then lo2 - hi1 else if hi2 < lo1 then lo1 - hi2 else 0.0
  }

  lemma Distance1DIsGap(a1: real, a2: real, b1: real, b2: real)
    ensures Distance1D(a1, a2, b1, b2) == Gap(Min(a1, a2), Max(a1, a2), Min(b1, b2), Max(b1, b2))
  {
  }

  /** The distance along axis i, missing dimensions counting as zero. */
  function AxisGap(a: Box, b: Box, i: nat): (d: real)
    requires a.Valid() && b.Valid()
    ensures d >= 0.0
  {
    Gap(Lo(a, i), Hi(a, i), Lo(b, i), Hi(b, i))
  }

  lemma AxisGapEitherWay(a: Box, b: Box, i: nat)
    requires a.Valid() && b.Valid()
    ensures AxisGap(a, b, i) == AxisGap(b, a, i)
  {
    LoUpToHi(a, i);
    LoUpToHi(b, i);
  }

  datatype Metric = Taxicab | Euclid | Chebyshev

  /** What one axis adds: its distance, its square, or the maximum so far. */
  function Add(m: Metric, sum: real, d: real): real {
    match m
    case Taxicab => sum + d
    case Euclid => sum + d * d
    case Chebyshev => if d > sum then d else sum
  }

  function Total(m: Metric, a: Box, b: Box, n: nat): (r: real)
    requires a.Valid() && b.Valid()
    ensures r >= 0.0
  {
    if n == 0 then 0.0 else Add(m, Total(m, a, b, n - 1), AxisGap(a, b, n - 1))
  }

  function Abs(d: real): real {
    if d < 0.0 then -d else d
  }

  lemma {:induction false} TotalEitherWay(m: Metric, a: Box, b: Box, n: nat)
    requires a.Valid() && b.Valid()
    ensures Total(m, a, b, n) == Total(m, b, a, n)
  {
    if n > 0 {
      TotalEitherWay(m, a, b, n - 1);
      AxisGapEitherWay(a, b, n - 1);
    }
  }

  /** The loop bodies: the distance along an axis of a, which has no fewer dimensions than b. */
  function AxisDistance(a: Box, b: Box, i: nat): real
    requires a.Valid() && b.Valid() && i < a.dim
  {
    if i < b.dim then Abs(Distance1D(LL(a, i), UR(a, i), LL(b, i), UR(b, i)))
    else Abs(Distance1D(LL(a, i), UR(a, i), 0.0, 0.0))
  }

  lemma AxisDistanceIsGap(a: Box, b: Box, i: nat)
    requires a.Valid() && b.Valid() && i < a.dim
    ensures AxisDistance(a, b, i) == AxisGap(a, b, i)
  {
    if i < b.dim {
      Distance1DIsGap(LL(a, i), UR(a, i), LL(b, i), UR(b, i));
    } else {
      Distance1DIsGap(LL(a, i), UR(a, i), 0.0, 0.0);
    }
  }

  lemma TotalNext(m: Metric, a: Box, b: Box, i: nat)
    requires a.Valid() && b.Valid() && i < a.dim
    ensures Total(m, a, b, i + 1) == Add(m, Total(m, a, b, i), AxisDistance(a, b, i))
  {
    AxisDistanceIsGap(a, b, i);
  }

  /** distance_taxicab, distance_chebyshev, and cube_distance without its final root. */
  method Distance(m: Metric, a0: Box, b0: Box) returns (distance: real)
    requires a0.Valid() && b0.Valid()
    ensures distance == Total(m, a0, b0, Dimensions(a0, b0))
  {
    var a, b := a0, b0;
    if a.dim < b.dim {
      a, b := b, a;
    }
    distance := 0.0;
    var i := 0;
    while i < b.dim
      invariant i <= b.dim && distance == Total(m, a, b, i)
    {
      TotalNext(m, a, b, i);
      distance := Add(m, distance, AxisDistance(a, b, i));
      i := i + 1;
    }
    while i < a.dim
      invariant b.dim <= i <= a.dim && distance == Total(m, a, b, i)
    {
      TotalNext(m, a, b, i);
      distance := Add(m, distance, AxisDistance(a, b, i));
      i := i + 1;
    }
    TotalEitherWay(m, a, b, a.dim);
  }

  // ---------- a key is at least as near as what lies below it ----------

  lemma GapShrinks(key: Box, c: Box, query: Box, i: nat)
    requires key.Valid() && c.Valid() && query.Valid() && Covers(key, c)
    ensures AxisGap(key, query, i) <= AxisGap(c, query, i)
  {
    LoUpToHi(c, i);
    LoUpToHi(query, i);
    assert Lo(key, i) <= Lo(c, i) && Hi(c, i) <= Hi(key, i);
  }

  lemma SquareIsMonotone(d: real, e: real)
    requires 0.0 <= d <= e
    ensures d * d <= e * e
  {
    assert d * d <= d * e <= e * e;
  }

  lemma AddIsMonotone(m: Metric, s: real, t: real, d: real, e: real)
    requires s <= t && 0.0 <= d <= e
    ensures Add(m, s, d) <= Add(m, t, e)
  {
    SquareIsMonotone(d, e);
  }

  lemma {:induction false} TotalShrinks(m: Metric, key: Box, c: Box, query: Box, n: nat)
    requires key.Valid() && c.Valid() && query.Valid() && Covers(key, c)
    ensures Total(m, key, query, n) <= Total(m, c, query, n)
  {
    if n > 0 {
      TotalShrinks(m, key, c, query, n - 1);
      GapShrinks(key, c, query, n - 1);
      AddIsMonotone(m, Total(m, key, query, n - 1), Total(m, c, query, n - 1), AxisGap(key, query, n - 1),
                    AxisGap(c, query, n - 1));
    }
  }

  /** Axes beyond both boxes add nothing. */
  lemma {:induction false} FurtherAxesAddNothing(m: Metric, a: Box, b: Box, n: nat)
    requires a.Valid() && b.Valid() && n >= Dimensions(a, b)
    ensures Total(m, a, b, n) == Total(m, a, b, Dimensions(a, b))
    decreases n
  {
    if n > Dimensions(a, b) {
      FurtherAxesAddNothing(m, a, b, n - 1);
      assert AxisGap(a, b, n - 1) == 0.0;
    }
  }

  lemma KeyIsNearest(m: Metric, key: Box, c: Box, query: Box)
    requires key.Valid() && c.Valid() && query.Valid() && Covers(key, c)
    ensures Total(m, key, query, Dimensions(key, query)) <= Total(m, c, query, Dimensions(c, query))
  {
    TotalShrinks(m, key, c, query, Dimensions(key, query));
    FurtherAxesAddNothing(m, c, query, Dimensions(key, query));
  }

  // ---------- ordering by a coordinate ----------

  /** The ~> part of g_cube_distance; coordinate 0 is an error. */
  function Coordinate(cube: Box, coord0: int, isLeaf: bool): real
    requires cube.Valid() && coord0 != 0
  {
    var inverse := coord0 < 0;
    var coord := if inverse then -coord0 else coord0;
    var value :=
      if coord <= 2 * cube.dim then
        var index, upper := (coord - 1) / 2, (coord - 1) % 2 == 1;
        if cube.point then cube.x[index]
        else if isLeaf then
          (if upper then Max(cube.x[index], cube.x[index + cube.dim]) else Min(cube.x[index], cube.x[index + cube.dim]))
        else if !inverse then Min(cube.x[index], cube.x[index + cube.dim])
        else Max(cube.x[index], cube.x[index + cube.dim])
      else 0.0;
    if inverse then -value else value
  }

  /** What the coordinate of a leaf is: a bound, or zero beyond its dimensions; negated for a negative index. */
  lemma LeafCoordinate(c: Box, coord: int)
    requires c.Valid() && coord != 0
    ensures var axis := (if coord < 0 then -coord - 1 else coord - 1);
            var bound := if axis % 2 == 1 then Hi(c, axis / 2) else Lo(c, axis / 2);
            Coordinate(c, coord, true) == if coord < 0 then -bound else bound
  {
  }

  /** What the coordinate of an inner key is: its lower bound, or its upper one negated. */
  lemma KeyCoordinate(key: Box, coord: int)
    requires key.Valid() && coord != 0
    ensures var axis := (if coord < 0 then -coord - 1 else coord - 1) / 2;
            Coordinate(key, coord, false) == if coord < 0 then -Hi(key, axis) else Lo(key, axis)
  {
  }

  lemma KeyCoordinateIsLowest(key: Box, c: Box, coord: int, leaf: bool)
    requires key.Valid() && c.Valid() && coord != 0 && Covers(key, c)
    ensures Coordinate(key, coord, false) <= Coordinate(c, coord, leaf)
  {
    var i: nat := (if coord < 0 then -coord - 1 else coord - 1) / 2;
    assert Lo(key, i) <= Lo(c, i) && Hi(c, i) <= Hi(key, i);
    LoUpToHi(c, i);
    LeafCoordinate(c, coord);
    KeyCoordinate(c, coord);
    KeyCoordinate(key, coord);
  }
}
