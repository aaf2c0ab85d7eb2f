/** The similarity and distance functions of the vector engine (vector_storage.c), over reals. The square root is a
    parameter. */
module VectorMetrics {

  type Vector = seq<real>

  function Square(x: real): (r: real)
    ensures r >= 0.0
  {
    x * x
  }

  function Abs(x: real): real {
    if x < 0.0 then -x else x
  }

  function Dot(a: Vector, b: Vector, n: nat): real
    requires n <= |a| && n <= |b|
  {
    if n == 0 then 0.0 else Dot(a, b, n - 1) + a[n - 1] * b[n - 1]
  }

  function SquaredDistance(a: Vector, b: Vector, n: nat): real
    requires n <= |a| && n <= |b|
  {
    if n == 0 then 0.0 else SquaredDistance(a, b, n - 1) + Square(a[n - 1] - b[n - 1])
  }

  function Manhattan(a: Vector, b: Vector, n: nat): real
    requires n <= |a| && n <= |b|
  {
    if n == 0 then 0.0 else Manhattan(a, b, n - 1) + Abs(a[n - 1] - b[n - 1])
  }

  // ---------- the inequality of Cauchy and Schwarz ----------

  /** The squared length of s*a - t*b, multiplied out, from the three products of a and b. */
  function Spread(aa: real, ab: real, bb: real, s: real, t: real): real {
    Square(s) * aa - 2.0 * (s * t) * ab + Square(t) * bb
  }

  lemma Distribute(k: real, u: real, v: real)
    ensures k * (u + v) == k * u + k * v
  {
  }

  lemma SpreadAdds(aa: real, ab: real, bb: real, s: real, t: real, x: real, y: real)
    ensures Spread(aa + x * x, ab + x * y, bb + y * y, s, t) == Spread(aa, ab, bb, s, t) + Square(s * x - t * y)
  {
    Distribute(Square(s), aa, x * x);
    Distribute(2.0 * (s * t), ab, x * y);
    Distribute(Square(t), bb, y * y);
    SpreadOfOne(s, t, x, y);
  }

  lemma SpreadOfOne(s: real, t: real, x: real, y: real)
    ensures Square(s) * (x * x) - 2.0 * (s * t) * (x * y) + Square(t) * (y * y) == Square(s * x - t * y)
  {
  }

  lemma {:induction false} SpreadIsNonNegative(a: Vector, b: Vector, n: nat, s: real, t: real)
    requires n <= |a| && n <= |b|
    ensures Spread(Dot(a, a, n), Dot(a, b, n), Dot(b, b, n), s, t) >= 0.0
  {
    if n > 0 {
      SpreadIsNonNegative(a, b, n - 1, s, t);
      SpreadAdds(Dot(a, a, n - 1), Dot(a, b, n - 1), Dot(b, b, n - 1), s, t, a[n - 1], b[n - 1]);
    }
  }

  /** What follows from the spread being non-negative for four choices of s and t. */
  lemma Discriminant(aa: real, ab: real, bb: real)
    requires aa >= 0.0 && bb >= 0.0
    requires Spread(aa, ab, bb, bb, ab) >= 0.0 && Spread(aa, ab, bb, ab, aa) >= 0.0
    requires Spread(aa, ab, bb, 1.0, 1.0) >= 0.0 && Spread(aa, ab, bb, 1.0, -1.0) >= 0.0
    ensures Schwarz(ab, aa, bb)
  {
    if bb > 0.0 {
      SpreadFactors(aa, ab, bb);
      PositiveFactor(bb, aa * bb - Square(ab));
    } else if aa > 0.0 {
      SpreadFactorsToo(aa, ab, bb);
      PositiveFactor(aa, aa * bb - Square(ab));
    } else {
      SpreadOfUnits(aa, ab, bb);
      assert ab == 0.0 && Square(ab) == 0.0;
    }
  }

  lemma SpreadOfUnits(aa: real, ab: real, bb: real)
    ensures Spread(aa, ab, bb, 1.0, 1.0) == aa - 2.0 * ab + bb && Spread(aa, ab, bb, 1.0, -1.0) == aa + 2.0 * ab + bb
  {
  }

  lemma SpreadFactors(aa: real, ab: real, bb: real)
    ensures Spread(aa, ab, bb, bb, ab) == bb * (aa * bb - Square(ab))
  {
  }

  lemma SpreadFactorsToo(aa: real, ab: real, bb: real)
    ensures Spread(aa, ab, bb, ab, aa) == aa * (aa * bb - Square(ab))
  {
  }

  lemma PositiveFactor(k: real, x: real)
    requires k > 0.0 && k * x >= 0.0
    ensures x >= 0.0
  {
  }

  lemma {:induction false} DotIsNonNegative(a: Vector, n: nat)
    requires n <= |a|
    ensures Dot(a, a, n) >= 0.0
  {
    if n > 0 {
      DotIsNonNegative(a, n - 1);
      assert a[n - 1] * a[n - 1] == Square(a[n - 1]);
    }
  }

  /** The square of a product of two vectors is at most the product of their squared lengths. */
  predicate Schwarz(ab: real, aa: real, bb: real) {
    Square(ab) <= aa * bb
  }

  lemma CauchySchwarz(a: Vector, b: Vector, n: nat)
    requires n <= |a| && n <= |b|
    ensures Schwarz(Dot(a, b, n), Dot(a, a, n), Dot(b, b, n))
  {
    var aa, ab, bb := Dot(a, a, n), Dot(a, b, n), Dot(b, b, n);
    DotIsNonNegative(a, n);
    DotIsNonNegative(b, n);
    SpreadIsNonNegative(a, b, n, bb, ab);
    SpreadIsNonNegative(a, b, n, ab, aa);
    SpreadIsNonNegative(a, b, n, 1.0, 1.0);
    SpreadIsNonNegative(a, b, n, 1.0, -1.0);
    Discriminant(aa, ab, bb);
  }

  // ---------- roots ----------

  ghost predicate IsRoot(root: real -> real) {
    forall x: real :: x >= 0.0 ==> root(x) >= 0.0 && Square(root(x)) == x
  }

  lemma ProductIsPositive(x: real, y: real)
    requires x > 0.0 && y > 0.0
    ensures x * y > 0.0
  {
  }

  lemma ProductGrows(k: real, u: real, v: real)
    requires k >= 0.0 && u <= v
    ensures k * u <= k * v && (k > 0.0 && u < v ==> k * u < k * v)
  {
  }

  lemma SquareGrows(x: real, y: real)
    requires 0.0 <= y < x
    ensures Square(y) < Square(x)
  {
    ProductGrows(y, y, x);
    ProductGrows(x, y, x);
    calc {
      Square(y);
      y * y;
    <= y * x;
      x * y;
    < x * x;
      Square(x);
    }
  }

  /** A number whose square is at most that of y lies between -y and y. */
  lemma SquareOrder(x: real, y: real)
    requires y >= 0.0 && Square(x) <= Square(y)
    ensures -y <= x <= y
  {
    assert Square(-x) == Square(x);
    if x > y {
      SquareGrows(x, y);
    }
    if x < -y {
      SquareGrows(-x, y);
    }
  }

  lemma ProductOfSquares(x: real, y: real)
    ensures Square(x * y) == Square(x) * Square(y)
  {
  }

  lemma RootIs(root: real -> real, x: real)
    requires IsRoot(root) && x >= 0.0
    ensures root(x) >= 0.0 && Square(root(x)) == x && (x > 0.0 ==> root(x) > 0.0)
  {
  }

  // ---------- cosine similarity ----------

  function Quotient(dot: real, r1: real, r2: real): real
    requires r1 > 0.0 && r2 > 0.0
  {
    ProductIsPositive(r1, r2);
    dot / (r1 * r2)
  }

  /** What the function returns from the three sums. */
  function Ratio(dot: real, norm1: real, norm2: real, root: real -> real): real
    requires norm1 >= 0.0 && norm2 >= 0.0 && IsRoot(root)
  {
    if norm1 == 0.0 || norm2 == 0.0 then 0.0
    else
      RootIs(root, norm1);
      RootIs(root, norm2);
      Quotient(dot, root(norm1), root(norm2))
  }

  lemma QuotientInUnit(d: real, r: real)
    requires r > 0.0 && -r <= d <= r
    ensures -1.0 <= d / r <= 1.0
  {
  }

  lemma BoundedByRoots(dot: real, norm1: real, norm2: real, r1: real, r2: real)
    requires r1 > 0.0 && r2 > 0.0 && Square(r1) == norm1 && Square(r2) == norm2 && Schwarz(dot, norm1, norm2)
    ensures -1.0 <= Quotient(dot, r1, r2) <= 1.0
  {
    ProductIsPositive(r1, r2);
    ProductOfSquares(r1, r2);
    SquareOrder(dot, r1 * r2);
    QuotientInUnit(dot, r1 * r2);
  }

  lemma RatioInUnit(dot: real, norm1: real, norm2: real, root: real -> real)
    requires norm1 >= 0.0 && norm2 >= 0.0 && IsRoot(root) && Schwarz(dot, norm1, norm2)
    ensures -1.0 <= Ratio(dot, norm1, norm2, root) <= 1.0
  {
    if norm1 != 0.0 && norm2 != 0.0 {
      RootIs(root, norm1);
      RootIs(root, norm2);
      BoundedByRoots(dot, norm1, norm2, root(norm1), root(norm2));
    }
  }

  function Cosine(a: Vector, b: Vector, root: real -> real): real
    requires |a| == |b| && IsRoot(root)
  {
    DotIsNonNegative(a, |a|);
    DotIsNonNegative(b, |a|);
    Ratio(Dot(a, b, |a|), Dot(a, a, |a|), Dot(b, b, |a|), root)
  }

  /** The similarity lies between -1 and 1 for every dimension. */
  lemma CosineInUnit(a: Vector, b: Vector, root: real -> real)
    requires |a| == |b| && IsRoot(root)
    ensures -1.0 <= Cosine(a, b, root) <= 1.0
  {
    DotIsNonNegative(a, |a|);
    DotIsNonNegative(b, |a|);
    CauchySchwarz(a, b, |a|);
    RatioInUnit(Dot(a, b, |a|), Dot(a, a, |a|), Dot(b, b, |a|), root);
  }

  method CosineSimilarity(vec1: array<real>, vec2: array<real>, root: real -> real) returns (r: real)
    requires vec1.Length == vec2.Length && IsRoot(root)
    ensures r == Cosine(vec1[..], vec2[..], root)
  {
    var dotProduct, norm1, norm2 := Sums(vec1, vec2);
    DotIsNonNegative(vec1[..], vec1.Length);
    DotIsNonNegative(vec2[..], vec1.Length);
    if norm1 == 0.0 || norm2 == 0.0 {
      return 0.0;
    }
    r := Ratio(dotProduct, norm1, norm2, root);
  }

  /** The loop of vector_cosine_similarity. */
  method Sums(vec1: array<real>, vec2: array<real>) returns (dotProduct: real, norm1: real, norm2: real)
    requires vec1.Length == vec2.Length
    ensures dotProduct == Dot(vec1[..], vec2[..], vec1.Length)
    ensures norm1 == Dot(vec1[..], vec1[..], vec1.Length) && norm2 == Dot(vec2[..], vec2[..], vec1.Length)
  {
    ghost var a, b := vec1[..], vec2[..];
    dotProduct, norm1, norm2 := 0.0, 0.0, 0.0;
    var i := 0;
    while i < vec1.Length
      invariant i <= vec1.Length
      invariant dotProduct == Dot(a, b, i) && norm1 == Dot(a, a, i) && norm2 == Dot(b, b, i)
    {
      dotProduct := dotProduct + vec1[i] * vec2[i];
      norm1 := norm1 + vec1[i] * vec1[i];
      norm2 := norm2 + vec2[i] * vec2[i];
      i := i + 1;
    }
  }

  // ---------- Euclidean distance ----------

  method EuclideanDistance(vec1: array<real>, vec2: array<real>, root: real -> real) returns (r: real)
    requires vec1.Length == vec2.Length && IsRoot(root)
    ensures r == root(SquaredDistance(vec1[..], vec2[..], vec1.Length))
  {
    ghost var a, b := vec1[..], vec2[..];
    var sum := 0.0;
    var i := 0;
    while i < vec1.Length
      invariant i <= vec1.Length && sum == SquaredDistance(a, b, i)
    {
      var diff := vec1[i] - vec2[i];
      sum := sum + Square(diff);
      i := i + 1;
    }
    r := root(sum);
  }

  function Minus(a: Vector, b: Vector): (c: Vector)
    requires |a| == |b|
    ensures |c| == |a| && forall i :: 0 <= i < |a| ==> c[i] == a[i] - b[i]
  {
    seq(|a|, i requires 0 <= i < |a| => a[i] - b[i])
  }

  lemma {:induction false} SquaredDistanceIsDot(a: Vector, b: Vector, n: nat)
    requires |a| == |b| && n <= |a|
    ensures SquaredDistance(a, b, n) == Dot(Minus(a, b), Minus(a, b), n)
  {
    if n > 0 {
      SquaredDistanceIsDot(a, b, n - 1);
    }
  }

  lemma SquareOfSum(x: real, y: real)
    ensures Square(x + y) == Square(x) + Square(y) + 2.0 * (x * y)
  {
  }

  /** The squared distances of the sides of a triangle differ by twice the product of two sides. */
  lemma {:induction false} SidesOfTriangle(a: Vector, b: Vector, c: Vector, n: nat)
    requires |a| == |b| == |c| && n <= |a|
    ensures SquaredDistance(a, c, n)
         == SquaredDistance(a, b, n) + SquaredDistance(b, c, n) + 2.0 * Dot(Minus(a, b), Minus(b, c), n)
  {
    if n > 0 {
      SidesOfTriangle(a, b, c, n - 1);
      var x, y := a[n - 1] - b[n - 1], b[n - 1] - c[n - 1];
      SquareOfSum(x, y);
      assert a[n - 1] - c[n - 1] == x + y;
    }
  }

  lemma TriangleByRoots(ac: real, ab: real, bc: real, dot: real, p: real, q: real, r: real)
    requires p >= 0.0 && q >= 0.0 && r >= 0.0 && Square(p) == ab && Square(q) == bc && Square(r) == ac
    requires ac == ab + bc + 2.0 * dot && Schwarz(dot, ab, bc)
    ensures r <= p + q
  {
    ProductOfSquares(p, q);
    ProductGrows(p, 0.0, q);
    SquareOrder(dot, p * q);
    SquareOfSum(p, q);
    SquareOrder(r, p + q);
  }

  lemma {:induction false} SquaredDistanceIsNonNegative(a: Vector, b: Vector, n: nat)
    requires n <= |a| && n <= |b|
    ensures SquaredDistance(a, b, n) >= 0.0
  {
    if n > 0 {
      SquaredDistanceIsNonNegative(a, b, n - 1);
    }
  }

  /** The product of two sides is bounded by their lengths. */
  lemma SidesBounded(a: Vector, b: Vector, c: Vector)
    requires |a| == |b| == |c|
    ensures var n := |a|;
            Schwarz(Dot(Minus(a, b), Minus(b, c), n), SquaredDistance(a, b, n), SquaredDistance(b, c, n))
  {
    SquaredDistanceIsDot(a, b, |a|);
    SquaredDistanceIsDot(b, c, |a|);
    CauchySchwarz(Minus(a, b), Minus(b, c), |a|);
  }

  /** The triangle inequality of the Euclidean distance. */
  lemma EuclideanTriangle(a: Vector, b: Vector, c: Vector, root: real -> real)
    requires |a| == |b| == |c| && IsRoot(root)
    ensures var n := |a|;
            root(SquaredDistance(a, c, n)) <= root(SquaredDistance(a, b, n)) + root(SquaredDistance(b, c, n))
  {
    var n := |a|;
    var ac, ab, bc := SquaredDistance(a, c, n), SquaredDistance(a, b, n), SquaredDistance(b, c, n);
    var dot := Dot(Minus(a, b), Minus(b, c), n);
    SidesOfTriangle(a, b, c, n);
    SidesBounded(a, b, c);
    SquaredDistanceIsNonNegative(a, c, n);
    SquaredDistanceIsNonNegative(a, b, n);
    SquaredDistanceIsNonNegative(b, c, n);
    RootIs(root, ac);
    RootIs(root, ab);
    RootIs(root, bc);
    TriangleByRoots(ac, ab, bc, dot, root(ab), root(bc), root(ac));
  }

  // ---------- Manhattan distance ----------

  method ManhattanDistance(vec1: array<real>, vec2: array<real>) returns (sum: real)
    requires vec1.Length == vec2.Length
    ensures sum == Manhattan(vec1[..], vec2[..], vec1.Length)
  {
    ghost var a, b := vec1[..], vec2[..];
    sum := 0.0;
    var i := 0;
    while i < vec1.Length
      invariant i <= vec1.Length && sum == Manhattan(a, b, i)
    {
      sum := sum + Abs(vec1[i] - vec2[i]);
      i := i + 1;
    }
  }

  /** The triangle inequality of the Manhattan distance. */
  lemma {:induction false} ManhattanTriangle(a: Vector, b: Vector, c: Vector, n: nat)
    requires n <= |a| && n <= |b| && n <= |c|
    ensures Manhattan(a, c, n) <= Manhattan(a, b, n) + Manhattan(b, c, n)
  {
    if n > 0 {
      ManhattanTriangle(a, b, c, n - 1);
    }
  }

  /** Both distances are zero exactly between equal vectors, and do not depend on the order of their arguments. */
  lemma {:induction false} DistancesAreMetrics(a: Vector, b: Vector, n: nat)
    requires n <= |a| && n <= |b|
    ensures Manhattan(a, b, n) == Manhattan(b, a, n) >= 0.0
            && SquaredDistance(a, b, n) == SquaredDistance(b, a, n) >= 0.0
    ensures Manhattan(a, b, n) == 0.0 <==> a[..n] == b[..n]
    ensures SquaredDistance(a, b, n) == 0.0 <==> a[..n] == b[..n]
  {
    if n > 0 {
      DistancesAreMetrics(a, b, n - 1);
      var x, y := a[n - 1], b[n - 1];
      SquareOfDifference(x, y);
      assert a[..n] == a[..n - 1] + [x] && b[..n] == b[..n - 1] + [y];
      if a[..n] == b[..n] {
        assert a[..n][n - 1] == b[..n][n - 1] && a[..n][..n - 1] == b[..n][..n - 1];
        assert a[..n - 1] == a[..n][..n - 1] && b[..n - 1] == b[..n][..n - 1];
      }
    }
  }

  lemma SquareOfDifference(x: real, y: real)
    ensures Square(x - y) == Square(y - x) && (Square(x - y) == 0.0 <==> x == y)
  {
    if x != y {
      SquareGrows(Abs(x - y), 0.0);
    }
  }
}
