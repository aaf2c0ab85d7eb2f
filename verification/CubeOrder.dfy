/** cube_cmp_v0, the order used for sorting cubes: common dimensions first, lower bounds before upper ones, then the
    dimensions only one cube has against zero. Across different dimensions it is not always an order. */
module CubeOrder {
  import opened Cube

  // ---------- first differences ----------

  function Sign(a: real, b: real): int {
    if a > b then 1 else if a < b then -1 else 0
  }

  /** The sign of the first difference. */
  function Lex(s: seq<real>, t: seq<real>): int {
    if s == [] || t == [] then 0 else if s[0] != t[0] then Sign(s[0], t[0]) else Lex(s[1..], t[1..])
  }

  lemma {:induction false} LexConcat(s: seq<real>, t: seq<real>, u: seq<real>, v: seq<real>)
    requires |s| == |t|
    ensures Lex(s + u, t + v) == if Lex(s, t) != 0 then Lex(s, t) else Lex(u, v)
  {
    if s == [] {
      assert s + u == u && t + v == v;
    } else {
      assert (s + u)[1..] == s[1..] + u && (t + v)[1..] == t[1..] + v;
      LexConcat(s[1..], t[1..], u, v);
    }
  }

  lemma {:induction false} LexFlips(s: seq<real>, t: seq<real>)
    ensures Lex(s, t) == -Lex(t, s) && -1 <= Lex(s, t) <= 1
  {
    if s != [] && t != [] && s[0] == t[0] {
      LexFlips(s[1..], t[1..]);
    }
  }

  lemma {:induction false} LexZero(s: seq<real>, t: seq<real>)
    requires |s| == |t|
    ensures Lex(s, t) == 0 <==> s == t
  {
    if s != [] {
      LexZero(s[1..], t[1..]);
      assert s == [s[0]] + s[1..] && t == [t[0]] + t[1..];
    }
  }

  lemma {:induction false} LexTransitive(s: seq<real>, t: seq<real>, u: seq<real>)
    requires |s| == |t| == |u| && Lex(s, t) <= 0 && Lex(t, u) <= 0
    ensures Lex(s, u) <= 0
  {
    if s != [] && s[0] == t[0] && t[0] == u[0] {
      LexTransitive(s[1..], t[1..], u[1..]);
    }
  }

  // ---------- cube_cmp_v0 ----------

  /** The lower, or the upper, bounds in the dimensions from `from` below `to`. */
  function Bounds(b: Box, upper: bool, from: nat, to: nat): (s: seq<real>)
    requires b.Valid() && from <= to
    ensures |s| == to - from && forall i :: 0 <= i < |s| ==>
              s[i] == (if upper then Hi(b, from + i) else Lo(b, from + i))
    decreases if from <= to then to - from else 0
  {
    if from == to then [] else [if upper then Hi(b, from) else Lo(b, from)] + Bounds(b, upper, from + 1, to)
  }

  /** What decides, in this order, for cubes with d common dimensions and n in all. */
  function Rank(b: Box, d: nat, n: nat): (s: seq<real>)
    requires b.Valid() && d <= n
    ensures |s| == 2 * n + 1
  {
    Bounds(b, false, 0, d)
    + (Bounds(b, true, 0, d) + (Bounds(b, false, d, n) + (Bounds(b, true, d, n) + [b.dim as real])))
  }

  function Fewer(a: Box, b: Box): nat {
    if a.dim < b.dim then a.dim else b.dim
  }

  function More(a: Box, b: Box): nat {
    if a.dim < b.dim then b.dim else a.dim
  }

  function Cmp(a: Box, b: Box): int
    requires a.Valid() && b.Valid()
  {
    Lex(Rank(a, Fewer(a, b), More(a, b)), Rank(b, Fewer(a, b), More(a, b)))
  }

  function Bound(b: Box, upper: bool, i: nat): real
    requires b.Valid()
  {
    if upper then Hi(b, i) else Lo(b, i)
  }

  /** One of the loops of cube_cmp_v0; a dimension that a cube has not counts as zero. */
  method CompareBounds(a: Box, b: Box, upper: bool, from: nat, to: nat) returns (r: int)
    requires a.Valid() && b.Valid() && from <= to
    ensures r == Lex(Bounds(a, upper, from, to), Bounds(b, upper, from, to))
  {
    var i := from;
    while i < to
      invariant from <= i <= to
      invariant Lex(Bounds(a, upper, from, to), Bounds(b, upper, from, to))
                == Lex(Bounds(a, upper, i, to), Bounds(b, upper, i, to))
    {
      if Bound(a, upper, i) > Bound(b, upper, i) {
        return 1;
      }
      if Bound(a, upper, i) < Bound(b, upper, i) {
        return -1;
      }
      i := i + 1;
    }
    r := 0;
  }

  method Compare(a: Box, b: Box) returns (r: int)
    requires a.Valid() && b.Valid()
    ensures r == Cmp(a, b)
  {
    var dim, dims := Fewer(a, b), More(a, b);
    CmpByParts(a, b, dim, dims);
    r := CompareBounds(a, b, false, 0, dim);
    if r != 0 {
      return;
    }
    r := CompareBounds(a, b, true, 0, dim);
    if r != 0 {
      return;
    }
    r := CompareBounds(a, b, false, dim, dims);
    if r != 0 {
      return;
    }
    r := CompareBounds(a, b, true, dim, dims);
    if r != 0 {
      return;
    }
    r := if a.dim > b.dim then 1 else if a.dim < b.dim then -1 else 0;
  }

  function FirstNonZero(x: int, y: int): int {
    if x != 0 then x else y
  }

  lemma CmpByParts(a: Box, b: Box, d: nat, n: nat)
    requires a.Valid() && b.Valid() && d <= n
    ensures Lex(Rank(a, d, n), Rank(b, d, n))
         == FirstNonZero(Lex(Bounds(a, false, 0, d), Bounds(b, false, 0, d)),
            FirstNonZero(Lex(Bounds(a, true, 0, d), Bounds(b, true, 0, d)),
            FirstNonZero(Lex(Bounds(a, false, d, n), Bounds(b, false, d, n)),
            FirstNonZero(Lex(Bounds(a, true, d, n), Bounds(b, true, d, n)), Sign(a.dim as real, b.dim as real)))))
  {
    var a4, b4 := [a.dim as real], [b.dim as real];
    var a3, b3 := Bounds(a, true, d, n) + a4, Bounds(b, true, d, n) + b4;
    var a2, b2 := Bounds(a, false, d, n) + a3, Bounds(b, false, d, n) + b3;
    var a1, b1 := Bounds(a, true, 0, d) + a2, Bounds(b, true, 0, d) + b2;
    LexConcat(Bounds(a, false, 0, d), Bounds(b, false, 0, d), a1, b1);
    LexConcat(Bounds(a, true, 0, d), Bounds(b, true, 0, d), a2, b2);
    LexConcat(Bounds(a, false, d, n), Bounds(b, false, d, n), a3, b3);
    LexConcat(Bounds(a, true, d, n), Bounds(b, true, d, n), a4, b4);
    assert a4[1..] == [] && b4[1..] == [];
  }

  // ---------- where it is an order ----------

  lemma CmpFlips(a: Box, b: Box)
    requires a.Valid() && b.Valid()
    ensures Cmp(a, b) == -Cmp(b, a)
  {
    LexFlips(Rank(a, Fewer(a, b), More(a, b)), Rank(b, Fewer(a, b), More(a, b)));
  }

  lemma BoundsEqual(a: Box, b: Box, upper: bool, n: nat)
    requires a.Valid() && b.Valid()
    ensures Bounds(a, upper, 0, n) == Bounds(b, upper, 0, n)
            <==> forall i: nat :: i < n ==> Bound(a, upper, i) == Bound(b, upper, i)
  {
    var s, t := Bounds(a, upper, 0, n), Bounds(b, upper, 0, n);
    if s == t {
      forall i: nat | i < n
        ensures Bound(a, upper, i) == Bound(b, upper, i)
      {
        assert s[i] == t[i];
      }
    }
    if forall i: nat :: i < n ==> Bound(a, upper, i) == Bound(b, upper, i) {
      forall i | 0 <= i < n
        ensures s[i] == t[i]
      {
        assert Bound(a, upper, i) == Bound(b, upper, i);
      }
    }
  }

  /** Cubes compare as equal exactly when they have the same dimension and the same bounds. */
  lemma CmpZeroIsSame(a: Box, b: Box)
    requires a.Valid() && b.Valid()
    ensures Cmp(a, b) == 0 <==> Same(a, b)
  {
    var d, n := Fewer(a, b), More(a, b);
    CmpByParts(a, b, d, n);
    LexZero(Bounds(a, false, 0, d), Bounds(b, false, 0, d));
    LexZero(Bounds(a, true, 0, d), Bounds(b, true, 0, d));
    BoundsEqual(a, b, false, d);
    BoundsEqual(a, b, true, d);
    if Same(a, b) {
      forall i: nat | i < d
        ensures Bound(a, false, i) == Bound(b, false, i) && Bound(a, true, i) == Bound(b, true, i)
      {
        assert Lo(a, i) == Lo(b, i);
      }
    }
    if Cmp(a, b) == 0 {
      forall i: nat | i < a.dim
        ensures Lo(a, i) == Lo(b, i) && Hi(a, i) == Hi(b, i)
      {
        assert Bound(a, false, i) == Bound(b, false, i) && Bound(a, true, i) == Bound(b, true, i);
      }
    }
  }

  /** Between cubes of dimension 0 and n only, the comparison is the one of all bounds, in order. */
  lemma CmpIsFlat(a: Box, b: Box, n: nat)
    requires a.Valid() && b.Valid() && (a.dim == 0 || a.dim == n) && (b.dim == 0 || b.dim == n)
    ensures Cmp(a, b) == Lex(Rank(a, n, n), Rank(b, n, n))
  {
    CmpByParts(a, b, Fewer(a, b), More(a, b));
    CmpByParts(a, b, n, n);
    if a.dim == 0 && b.dim == 0 {
      assert forall i: nat :: Bound(a, false, i) == Bound(b, false, i) && Bound(a, true, i) == Bound(b, true, i);
      BoundsEqual(a, b, false, n);
      BoundsEqual(a, b, true, n);
      LexZero(Bounds(a, false, 0, n), Bounds(b, false, 0, n));
      LexZero(Bounds(a, true, 0, n), Bounds(b, true, 0, n));
    }
  }

  lemma CmpTransitive(a: Box, b: Box, c: Box, n: nat)
    requires a.Valid() && b.Valid() && c.Valid()
    requires (a.dim == 0 || a.dim == n) && (b.dim == 0 || b.dim == n) && (c.dim == 0 || c.dim == n)
    requires Cmp(a, b) <= 0 && Cmp(b, c) <= 0
    ensures Cmp(a, c) <= 0
  {
    CmpIsFlat(a, b, n);
    CmpIsFlat(b, c, n);
    CmpIsFlat(a, c, n);
    LexTransitive(Rank(a, n, n), Rank(b, n, n), Rank(c, n, n));
  }

  // ---------- where it is not ----------

  /** A cube whose lower bounds are 0 but for `lo` in dimension k, and whose upper bounds equal them but for `hi` in
      dimension 0. */
  function Corner(n: nat, k: nat, lo: real, hi: real): (b: Box)
    requires n > 0
    ensures b.Valid()
  {
    Box(n, false,
        seq(2 * n, i => if i == k then lo else if i == n then hi else if i == n + k && k > 0 then lo else 0.0))
  }

  lemma CornerBounds(n: nat, k: nat, lo: real, hi: real, i: nat)
    requires n > 0 && 0 < k < n && hi > 0.0 && i < n
    ensures Lo(Corner(n, k, lo, hi), i) == (if i == k then lo else 0.0)
    ensures Hi(Corner(n, k, lo, hi), i) == (if i == 0 then hi else if i == k then lo else 0.0)
  {
  }

  function Stick(m: nat, hi: real): (b: Box)
    requires m > 0
    ensures b.Valid()
  {
    Box(m, false, seq(2 * m, i => if i == m then hi else 0.0))
  }

  lemma {:induction false} LexAt(s: seq<real>, t: seq<real>, k: nat)
    requires k < |s| && |s| == |t| && (forall i :: 0 <= i < k ==> s[i] == t[i]) && s[k] < t[k]
    ensures Lex(s, t) == -1
  {
    if k > 0 {
      LexAt(s[1..], t[1..], k - 1);
    }
  }

  /** Equal lower bounds, and a lower upper bound in dimension 0. */
  lemma FirstUpperDecides(a: Box, b: Box)
    requires a.Valid() && b.Valid() && a.dim > 0 && b.dim > 0 && Hi(a, 0) < Hi(b, 0)
    requires forall i: nat :: i < Fewer(a, b) ==> Bound(a, false, i) == Bound(b, false, i)
    ensures Cmp(a, b) == -1
  {
    var d := Fewer(a, b);
    CmpByParts(a, b, d, More(a, b));
    BoundsEqual(a, b, false, d);
    LexZero(Bounds(a, false, 0, d), Bounds(b, false, 0, d));
    LexAt(Bounds(a, true, 0, d), Bounds(b, true, 0, d), 0);
  }

  lemma StickBelowCorner(m: nat, n: nat, stick: real, lo: real, hi: real)
    requires 0 < m < n && 0.0 < stick && 0.0 < hi
    ensures stick < hi ==> Cmp(Stick(m, stick), Corner(n, m, lo, hi)) == -1
    ensures hi < stick ==> Cmp(Corner(n, m, lo, hi), Stick(m, stick)) == -1
  {
    var a, b := Stick(m, stick), Corner(n, m, lo, hi);
    forall i: nat | i < m
      ensures Bound(a, false, i) == Bound(b, false, i)
    {
      CornerBounds(n, m, lo, hi, i);
    }
    CornerBounds(n, m, lo, hi, 0);
    if stick < hi {
      FirstUpperDecides(a, b);
    }
    if hi < stick {
      FirstUpperDecides(b, a);
    }
  }

  lemma CornersByLower(n: nat, m: nat, lo: real, lo': real, hi: real, hi': real)
    requires 0 < m < n && lo < lo' && 0.0 < hi && 0.0 < hi'
    ensures Cmp(Corner(n, m, lo, hi), Corner(n, m, lo', hi')) == -1
  {
    var a, b := Corner(n, m, lo, hi), Corner(n, m, lo', hi');
    CmpByParts(a, b, n, n);
    var s, t := Bounds(a, false, 0, n), Bounds(b, false, 0, n);
    forall i | 0 <= i < n
      ensures s[i] == (if i == m then lo else 0.0) && t[i] == (if i == m then lo' else 0.0)
    {
      CornerBounds(n, m, lo, hi, i);
      CornerBounds(n, m, lo', hi', i);
    }
    LexAt(s, t, m);
  }

  /** For any two different dimensions but 0, three cubes go round in a circle. */
  lemma CmpCircle(m: nat, n: nat)
    requires 0 < m < n
    ensures var a, b, c := Corner(n, m, 2.0, 3.0), Stick(m, 4.0), Corner(n, m, 1.0, 5.0);
            Cmp(a, b) < 0 && Cmp(b, c) < 0 && Cmp(c, a) < 0
  {
    StickBelowCorner(m, n, 4.0, 2.0, 3.0);
    StickBelowCorner(m, n, 4.0, 1.0, 5.0);
    CornersByLower(n, m, 1.0, 2.0, 5.0, 3.0);
  }

  ghost predicate Has(b: Box, m: nat, n: nat) {
    b.Valid() && (b.dim == m || b.dim == n)
  }

  ghost predicate TransitiveOn(m: nat, n: nat) {
    forall a: Box, b: Box, c: Box ::
      Has(a, m, n) && Has(b, m, n) && Has(c, m, n) && Cmp(a, b) <= 0 && Cmp(b, c) <= 0 ==> Cmp(a, c) <= 0
  }

  /** The comparison is transitive among cubes of two dimensions exactly when these are the same or one is 0. */
  lemma TransitiveExactly(m: nat, n: nat)
    requires m <= n
    ensures TransitiveOn(m, n) <==> m == 0 || m == n
  {
    if m == 0 || m == n {
      forall a: Box, b: Box, c: Box | Has(a, m, n) && Has(b, m, n) && Has(c, m, n) && Cmp(a, b) <= 0 && Cmp(b, c) <= 0
        ensures Cmp(a, c) <= 0
      {
        CmpTransitive(a, b, c, n);
      }
    } else {
      CmpCircle(m, n);
      var a, b, c := Corner(n, m, 2.0, 3.0), Stick(m, 4.0), Corner(n, m, 1.0, 5.0);
      CmpFlips(a, c);
      assert Cmp(a, c) > 0;
    }
  }
}
