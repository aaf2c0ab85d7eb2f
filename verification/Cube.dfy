/** n-dimensional boxes of mixed dimension (cubedata.h, cube.c), and the two GiST tests that must agree: a leaf that
    satisfies the query must not lie below an inner key that fails the inner test. Coordinates are reals. */
module Cube {

  /** NDBOX: the lower left corner, then the upper right one unless the box is a point. The corners need not be in
      order. */
  datatype Box = Box(dim: nat, point: bool, x: seq<real>) {
    ghost predicate Valid() {
      |x| == if point then dim else 2 * dim
    }
  }

  function LL(b: Box, i: nat): real
    requires b.Valid() && i < b.dim
  {
    b.x[i]
  }

  function UR(b: Box, i: nat): real
    requires b.Valid() && i < b.dim
  {
    if b.point then b.x[i] else b.x[i + b.dim]
  }

  function Min(a: real, b: real): real {
    if a < b then a else b
  }

  function Max(a: real, b: real): real {
    if a > b then a else b
  }

  /** The lower and upper bound in dimension i; dimensions a box does not have are zero. */
  function Lo(b: Box, i: nat): real
    requires b.Valid()
  {
    if i < b.dim then Min(LL(b, i), UR(b, i)) else 0.0
  }

  function Hi(b: Box, i: nat): real
    requires b.Valid()
  {
    if i < b.dim then Max(LL(b, i), UR(b, i)) else 0.0
  }

  lemma LoUpToHi(b: Box, i: nat)
    requires b.Valid()
    ensures Lo(b, i) <= Hi(b, i)
  {
  }

  // ---------- cube_union_v0 ----------

  function Dimensions(a: Box, b: Box): nat {
    if a.dim < b.dim then b.dim else a.dim
  }

  /** r spans a and b in every dimension, and no more. */
  ghost predicate Spans(r: Box, a: Box, b: Box)
    requires r.Valid() && a.Valid() && b.Valid()
  {
    && r.dim == Dimensions(a, b)
    && forall i: nat :: Lo(r, i) == Min(Lo(a, i), Lo(b, i)) && Hi(r, i) == Max(Hi(a, i), Hi(b, i))
  }

  /** The first i coordinates of both corners have been filled in. */
  ghost predicate Filled(x: seq<real>, a: Box, b: Box, i: nat)
    requires a.Valid() && b.Valid()
  {
    && |x| == 2 * a.dim && i <= a.dim
    && forall k :: 0 <= k < i ==> x[k] == Min(Lo(a, k), Lo(b, k)) && x[k + a.dim] == Max(Hi(a, k), Hi(b, k))
  }

  /** The loops of cube_union_v0 over the dimensions of both boxes, then over those of the larger one. */
  method FillCorners(x: array<real>, a: Box, b: Box)
    requires a.Valid() && b.Valid() && b.dim <= a.dim && x.Length == 2 * a.dim
    modifies x
    ensures Filled(x[..], a, b, a.dim)
  {
    var dim, i := a.dim, 0;
    while i < b.dim
      invariant i <= b.dim && Filled(x[..], a, b, i)
    {
      x[i] := Min(Min(LL(a, i), UR(a, i)), Min(LL(b, i), UR(b, i)));
      x[i + dim] := Max(Max(LL(a, i), UR(a, i)), Max(LL(b, i), UR(b, i)));
      i := i + 1;
    }
    while i < dim
      invariant b.dim <= i <= dim && Filled(x[..], a, b, i)
    {
      x[i] := Min(0.0, Min(LL(a, i), UR(a, i)));
      x[i + dim] := Max(0.0, Max(LL(a, i), UR(a, i)));
      i := i + 1;
    }
  }

  /** `same` says that both arguments are one and the same stored box. */
  method Union(a: Box, b: Box, same: bool) returns (r: Box)
    requires a.Valid() && b.Valid() && (same ==> a == b)
    ensures r.Valid() && Spans(r, a, b)
  {
    if same {
      return a;
    }
    var large, small := a, b;
    if a.dim < b.dim {
      large, small := b, a;
    }
    var x := new real[2 * large.dim];
    FillCorners(x, large, small);
    var filled := Box(large.dim, false, x[..]);
    FilledSpans(filled, large, small);
    SpansEitherWay(filled, large, small);
    r := PointIfFlat(filled);
  }

  lemma SpansEitherWay(r: Box, a: Box, b: Box)
    requires r.Valid() && a.Valid() && b.Valid() && Spans(r, a, b)
    ensures Spans(r, b, a)
  {
  }

  lemma FilledSpans(r: Box, a: Box, b: Box)
    requires r.Valid() && a.Valid() && b.Valid() && b.dim <= a.dim && r.dim == a.dim && !r.point
             && Filled(r.x, a, b, a.dim)
    ensures Spans(r, a, b)
  {
    forall i: nat
      ensures Lo(r, i) == Min(Lo(a, i), Lo(b, i)) && Hi(r, i) == Max(Hi(a, i), Hi(b, i))
    {
      LoUpToHi(a, i);
      LoUpToHi(b, i);
      if i < a.dim {
        assert LL(r, i) == Min(Lo(a, i), Lo(b, i));
      }
    }
  }

  /** cube_is_point_internal on a box stored with both corners, and the point form it is given then. */
  method PointIfFlat(b: Box) returns (r: Box)
    requires b.Valid() && !b.point
    ensures r.Valid() && r.dim == b.dim && r.point == (forall i :: 0 <= i < b.dim ==> LL(b, i) == UR(b, i))
    ensures forall i: nat :: Lo(r, i) == Lo(b, i) && Hi(r, i) == Hi(b, i)
  {
    var i := 0;
    while i < b.dim
      invariant i <= b.dim && forall k :: 0 <= k < i ==> LL(b, k) == UR(b, k)
    {
      if b.x[i] != b.x[i + b.dim] {
        assert LL(b, i) != UR(b, i);
        return b;
      }
      i := i + 1;
    }
    r := Box(b.dim, true, b.x[..b.dim]);
    forall k: nat
      ensures Lo(r, k) == Lo(b, k) && Hi(r, k) == Hi(b, k)
    {
      if k < b.dim {
        assert LL(r, k) == LL(b, k) == UR(b, k);
      }
    }
  }

  // ---------- what a key covers ----------

  /** The key reaches at least as far as c in every dimension, and has at least its dimensions. */
  ghost predicate Covers(key: Box, c: Box)
    requires key.Valid() && c.Valid()
  {
    key.dim >= c.dim && forall i: nat :: Lo(key, i) <= Lo(c, i) && Hi(c, i) <= Hi(key, i)
  }

  lemma CoversItself(c: Box)
    requires c.Valid()
    ensures Covers(c, c)
  {
  }

  lemma SpanCovers(r: Box, a: Box, b: Box, c: Box)
    requires r.Valid() && a.Valid() && b.Valid() && c.Valid() && Spans(r, a, b) && (Covers(a, c) || Covers(b, c))
    ensures Covers(r, c)
  {
    forall i: nat
      ensures Lo(r, i) <= Lo(c, i) && Hi(c, i) <= Hi(r, i)
    {
      assert Lo(r, i) == Min(Lo(a, i), Lo(b, i)) && Hi(r, i) == Max(Hi(a, i), Hi(b, i));
      if Covers(a, c) {
        assert Lo(a, i) <= Lo(c, i);
      } else {
        assert Lo(b, i) <= Lo(c, i);
      }
    }
  }

  // ---------- the operators ----------

  ghost predicate OverlapsIn(a: Box, b: Box, i: nat)
    requires a.Valid() && b.Valid()
  {
    Lo(a, i) <= Hi(b, i) && Lo(b, i) <= Hi(a, i)
  }

  /** The boxes meet, missing dimensions counting as zero. */
  ghost predicate Overlaps(a: Box, b: Box)
    requires a.Valid() && b.Valid()
  {
    forall i: nat :: OverlapsIn(a, b, i)
  }

  /** cube_overlap_v0 */
  method Overlap(a0: Box, b0: Box) returns (r: bool)
    requires a0.Valid() && b0.Valid()
    ensures r <==> Overlaps(a0, b0)
  {
    var a, b := a0, b0;
    if a.dim < b.dim {
      a, b := b, a;
    }
    var i := 0;
    while i < b.dim
      invariant i <= b.dim && forall k :: 0 <= k < i ==> OverlapsIn(a, b, k)
    {
      if Min(LL(a, i), UR(a, i)) > Max(LL(b, i), UR(b, i)) || Max(LL(a, i), UR(a, i)) < Min(LL(b, i), UR(b, i)) {
        assert !OverlapsIn(a, b, i) && !OverlapsIn(a0, b0, i);
        return false;
      }
      i := i + 1;
    }
    while i < a.dim
      invariant b.dim <= i <= a.dim && forall k :: 0 <= k < i ==> OverlapsIn(a, b, k)
    {
      if Min(LL(a, i), UR(a, i)) > 0.0 || Max(LL(a, i), UR(a, i)) < 0.0 {
        assert !OverlapsIn(a, b, i) && !OverlapsIn(a0, b0, i);
        return false;
      }
      i := i + 1;
    }
    forall k: nat
      ensures OverlapsIn(a0, b0, k)
    {
      if k < i {
        assert OverlapsIn(a, b, k);
      }
    }
    r := true;
  }

  ghost predicate ContainsIn(a: Box, b: Box, i: nat)
    requires a.Valid() && b.Valid()
  {
    Lo(a, i) <= Lo(b, i) && Hi(b, i) <= Hi(a, i)
  }

  /** a contains b in all dimensions b has; dimensions that only a has do not matter. */
  ghost predicate Contains(a: Box, b: Box)
    requires a.Valid() && b.Valid()
  {
    forall i: nat :: i < b.dim ==> ContainsIn(a, b, i)
  }

  /** cube_contains_v0 */
  method Contain(a: Box, b: Box) returns (r: bool)
    requires a.Valid() && b.Valid()
    ensures r <==> Contains(a, b)
  {
    var i := a.dim;
    while i < b.dim
      invariant a.dim <= i && (i <= b.dim || i == a.dim) && forall k :: a.dim <= k < i && k < b.dim ==>
                  ContainsIn(a, b, k)
    {
      if LL(b, i) != 0.0 || UR(b, i) != 0.0 {
        assert !ContainsIn(a, b, i);
        return false;
      }
      i := i + 1;
    }
    i := 0;
    while i < (if a.dim < b.dim then a.dim else b.dim)
      invariant i <= a.dim && i <= b.dim && forall k :: 0 <= k < i ==> ContainsIn(a, b, k)
    {
      if Min(LL(a, i), UR(a, i)) > Min(LL(b, i), UR(b, i)) || Max(LL(a, i), UR(a, i)) < Max(LL(b, i), UR(b, i)) {
        assert !ContainsIn(a, b, i);
        return false;
      }
      i := i + 1;
    }
    r := true;
  }

  /** cube_cmp_v0 returns 0: equal dimension and equal bounds. */
  ghost predicate Same(a: Box, b: Box)
    requires a.Valid() && b.Valid()
  {
    a.dim == b.dim && forall i: nat :: i < a.dim ==> Lo(a, i) == Lo(b, i) && Hi(a, i) == Hi(b, i)
  }

  // ---------- the GiST tests ----------

  datatype Strategy = Overlapping | Equal | Containing | ContainedBy

  /** g_cube_leaf_consistent */
  ghost predicate LeafConsistent(c: Box, query: Box, s: Strategy)
    requires c.Valid() && query.Valid()
  {
    match s
    case Overlapping => Overlaps(c, query)
    case Equal => Same(c, query)
    case Containing => Contains(c, query)
    case ContainedBy => Contains(query, c)
  }

  /** g_cube_internal_consistent */
  ghost predicate InnerConsistent(key: Box, query: Box, s: Strategy)
    requires key.Valid() && query.Valid()
  {
    match s
    case Overlapping => Overlaps(key, query)
    case Equal => Contains(key, query)
    case Containing => Contains(key, query)
    case ContainedBy => Overlaps(key, query)
  }

  lemma OverlapIsNotPruned(key: Box, c: Box, query: Box)
    requires key.Valid() && c.Valid() && query.Valid() && Covers(key, c) && Overlaps(c, query)
    ensures Overlaps(key, query)
  {
    forall i: nat
      ensures OverlapsIn(key, query, i)
    {
      assert OverlapsIn(c, query, i) && Lo(key, i) <= Lo(c, i);
    }
  }

  lemma ContainingIsNotPruned(key: Box, c: Box, query: Box)
    requires key.Valid() && c.Valid() && query.Valid() && Covers(key, c) && Contains(c, query)
    ensures Contains(key, query)
  {
    forall i: nat | i < query.dim
      ensures ContainsIn(key, query, i)
    {
      assert ContainsIn(c, query, i) && Lo(key, i) <= Lo(c, i);
    }
  }

  lemma SameContains(c: Box, query: Box)
    requires c.Valid() && query.Valid() && Same(c, query)
    ensures Contains(c, query)
  {
    forall i: nat | i < query.dim
      ensures ContainsIn(c, query, i)
    {
      assert Lo(c, i) == Lo(query, i);
    }
  }

  /** In every dimension the query has and c has not, the query contains zero. */
  ghost predicate ReachesZero(c: Box, query: Box)
    requires c.Valid() && query.Valid()
  {
    forall i: nat :: c.dim <= i < query.dim ==> Lo(query, i) <= 0.0 <= Hi(query, i)
  }

  /** A box contained by the query meets it exactly when the query reaches zero beyond the box's dimensions. */
  lemma ContainedOverlapsExactly(c: Box, query: Box)
    requires c.Valid() && query.Valid() && Contains(query, c)
    ensures Overlaps(c, query) <==> ReachesZero(c, query)
  {
    if ReachesZero(c, query) {
      forall i: nat
        ensures OverlapsIn(c, query, i)
      {
        LoUpToHi(c, i);
        if i < c.dim {
          assert ContainsIn(query, c, i);
        } else if i < query.dim {
          assert Lo(query, i) <= 0.0 <= Hi(query, i);
        }
      }
    }
    if Overlaps(c, query) {
      forall i: nat | c.dim <= i < query.dim
        ensures Lo(query, i) <= 0.0 <= Hi(query, i)
      {
        assert OverlapsIn(c, query, i);
      }
    }
  }

  /** No inner key above a matching leaf is pruned; for contained-by, if the query reaches zero beyond the leaf. */
  lemma MatchIsNotPruned(key: Box, c: Box, query: Box, s: Strategy)
    requires key.Valid() && c.Valid() && query.Valid() && Covers(key, c) && LeafConsistent(c, query, s)
    requires s == ContainedBy ==> ReachesZero(c, query)
    ensures InnerConsistent(key, query, s)
  {
    match s
    case Overlapping => OverlapIsNotPruned(key, c, query);
    case Equal =>
      SameContains(c, query);
      ContainingIsNotPruned(key, c, query);
    case Containing => ContainingIsNotPruned(key, c, query);
    case ContainedBy =>
      ContainedOverlapsExactly(c, query);
      OverlapIsNotPruned(key, c, query);
  }

  /** A contained box survives under every covering key exactly when the query reaches zero; without more dimensions
      than the box has, the query always does. */
  lemma ContainedByExactly(c: Box, query: Box)
    requires c.Valid() && query.Valid() && LeafConsistent(c, query, ContainedBy)
    ensures (forall key: Box :: key.Valid() && Covers(key, c) ==> InnerConsistent(key, query, ContainedBy))
            <==> ReachesZero(c, query)
    ensures query.dim <= c.dim ==> ReachesZero(c, query)
  {
    ContainedOverlapsExactly(c, query);
    CoversItself(c);
    if ReachesZero(c, query) {
      forall key: Box | key.Valid() && Covers(key, c)
        ensures InnerConsistent(key, query, ContainedBy)
      {
        OverlapIsNotPruned(key, c, query);
      }
    }
  }

  /** A point on a line, contained by a query in the plane that lies away from the line: pruned below its own key. */
  lemma ContainedByHidden()
    ensures var c, query := Box(1, true, [3.0]), Box(2, false, [2.0, 5.0, 4.0, 6.0]);
            LeafConsistent(c, query, ContainedBy) && Covers(c, c) && !InnerConsistent(c, query, ContainedBy)
  {
    var c, query := Box(1, true, [3.0]), Box(2, false, [2.0, 5.0, 4.0, 6.0]);
    assert !OverlapsIn(c, query, 1);
  }
}
