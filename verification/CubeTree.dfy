/** Trees of cubes: inner keys made by g_cube_union, and scans that follow only consistent entries. */
module CubeTree {
  import opened Basics
  import opened Cube
  import opened CubeKnn
  import opened CubeSplit

  /** g_cube_union over all entries of a page; given a single entry it returns no box at all. */
  method UnionAll(v: seq<Box>) returns (out: Option<Box>)
    requires |v| >= 1 && AllValid(v)
    ensures out.Some? <==> |v| >= 2
    ensures out.Some? ==> out.value.Valid() && SmallestOver(out.value, v, Upto(|v|))
  {
    out := None;
    var tmp := v[0];
    SmallestOverOne(v, 0);
    var i := 1;
    assert {0} == Upto(1);
    while i < |v|
      invariant 1 <= i <= |v| && tmp.Valid() && SmallestOver(tmp, v, Upto(i))
      invariant out == if i == 1 then None else Some(tmp)
    {
      var wider := Union(tmp, v[i], false);
      SmallestOverMore(tmp, v, Upto(i), i, wider);
      assert Upto(i) + {i} == Upto(i + 1);
      out, tmp := Some(wider), wider;
      i := i + 1;
    }
  }

  ghost function Upto(n: nat): (s: set<nat>)
    ensures forall o: nat :: o in s <==> o < n
  {
    if n == 0 then {} else Upto(n - 1) + {n - 1}
  }

  datatype Tree = Leaf(cube: Box) | Node(key: Box, kids: seq<Tree>)

  function Entry(t: Tree): Box {
    if t.Leaf? then t.cube else t.key
  }

  /** The key of every page covers the entries on it. */
  ghost predicate Covering(ts: seq<Tree>) {
    ts == [] ||
    (&& Entry(ts[0]).Valid()
     && (ts[0].Node? ==> Covering(ts[0].kids) && CoversEntries(ts[0].key, ts[0].kids))
     && Covering(ts[1..]))
  }

  ghost predicate CoversEntries(key: Box, ts: seq<Tree>)
    requires key.Valid()
  {
    ts == [] || (Entry(ts[0]).Valid() && Covers(key, Entry(ts[0])) && CoversEntries(key, ts[1..]))
  }

  /** The cubes below the entries of a page, left to right. */
  function Cubes(ts: seq<Tree>): seq<Box> {
    if ts == [] then [] else (if ts[0].Leaf? then [ts[0].cube] else Cubes(ts[0].kids)) + Cubes(ts[1..])
  }

  ghost predicate CoversAll(key: Box, cs: seq<Box>)
    requires key.Valid()
  {
    cs == [] || (cs[0].Valid() && Covers(key, cs[0]) && CoversAll(key, cs[1..]))
  }

  lemma {:induction false} CoversAllConcat(key: Box, a: seq<Box>, b: seq<Box>)
    requires key.Valid() && CoversAll(key, a) && CoversAll(key, b)
    ensures CoversAll(key, a + b)
  {
    if a == [] {
      assert a + b == b;
    } else {
      assert (a + b)[1..] == a[1..] + b;
      CoversAllConcat(key, a[1..], b);
    }
  }

  lemma CoversTransitive(a: Box, b: Box, c: Box)
    requires a.Valid() && b.Valid() && c.Valid() && Covers(a, b) && Covers(b, c)
    ensures Covers(a, c)
  {
    forall i: nat
      ensures Lo(a, i) <= Lo(c, i) && Hi(c, i) <= Hi(a, i)
    {
      assert Lo(a, i) <= Lo(b, i) && Lo(b, i) <= Lo(c, i);
    }
  }

  lemma {:induction false} WiderCoversAll(wide: Box, key: Box, cs: seq<Box>)
    requires wide.Valid() && key.Valid() && Covers(wide, key) && CoversAll(key, cs)
    ensures CoversAll(wide, cs)
  {
    if cs != [] {
      CoversTransitive(wide, key, cs[0]);
      WiderCoversAll(wide, key, cs[1..]);
    }
  }

  /** A key that covers the entries of a page covers every cube below them. */
  lemma {:induction false} CoversBelow(key: Box, ts: seq<Tree>)
    requires key.Valid() && Covering(ts) && CoversEntries(key, ts)
    ensures CoversAll(key, Cubes(ts))
    decreases ts
  {
    if ts != [] {
      CoversBelow(key, ts[1..]);
      var here := if ts[0].Leaf? then [ts[0].cube] else Cubes(ts[0].kids);
      if ts[0].Node? {
        CoversBelow(ts[0].key, ts[0].kids);
        WiderCoversAll(key, ts[0].key, here);
      } else {
        assert [ts[0].cube][1..] == [];
      }
      CoversAllConcat(key, here, Cubes(ts[1..]));
    }
  }

  // ---------- index scans ----------

  /** The cubes an index scan returns from a page. */
  ghost function Search(ts: seq<Tree>, query: Box, s: Strategy): seq<Box>
    requires Covering(ts) && query.Valid()
  {
    if ts == [] then []
    else
      (if ts[0].Leaf? then (if LeafConsistent(ts[0].cube, query, s) then [ts[0].cube] else [])
       else if InnerConsistent(ts[0].key, query, s) then Search(ts[0].kids, query, s) else [])
      + Search(ts[1..], query, s)
  }

  ghost predicate AllOk(cs: seq<Box>) {
    cs == [] || (cs[0].Valid() && AllOk(cs[1..]))
  }

  ghost function Filter(cs: seq<Box>, query: Box, s: Strategy): seq<Box>
    requires AllOk(cs) && query.Valid()
  {
    if cs == [] then [] else (if LeafConsistent(cs[0], query, s) then [cs[0]] else []) + Filter(cs[1..], query, s)
  }

  /** For contained-by, the query reaches zero beyond every cube it contains. */
  ghost predicate Searchable(cs: seq<Box>, query: Box, s: Strategy)
    requires AllOk(cs) && query.Valid()
  {
    cs == [] || ((s == ContainedBy && Contains(query, cs[0]) ==> ReachesZero(cs[0], query))
                 && Searchable(cs[1..], query, s))
  }

  lemma {:induction false} AllOkConcat(a: seq<Box>, b: seq<Box>)
    ensures AllOk(a + b) <==> AllOk(a) && AllOk(b)
  {
    if a == [] {
      assert a + b == b;
    } else {
      assert (a + b)[1..] == a[1..] + b;
      AllOkConcat(a[1..], b);
    }
  }

  lemma {:induction false} CubesAreOk(ts: seq<Tree>)
    requires Covering(ts)
    ensures AllOk(Cubes(ts))
    decreases ts
  {
    if ts != [] {
      CubesAreOk(ts[1..]);
      if ts[0].Node? {
        CubesAreOk(ts[0].kids);
      } else {
        assert [ts[0].cube][1..] == [];
      }
      AllOkConcat(if ts[0].Leaf? then [ts[0].cube] else Cubes(ts[0].kids), Cubes(ts[1..]));
    }
  }

  lemma {:induction false} FilterConcat(a: seq<Box>, b: seq<Box>, query: Box, s: Strategy)
    requires AllOk(a) && AllOk(b) && AllOk(a + b) && query.Valid()
    ensures Filter(a + b, query, s) == Filter(a, query, s) + Filter(b, query, s)
  {
    if a == [] {
      assert a + b == b;
    } else {
      assert (a + b)[1..] == a[1..] + b;
      FilterConcat(a[1..], b, query, s);
      Assoc(if LeafConsistent(a[0], query, s) then [a[0]] else [], Filter(a[1..], query, s), Filter(b, query, s));
    }
  }

  lemma {:induction false} SearchableConcat(a: seq<Box>, b: seq<Box>, query: Box, s: Strategy)
    requires AllOk(a) && AllOk(b) && AllOk(a + b) && query.Valid()
    ensures Searchable(a + b, query, s) <==> Searchable(a, query, s) && Searchable(b, query, s)
  {
    if a == [] {
      assert a + b == b;
    } else {
      assert (a + b)[1..] == a[1..] + b;
      SearchableConcat(a[1..], b, query, s);
    }
  }

  lemma {:induction false} PrunedHasNoMatch(key: Box, cs: seq<Box>, query: Box, s: Strategy)
    requires key.Valid() && CoversAll(key, cs) && AllOk(cs) && query.Valid() && Searchable(cs, query, s)
    requires !InnerConsistent(key, query, s)
    ensures Filter(cs, query, s) == []
  {
    if cs != [] {
      if LeafConsistent(cs[0], query, s) {
        MatchIsNotPruned(key, cs[0], query, s);
      }
      PrunedHasNoMatch(key, cs[1..], query, s);
    }
  }

  /** The scan returns exactly the cubes that satisfy the query, in order. */
  lemma {:induction false} SearchIsFilter(ts: seq<Tree>, query: Box, s: Strategy)
    requires Covering(ts) && query.Valid() && AllOk(Cubes(ts)) && Searchable(Cubes(ts), query, s)
    ensures Search(ts, query, s) == Filter(Cubes(ts), query, s)
    decreases ts
  {
    if ts != [] {
      var t := ts[0];
      var here := if t.Leaf? then [t.cube] else Cubes(t.kids);
      CubesAreOk(ts[1..]);
      AllOkConcat(here, Cubes(ts[1..]));
      FilterConcat(here, Cubes(ts[1..]), query, s);
      SearchableConcat(here, Cubes(ts[1..]), query, s);
      SearchIsFilter(ts[1..], query, s);
      if t.Leaf? {
        assert [t.cube][1..] == [];
      } else if InnerConsistent(t.key, query, s) {
        SearchIsFilter(t.kids, query, s);
      } else {
        CoversBelow(t.key, t.kids);
        PrunedHasNoMatch(t.key, here, query, s);
      }
    }
  }

  // ---------- ordering scans ----------

  /** No cube of the list is nearer than d. */
  ghost predicate NoneNearer(m: Metric, d: real, cs: seq<Box>, query: Box)
    requires query.Valid() && AllOk(cs)
  {
    cs == [] || (d <= Total(m, cs[0], query, Dimensions(cs[0], query)) && NoneNearer(m, d, cs[1..], query))
  }

  lemma {:induction false} CoveredIsNotNearer(m: Metric, key: Box, cs: seq<Box>, query: Box)
    requires key.Valid() && query.Valid() && AllOk(cs) && CoversAll(key, cs)
    ensures NoneNearer(m, Total(m, key, query, Dimensions(key, query)), cs, query)
  {
    if cs != [] {
      KeyIsNearest(m, key, cs[0], query);
      CoveredIsNotNearer(m, key, cs[1..], query);
    }
  }

  /** The distance of an inner key is a lower bound for everything below it. */
  lemma KeyBoundsDistances(m: Metric, node: Tree, query: Box)
    requires node.Node? && Covering([node]) && query.Valid() && AllOk(Cubes(node.kids))
    ensures NoneNearer(m, Total(m, node.key, query, Dimensions(node.key, query)), Cubes(node.kids), query)
  {
    CoversBelow(node.key, node.kids);
    CoveredIsNotNearer(m, node.key, Cubes(node.kids), query);
  }
}
