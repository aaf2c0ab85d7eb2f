/** The ordered index scan over a tree of cubes: entries wait in a queue by the value g_cube_distance gives them, the
    smallest goes first, and a page's entries join the queue when its own entry comes to the front. */
module CubeNearest {
  import opened Basics
  import opened Cube
  import opened CubeKnn
  import opened CubeTree

  datatype Ordering = ByDistance(metric: Metric, query: Box) | ByCoordinate(coord: int)

  ghost predicate Meaningful(o: Ordering) {
    if o.ByDistance? then o.query.Valid() else o.coord != 0
  }

  /** g_cube_distance; the Euclidean distance is compared by its square. */
  ghost function Value(o: Ordering, b: Box, leaf: bool): real
    requires Meaningful(o) && b.Valid()
  {
    match o
    case ByDistance(m, query) => Total(m, b, query, Dimensions(b, query))
    case ByCoordinate(coord) => Coordinate(b, coord, leaf)
  }

  lemma ValueIsLowest(o: Ordering, key: Box, c: Box, leaf: bool)
    requires Meaningful(o) && key.Valid() && c.Valid() && Covers(key, c)
    ensures Value(o, key, false) <= Value(o, c, leaf)
  {
    match o
    case ByDistance(m, query) => KeyIsNearest(m, key, c, query);
    case ByCoordinate(coord) => KeyCoordinateIsLowest(key, c, coord, leaf);
  }

  /** Entries waiting, and cubes returned so far. */
  datatype Scan = Scan(queue: seq<Tree>, out: seq<Box>)

  ghost predicate AllCovering(queue: seq<Tree>) {
    forall i :: 0 <= i < |queue| ==> Covering([queue[i]])
  }

  ghost function EntryValue(o: Ordering, t: Tree): real
    requires Meaningful(o) && Covering([t])
  {
    Value(o, Entry(t), t.Leaf?)
  }

  /** No entry in the queue has a smaller value than entry i. */
  ghost predicate IsFront(o: Ordering, queue: seq<Tree>, i: nat)
    requires Meaningful(o) && AllCovering(queue)
  {
    i < |queue| && forall j :: 0 <= j < |queue| ==> EntryValue(o, queue[i]) <= EntryValue(o, queue[j])
  }

  function Rest(queue: seq<Tree>, i: nat): seq<Tree>
    requires i < |queue|
  {
    queue[..i] + queue[i + 1..]
  }

  /** A leaf entry at the front is returned, an inner one is replaced by the entries of its page. */
  function Pop(s: Scan, i: nat): Scan
    requires i < |s.queue|
  {
    var t := s.queue[i];
    if t.Leaf? then Scan(Rest(s.queue, i), s.out + [t.cube]) else Scan(Rest(s.queue, i) + t.kids, s.out)
  }

  /** The cubes returned are in order, and nothing that waits comes before the last of them. */
  ghost predicate InOrder(o: Ordering, s: Scan)
    requires Meaningful(o)
  {
    && AllCovering(s.queue)
    && (forall i :: 0 <= i < |s.out| ==> s.out[i].Valid())
    && (forall i, j :: 0 <= i < j < |s.out| ==> Value(o, s.out[i], true) <= Value(o, s.out[j], true))
    && forall i, j :: 0 <= i < |s.out| && 0 <= j < |s.queue| ==> Value(o, s.out[i], true) <= EntryValue(o, s.queue[j])
  }

  lemma {:induction false} CoveringEach(ts: seq<Tree>, i: nat)
    requires Covering(ts) && i < |ts|
    ensures Covering([ts[i]])
  {
    if i == 0 {
      assert [ts[0]][1..] == [];
    } else {
      CoveringEach(ts[1..], i - 1);
    }
  }

  lemma {:induction false} CoversEach(key: Box, ts: seq<Tree>, i: nat)
    requires key.Valid() && CoversEntries(key, ts) && i < |ts|
    ensures Entry(ts[i]).Valid() && Covers(key, Entry(ts[i]))
  {
    if i > 0 {
      CoversEach(key, ts[1..], i - 1);
    }
  }

  /** The entries of a page come no earlier than the entry for it. */
  lemma KidsComeLater(o: Ordering, node: Tree, k: nat)
    requires Meaningful(o) && node.Node? && Covering([node]) && k < |node.kids|
    ensures Covering([node.kids[k]]) && EntryValue(o, node) <= EntryValue(o, node.kids[k])
  {
    CoveringEach(node.kids, k);
    CoversEach(node.key, node.kids, k);
    ValueIsLowest(o, node.key, Entry(node.kids[k]), node.kids[k].Leaf?);
  }

  lemma PopLeafInOrder(o: Ordering, s: Scan, i: nat)
    requires Meaningful(o) && InOrder(o, s) && IsFront(o, s.queue, i) && s.queue[i].Leaf?
    ensures InOrder(o, Pop(s, i))
  {
    var q, s' := s.queue, Pop(s, i);
    forall j | 0 <= j < |s'.queue|
      ensures Covering([s'.queue[j]]) && EntryValue(o, q[i]) <= EntryValue(o, s'.queue[j])
    {
      assert s'.queue[j] == q[if j < i then j else j + 1];
    }
    forall k, j | 0 <= k < |s'.out| && 0 <= j < |s'.queue|
      ensures Value(o, s'.out[k], true) <= EntryValue(o, s'.queue[j])
    {
      assert k < |s.out| ==> Value(o, s.out[k], true) <= EntryValue(o, q[i]);
    }
  }

  lemma PopNodeInOrder(o: Ordering, s: Scan, i: nat)
    requires Meaningful(o) && InOrder(o, s) && IsFront(o, s.queue, i) && s.queue[i].Node?
    ensures InOrder(o, Pop(s, i))
  {
    var q, node, s' := s.queue, s.queue[i], Pop(s, i);
    forall j | 0 <= j < |s'.queue|
      ensures Covering([s'.queue[j]]) && EntryValue(o, node) <= EntryValue(o, s'.queue[j])
    {
      if j < |q| - 1 {
        assert s'.queue[j] == q[if j < i then j else j + 1];
      } else {
        KidsComeLater(o, node, j - (|q| - 1));
      }
    }
    forall k, j | 0 <= k < |s'.out| && 0 <= j < |s'.queue|
      ensures Value(o, s'.out[k], true) <= EntryValue(o, s'.queue[j])
    {
      assert Value(o, s.out[k], true) <= EntryValue(o, q[i]);
    }
  }

  // ---------- nothing is lost or returned twice ----------

  lemma {:induction false} CubesConcat(a: seq<Tree>, b: seq<Tree>)
    ensures Cubes(a + b) == Cubes(a) + Cubes(b)
  {
    if a == [] {
      assert a + b == b;
    } else {
      assert (a + b)[1..] == a[1..] + b;
      CubesConcat(a[1..], b);
      Assoc(if a[0].Leaf? then [a[0].cube] else Cubes(a[0].kids), Cubes(a[1..]), Cubes(b));
    }
  }

  lemma CubesOfOne(t: Tree)
    ensures Cubes([t]) == if t.Leaf? then [t.cube] else Cubes(t.kids)
  {
    assert [t][1..] == [];
  }

  lemma CubesParts(a: seq<Tree>, t: Tree, c: seq<Tree>)
    ensures multiset(Cubes(a + ([t] + c))) == multiset(Cubes(a + c)) + multiset(Cubes([t]))
  {
    CubesConcat(a, [t] + c);
    CubesConcat([t], c);
    CubesConcat(a, c);
  }

  lemma Around(queue: seq<Tree>, i: nat)
    requires i < |queue|
    ensures queue[..i] + ([queue[i]] + queue[i + 1..]) == queue
  {
  }

  lemma CubesWithout(queue: seq<Tree>, i: nat)
    requires i < |queue|
    ensures multiset(Cubes(queue)) == multiset(Cubes(Rest(queue, i))) + multiset(Cubes([queue[i]]))
  {
    Around(queue, i);
    CubesParts(queue[..i], queue[i], queue[i + 1..]);
  }

  /** Cubes still below the queue, and cubes returned. */
  ghost function Held(s: Scan): multiset<Box> {
    multiset(Cubes(s.queue)) + multiset(s.out)
  }

  lemma PopKeeps(s: Scan, i: nat)
    requires i < |s.queue|
    ensures Held(Pop(s, i)) == Held(s)
  {
    CubesWithout(s.queue, i);
    CubesOfOne(s.queue[i]);
    if s.queue[i].Node? {
      CubesConcat(Rest(s.queue, i), s.queue[i].kids);
    }
  }

  // ---------- every turn uses up one entry ----------

  /** The entries of these pages and of all pages below them. */
  function Entries(ts: seq<Tree>): nat {
    if ts == [] then 0 else 1 + (if ts[0].Leaf? then 0 else Entries(ts[0].kids)) + Entries(ts[1..])
  }

  lemma {:induction false} EntriesConcat(a: seq<Tree>, b: seq<Tree>)
    ensures Entries(a + b) == Entries(a) + Entries(b)
  {
    if a == [] {
      assert a + b == b;
    } else {
      assert (a + b)[1..] == a[1..] + b;
      EntriesConcat(a[1..], b);
    }
  }

  lemma PopUsesOne(s: Scan, i: nat)
    requires i < |s.queue|
    ensures Entries(Pop(s, i).queue) + 1 == Entries(s.queue)
  {
    var a, t, c := s.queue[..i], s.queue[i], s.queue[i + 1..];
    Around(s.queue, i);
    assert [t][1..] == [];
    EntriesConcat(a, [t] + c);
    EntriesConcat([t], c);
    EntriesConcat(a, c);
    if t.Node? {
      EntriesConcat(a + c, t.kids);
    }
  }

  /** Some entry of a queue has the smallest value. */
  lemma {:induction false} FrontExists(o: Ordering, queue: seq<Tree>) returns (i: nat)
    requires Meaningful(o) && AllCovering(queue) && queue != []
    ensures IsFront(o, queue, i)
  {
    var n := |queue| - 1;
    if n == 0 {
      i := 0;
    } else {
      var k := FrontExists(o, queue[..n]);
      i := if EntryValue(o, queue[k]) <= EntryValue(o, queue[n]) then k else n;
      forall j | 0 <= j < |queue|
        ensures EntryValue(o, queue[i]) <= EntryValue(o, queue[j])
      {
        assert j < n ==> EntryValue(o, queue[..n][k]) <= EntryValue(o, queue[..n][j]);
      }
    }
  }

  // ---------- whole scans ----------

  /** The entries taken from the queue, one after the other, each from the front. */
  ghost predicate ValidScan(o: Ordering, s: Scan, picks: seq<nat>)
    requires Meaningful(o)
    decreases |picks|
  {
    picks == [] ||
    (AllCovering(s.queue) && IsFront(o, s.queue, picks[0]) && ValidScan(o, Pop(s, picks[0]), picks[1..]))
  }

  ghost function After(o: Ordering, s: Scan, picks: seq<nat>): Scan
    requires Meaningful(o) && ValidScan(o, s, picks)
    decreases |picks|
  {
    if picks == [] then s else After(o, Pop(s, picks[0]), picks[1..])
  }

  lemma {:induction false} ScanStaysInOrder(o: Ordering, s: Scan, picks: seq<nat>)
    requires Meaningful(o) && InOrder(o, s) && ValidScan(o, s, picks)
    ensures InOrder(o, After(o, s, picks)) && Held(After(o, s, picks)) == Held(s)
    ensures Entries(After(o, s, picks).queue) + |picks| == Entries(s.queue)
    decreases |picks|
  {
    if picks != [] {
      if s.queue[picks[0]].Leaf? {
        PopLeafInOrder(o, s, picks[0]);
      } else {
        PopNodeInOrder(o, s, picks[0]);
      }
      PopKeeps(s, picks[0]);
      PopUsesOne(s, picks[0]);
      ScanStaysInOrder(o, Pop(s, picks[0]), picks[1..]);
    }
  }

  /** At every moment of an ordered scan the cubes returned are in order of their values, and they and the cubes still
      below the queue are those of the tree. The scan can go on until the queue is empty, which is after as many turns
      as the tree has entries; then all cubes have been returned. */
  lemma NearestFirst(o: Ordering, ts: seq<Tree>, picks: seq<nat>)
    requires Meaningful(o) && Covering(ts) && ValidScan(o, Scan(ts, []), picks)
    ensures var s := After(o, Scan(ts, []), picks);
            && InOrder(o, s)
            && multiset(Cubes(s.queue)) + multiset(s.out) == multiset(Cubes(ts))
            && |picks| <= Entries(ts)
            && (|picks| < Entries(ts) ==> exists i :: IsFront(o, s.queue, i))
            && (|picks| == Entries(ts) ==> s.queue == [] && multiset(s.out) == multiset(Cubes(ts)))
  {
    forall i | 0 <= i < |ts|
      ensures Covering([ts[i]])
    {
      CoveringEach(ts, i);
    }
    ScanStaysInOrder(o, Scan(ts, []), picks);
    var queue := After(o, Scan(ts, []), picks).queue;
    if queue != [] {
      var i := FrontExists(o, queue);
    }
  }
}
