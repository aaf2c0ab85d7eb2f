/** g_cube_picksplit: Guttman's quadratic split. Entry 0 of the vector is not used; the new entry is the last one, and
    it is never a seed unless there are only two entries. */
module CubeSplit {
  import opened Cube

  // ---------- sizes ----------

  function Extent(b: Box, i: nat): real
    requires b.Valid() && i < b.dim
  {
    var d := UR(b, i) - LL(b, i);
    if d < 0.0 then -d else d
  }

  function Volume(b: Box, n: nat): real
    requires b.Valid() && n <= b.dim
  {
    if n == 0 then 1.0 else Volume(b, n - 1) * Extent(b, n - 1)
  }

  function Size(b: Box): real
    requires b.Valid()
  {
    if b.point || b.dim == 0 then 0.0 else Volume(b, b.dim)
  }

  /** rt_cube_size */
  method SizeOf(b: Box) returns (size: real)
    requires b.Valid()
    ensures size == Size(b)
  {
    if b.point || b.dim == 0 {
      return 0.0;
    }
    size := 1.0;
    var i := 0;
    while i < b.dim
      invariant i <= b.dim && size == Volume(b, i)
    {
      size := size * Extent(b, i);
      i := i + 1;
    }
  }

  /** cube_inter: the corners cross where the boxes do not meet. */
  method Intersect(a0: Box, b0: Box) returns (r: Box)
    requires a0.Valid() && b0.Valid()
    ensures r.Valid() && r.dim == Dimensions(a0, b0)
    ensures forall i :: 0 <= i < r.dim ==>
              LL(r, i) == Max(Lo(a0, i), Lo(b0, i)) && UR(r, i) == Min(Hi(a0, i), Hi(b0, i))
  {
    var a, b := a0, b0;
    if a.dim < b.dim {
      a, b := b, a;
    }
    var lower, upper: seq<real> := [], [];
    var i := 0;
    while i < a.dim
      invariant i <= a.dim && |lower| == i && |upper| == i
      invariant forall k :: 0 <= k < i ==> lower[k] == Max(Lo(a, k), Lo(b, k)) && upper[k] == Min(Hi(a, k), Hi(b, k))
    {
      if i < b.dim {
        lower := lower + [Max(Min(LL(a, i), UR(a, i)), Min(LL(b, i), UR(b, i)))];
        upper := upper + [Min(Max(LL(a, i), UR(a, i)), Max(LL(b, i), UR(b, i)))];
      } else {
        lower := lower + [Max(0.0, Min(LL(a, i), UR(a, i)))];
        upper := upper + [Min(0.0, Max(LL(a, i), UR(a, i)))];
      }
      i := i + 1;
    }
    r := Box(a.dim, false, lower + upper);
    if lower == upper {
      r := Box(a.dim, true, lower);
    }
  }

  ghost function Corners(f: nat -> real, g: nat -> real, n: nat): (x: seq<real>)
    ensures |x| == 2 * n && forall i :: 0 <= i < n ==> x[i] == f(i) && x[i + n] == g(i)
  {
    seq(n, (i: nat) => f(i)) + seq(n, (i: nat) => g(i))
  }

  /** The box over both. */
  ghost function Both(a: Box, b: Box): (r: Box)
    requires a.Valid() && b.Valid()
    ensures r.Valid() && r.dim == Dimensions(a, b)
  {
    Box(Dimensions(a, b), false,
        Corners((i: nat) => if a.Valid() && b.Valid() then Min(Lo(a, i), Lo(b, i)) else 0.0,
                (i: nat) => if a.Valid() && b.Valid() then Max(Hi(a, i), Hi(b, i)) else 0.0,
                Dimensions(a, b)))
  }

  /** The box in both; its corners cross where they do not meet. */
  ghost function Common(a: Box, b: Box): (r: Box)
    requires a.Valid() && b.Valid()
    ensures r.Valid() && r.dim == Dimensions(a, b)
  {
    Box(Dimensions(a, b), false,
        Corners((i: nat) => if a.Valid() && b.Valid() then Max(Lo(a, i), Lo(b, i)) else 0.0,
                (i: nat) => if a.Valid() && b.Valid() then Min(Hi(a, i), Hi(b, i)) else 0.0,
                Dimensions(a, b)))
  }

  lemma BothSpans(a: Box, b: Box)
    requires a.Valid() && b.Valid()
    ensures Spans(Both(a, b), a, b)
  {
    var r := Both(a, b);
    forall i: nat
      ensures Lo(r, i) == Min(Lo(a, i), Lo(b, i)) && Hi(r, i) == Max(Hi(a, i), Hi(b, i))
    {
      LoUpToHi(a, i);
      LoUpToHi(b, i);
    }
  }

  ghost predicate SameBounds(a: Box, b: Box)
    requires a.Valid() && b.Valid()
  {
    a.dim == b.dim && forall i: nat :: Lo(a, i) == Lo(b, i) && Hi(a, i) == Hi(b, i)
  }

  lemma {:induction false} VolumeByBounds(a: Box, b: Box, n: nat)
    requires a.Valid() && b.Valid() && SameBounds(a, b) && n <= a.dim
    ensures Volume(a, n) == Volume(b, n)
  {
    if n > 0 {
      VolumeByBounds(a, b, n - 1);
      assert Extent(a, n - 1) == Hi(a, n - 1) - Lo(a, n - 1) == Hi(b, n - 1) - Lo(b, n - 1) == Extent(b, n - 1);
    }
  }

  lemma PointHasNoVolume(b: Box)
    requires b.Valid() && b.point && b.dim > 0
    ensures Volume(b, b.dim) == 0.0
  {
    assert Extent(b, b.dim - 1) == 0.0;
  }

  /** The size is a matter of the bounds alone, however a flat box is stored. */
  lemma SizeByBounds(a: Box, b: Box)
    requires a.Valid() && b.Valid() && SameBounds(a, b)
    ensures Size(a) == Size(b)
  {
    if a.dim > 0 {
      VolumeByBounds(a, b, a.dim);
      if a.point {
        PointHasNoVolume(a);
      }
      if b.point {
        PointHasNoVolume(b);
      }
    }
  }

  /** What a box over both takes up beyond what they share. */
  ghost function Waste(a: Box, b: Box): real
    requires a.Valid() && b.Valid()
  {
    Size(Both(a, b)) - Size(Common(a, b))
  }

  lemma UnionSize(a: Box, b: Box, r: Box)
    requires a.Valid() && b.Valid() && r.Valid() && Spans(r, a, b)
    ensures Size(r) == Size(Both(a, b))
  {
    BothSpans(a, b);
    SizeByBounds(r, Both(a, b));
  }

  lemma CommonSize(a: Box, b: Box, r: Box)
    requires a.Valid() && b.Valid() && r.Valid() && r.dim == Dimensions(a, b)
    requires forall i :: 0 <= i < r.dim ==> LL(r, i) == Max(Lo(a, i), Lo(b, i)) && UR(r, i) == Min(Hi(a, i), Hi(b, i))
    ensures Size(r) == Size(Common(a, b))
  {
    SizeByBounds(r, Common(a, b));
  }

  /** size_waste of the first loop. */
  method WasteOf(a: Box, b: Box) returns (waste: real)
    requires a.Valid() && b.Valid()
    ensures waste == Waste(a, b)
  {
    var union := Union(a, b, false);
    var sizeUnion := SizeOf(union);
    var inter := Intersect(a, b);
    var sizeInter := SizeOf(inter);
    UnionSize(a, b, union);
    CommonSize(a, b, inter);
    waste := sizeUnion - sizeInter;
  }

  // ---------- the lists of a split ----------

  /** An array of offsets that is filled from the front, with room for a sentinel at the end. */
  class OffsetList {
    const cells: array<nat>
    var used: nat

    ghost predicate Valid()
      reads this
    {
      used < cells.Length
    }

    ghost function Contents(): seq<nat>
      reads this, cells
      requires Valid()
    {
      cells[..used]
    }

    constructor (capacity: nat)
      requires capacity > 0
      ensures Valid() && Contents() == [] && cells.Length == capacity && fresh(cells)
    {
      cells := new nat[capacity];
      used := 0;
    }

    method Push(o: nat)
      requires Valid() && used + 1 < cells.Length
      modifies this, cells
      ensures Valid() && Contents() == old(Contents()) + [o]
    {
      cells[used] := o;
      used := used + 1;
    }

    method Seal(sentinel: nat)
      requires Valid()
      modifies cells
      ensures Contents() == old(Contents()) && cells[used] == sentinel
    {
      cells[used] := sentinel;
    }
  }

  ghost predicate Ascending(s: seq<nat>) {
    forall i, j :: 0 <= i < j < |s| ==> s[i] < s[j]
  }

  /** The two lists hold the offsets from 1 below n, each offset in one of them, in ascending order. */
  ghost predicate Partition(left: seq<nat>, right: seq<nat>, n: nat) {
    && Ascending(left) && Ascending(right) && n >= 1 && |left| + |right| == n - 1
    && (forall o :: o in left ==> 1 <= o < n && o !in right)
    && (forall o :: o in right ==> 1 <= o < n)
    && (forall o :: 1 <= o < n ==> o in left || o in right)
  }

  lemma PartitionNextLeft(left: seq<nat>, right: seq<nat>, n: nat)
    requires Partition(left, right, n)
    ensures Partition(left + [n], right, n + 1)
  {
    var longer := left + [n];
    forall o | o in longer
      ensures 1 <= o < n + 1 && o !in right
    {
      assert o == n || o in left;
    }
    forall i, j | 0 <= i < j < |longer|
      ensures longer[i] < longer[j]
    {
      assert longer[i] in left;
    }
    assert n in longer;
  }

  lemma PartitionNextRight(left: seq<nat>, right: seq<nat>, n: nat)
    requires Partition(left, right, n)
    ensures Partition(left, right + [n], n + 1)
  {
    var longer := right + [n];
    forall o | o in longer
      ensures 1 <= o < n + 1 && o !in left
    {
      assert o == n || o in right;
    }
    forall i, j | 0 <= i < j < |longer|
      ensures longer[i] < longer[j]
    {
      assert longer[i] in right;
    }
    assert n in longer;
  }

  // ---------- the boxes of a split ----------

  ghost predicate AllValid(v: seq<Box>) {
    forall i :: 0 <= i < |v| ==> v[i].Valid()
  }

  /** The box covers the entries at these offsets and is the smallest one that does. */
  ghost predicate SmallestOver(box: Box, v: seq<Box>, offsets: set<nat>)
    requires box.Valid() && AllValid(v) && forall o :: o in offsets ==> o < |v|
  {
    && (forall o :: o in offsets ==> Covers(box, v[o]))
    && (exists o :: o in offsets && v[o].dim == box.dim)
    && forall i: nat :: ReachedBy(box, v, offsets, i)
  }

  /** Both bounds in dimension i are those of an entry. */
  ghost predicate ReachedBy(box: Box, v: seq<Box>, offsets: set<nat>, i: nat)
    requires box.Valid() && AllValid(v) && forall o :: o in offsets ==> o < |v|
  {
    (exists o :: o in offsets && Lo(v[o], i) == Lo(box, i)) && (exists o :: o in offsets && Hi(v[o], i) == Hi(box, i))
  }

  lemma SmallestOverOne(v: seq<Box>, o: nat)
    requires AllValid(v) && o < |v|
    ensures SmallestOver(v[o], v, {o})
  {
    CoversItself(v[o]);
    forall i: nat
      ensures ReachedBy(v[o], v, {o}, i)
    {
      assert o in {o} && Lo(v[o], i) == Lo(v[o], i);
    }
  }

  lemma SmallestOverMore(box: Box, v: seq<Box>, offsets: set<nat>, k: nat, r: Box)
    requires box.Valid() && r.Valid() && AllValid(v) && k < |v| && (forall o :: o in offsets ==> o < |v|)
    requires SmallestOver(box, v, offsets) && Spans(r, box, v[k])
    ensures SmallestOver(r, v, offsets + {k})
  {
    var more := offsets + {k};
    forall o | o in more
      ensures Covers(r, v[o])
    {
      CoversItself(v[k]);
      SpanCovers(r, box, v[k], v[o]);
    }
    if box.dim < v[k].dim {
      assert k in more;
    } else {
      var o :| o in offsets && v[o].dim == box.dim;
      assert o in more;
    }
    forall i: nat
      ensures ReachedBy(r, v, more, i)
    {
      ReachedByMore(box, v, offsets, k, r, i);
    }
  }

  lemma ReachedByMore(box: Box, v: seq<Box>, offsets: set<nat>, k: nat, r: Box, i: nat)
    requires box.Valid() && r.Valid() && AllValid(v) && k < |v| && (forall o :: o in offsets ==> o < |v|)
    requires ReachedBy(box, v, offsets, i) && Lo(r, i) == Min(Lo(box, i), Lo(v[k], i))
             && Hi(r, i) == Max(Hi(box, i), Hi(v[k], i))
    ensures ReachedBy(r, v, offsets + {k}, i)
  {
    var more := offsets + {k};
    var lo :| lo in offsets && Lo(v[lo], i) == Lo(box, i);
    var hi :| hi in offsets && Hi(v[hi], i) == Hi(box, i);
    assert lo in more && hi in more && k in more;
  }

  // ---------- g_cube_picksplit ----------

  predicate PairBefore(i: nat, j: nat, k: nat, l: nat) {
    i < k || (i == k && j < l)
  }

  /** Of the pairs up to `last` and before (k, l), none wastes more than the seeds, and none before the seeds as
      much. */
  ghost predicate MostWaste(waste: (nat, nat) -> real, last: int, seed1: nat, seed2: nat, k: nat, l: nat) {
    forall i: nat, j: nat :: 1 <= i < j <= last && PairBefore(i, j, k, l) ==>
      && waste(i, j) <= waste(seed1, seed2)
      && (PairBefore(i, j, seed1, seed2) ==> waste(i, j) < waste(seed1, seed2))
  }

  ghost function PairWaste(v: seq<Box>): (nat, nat) -> real {
    (i: nat, j: nat) => if i < |v| && j < |v| && v[i].Valid() && v[j].Valid() then Waste(v[i], v[j]) else 0.0
  }

  /** The first pair of entries that wastes most space; the last entry is left out unless there are only two. */
  ghost predicate SeedsOf(v: seq<Box>, seed1: nat, seed2: nat) {
    && 1 <= seed1 < seed2 < |v|
    && (if |v| == 3 then seed1 == 1 && seed2 == 2
        else seed2 <= |v| - 2 && MostWaste(PairWaste(v), |v| - 2, seed1, seed2, |v|, |v|))
  }

  /** The seeds lead among the pairs before (k, l). */
  ghost predicate Leading(waste: (nat, nat) -> real, last: int, seed1: nat, seed2: nat, most: real, k: nat, l: nat) {
    && 1 <= seed1 < seed2 <= last && PairBefore(seed1, seed2, k, l)
    && most == waste(seed1, seed2) && MostWaste(waste, last, seed1, seed2, k, l)
  }

  lemma NextPair(waste: (nat, nat) -> real, last: int, seed1: nat, seed2: nat, most: real, k: nat, l: nat)
    requires Leading(waste, last, seed1, seed2, most, k, l) && 1 <= k < l <= last
    ensures if waste(k, l) > most then Leading(waste, last, k, l, waste(k, l), k, l + 1)
            else Leading(waste, last, seed1, seed2, most, k, l + 1)
  {
    forall i: nat, j: nat | 1 <= i < j <= last && PairBefore(i, j, k, l + 1)
      ensures PairBefore(i, j, k, l) || (i == k && j == l)
    {
    }
  }

  /** w gives the waste of every pair of entries. */
  ghost predicate GivesWaste(w: (nat, nat) -> real, v: seq<Box>)
    requires AllValid(v)
  {
    forall i: nat, j: nat {:trigger Waste(v[i], v[j])} :: i < |v| && j < |v| ==> w(i, j) == Waste(v[i], v[j])
  }

  method WasteAt(v: seq<Box>, i: nat, j: nat, ghost w: (nat, nat) -> real) returns (waste: real)
    requires AllValid(v) && i < |v| && j < |v| && GivesWaste(w, v)
    ensures waste == w(i, j)
  {
    waste := WasteOf(v[i], v[j]);
  }

  lemma NextRow(waste: (nat, nat) -> real, last: nat, seed1: nat, seed2: nat, most: real, k: nat)
    requires Leading(waste, last, seed1, seed2, most, k, last + 1)
    ensures Leading(waste, last, seed1, seed2, most, k + 1, k + 2)
  {
  }

  lemma LastRow(v: seq<Box>, last: nat, seed1: nat, seed2: nat, most: real)
    requires last == |v| - 2 && Leading(PairWaste(v), last, seed1, seed2, most, last, last + 1)
    ensures SeedsOf(v, seed1, seed2)
  {
  }

  /** How far the first loop has come: before the pair (i, j). */
  ghost predicate Choosing(waste: (nat, nat) -> real, last: nat, firsttime: bool, seed1: nat, seed2: nat, most: real,
                           i: nat, j: nat) {
    && 1 <= i < j && (firsttime <==> i == 1 && j == 2)
    && if firsttime then seed1 == 1 && seed2 == 2 else Leading(waste, last, seed1, seed2, most, i, j)
  }

  /** The turn of the inner loop for the pair (i, j). */
  lemma PairConsidered(waste: (nat, nat) -> real, last: nat, firsttime: bool, seed1: nat, seed2: nat, most: real,
                       i: nat, j: nat)
    requires j <= last && Choosing(waste, last, firsttime, seed1, seed2, most, i, j)
    ensures if waste(i, j) > most || firsttime then Choosing(waste, last, false, i, j, waste(i, j), i, j + 1)
            else Choosing(waste, last, false, seed1, seed2, most, i, j + 1)
  {
    if !firsttime {
      NextPair(waste, last, seed1, seed2, most, i, j);
    }
  }

  /** The decision of the inner loop, whatever the waste of the pair is. */
  method ConsiderPair(ghost w: (nat, nat) -> real, ghost last: nat, sizeWaste: real, firsttime: bool,
                      seed1: nat, seed2: nat, waste: real, i: nat, j: nat)
    returns (seed1': nat, seed2': nat, waste': real)
    requires j <= last && sizeWaste == w(i, j) && Choosing(w, last, firsttime, seed1, seed2, waste, i, j)
    ensures Choosing(w, last, false, seed1', seed2', waste', i, j + 1)
  {
    PairConsidered(w, last, firsttime, seed1, seed2, waste, i, j);
    seed1', seed2', waste' := seed1, seed2, waste;
    if sizeWaste > waste || firsttime {
      waste', seed1', seed2' := sizeWaste, i, j;
    }
  }

  /** The inner loop: all pairs of entry i with a later one. */
  method ChooseInRow(v: seq<Box>, firsttime0: bool, seed1_0: nat, seed2_0: nat, waste0: real, i: nat,
                     ghost w: (nat, nat) -> real)
    returns (seed1: nat, seed2: nat, waste: real)
    requires AllValid(v) && i < |v| - 2 && GivesWaste(w, v)
             && Choosing(w, |v| - 2, firsttime0, seed1_0, seed2_0, waste0, i, i + 1)
    ensures Choosing(w, |v| - 2, false, seed1, seed2, waste, i, |v| - 1)
  {
    var firsttime, maxoff := firsttime0, |v| - 2;
    seed1, seed2, waste := seed1_0, seed2_0, waste0;
    var j := i + 1;
    while j <= maxoff
      invariant i < j <= maxoff + 1 && Choosing(w, maxoff, firsttime, seed1, seed2, waste, i, j)
    {
      var sizeWaste := WasteAt(v, i, j, w);
      seed1, seed2, waste := ConsiderPair(w, maxoff, sizeWaste, firsttime, seed1, seed2, waste, i, j);
      firsttime := false;
      j := j + 1;
    }
  }

  /** The first loop: the pair of entries that wastes most space together. */
  method ChooseSeeds(v: seq<Box>) returns (seed1: nat, seed2: nat)
    requires |v| >= 3 && AllValid(v)
    ensures SeedsOf(v, seed1, seed2)
  {
    seed1, seed2 := 1, 2;
    var maxoff := |v| - 2;
    var firsttime, waste := true, 0.0;
    var i := 1;
    while i < maxoff
      invariant i <= maxoff && Choosing(PairWaste(v), maxoff, firsttime, seed1, seed2, waste, i, i + 1)
    {
      seed1, seed2, waste := ChooseInRow(v, firsttime, seed1, seed2, waste, i, PairWaste(v));
      firsttime := false;
      NextRow(PairWaste(v), maxoff, seed1, seed2, waste, i);
      i := i + 1;
    }
    if maxoff > 1 {
      LastRow(v, maxoff, seed1, seed2, waste);
    }
  }

  ghost function Members(list: seq<nat>): set<nat> {
    set o | o in list
  }

  ghost function Offsets(list: seq<nat>, seed: nat): set<nat> {
    Members(list) + {seed}
  }

  lemma OffsetsPush(list: seq<nat>, seed: nat, o: nat)
    ensures Offsets(list + [o], seed) == Offsets(list, seed) + {o}
  {
  }

  ghost predicate Below(list: seq<nat>, n: nat) {
    forall o :: o in list ==> o < n
  }

  /** One side so far: its seed counts as a member from the start. */
  ghost predicate Side(box: Box, v: seq<Box>, list: seq<nat>, seed: nat) {
    box.Valid() && AllValid(v) && Below(list, |v|) && seed < |v| && SmallestOver(box, v, Offsets(list, seed))
  }

  lemma SideStarts(v: seq<Box>, seed: nat, r: Box)
    requires AllValid(v) && seed < |v| && r.Valid() && Spans(r, v[seed], v[seed])
    ensures Side(r, v, [], seed)
  {
    SmallestOverOne(v, seed);
    SmallestOverMore(v[seed], v, {seed}, seed, r);
    assert Offsets([], seed) == {seed} == {seed} + {seed};
  }

  lemma SideTakesSeed(box: Box, v: seq<Box>, list: seq<nat>, seed: nat)
    requires Side(box, v, list, seed)
    ensures Side(box, v, list + [seed], seed)
  {
    assert Offsets(list + [seed], seed) == Offsets(list, seed);
  }

  lemma SideTakes(box: Box, v: seq<Box>, list: seq<nat>, seed: nat, o: nat, r: Box)
    requires Side(box, v, list, seed) && o < |v| && r.Valid() && Spans(r, box, v[o])
    ensures Side(r, v, list + [o], seed)
  {
    SmallestOverMore(box, v, Offsets(list, seed), o, r);
    OffsetsPush(list, seed, o);
  }

  // ---------- where an entry goes ----------

  lemma BelowInit(list: seq<nat>, n: nat)
    requires list != [] && Below(list, n)
    ensures list[|list| - 1] < n && Below(list[..|list| - 1], n)
  {
    var init := list[..|list| - 1];
    assert list[|list| - 1] in list;
    forall o | o in init
      ensures o < n
    {
      assert o in list;
    }
  }

  /** The box over the listed entries. */
  ghost function Hull(v: seq<Box>, list: seq<nat>): (r: Box)
    requires AllValid(v) && list != [] && Below(list, |v|)
    ensures r.Valid()
  {
    var last := list[|list| - 1];
    BelowInit(list, |v|);
    if |list| == 1 then Both(v[last], v[last]) else Both(Hull(v, list[..|list| - 1]), v[last])
  }

  /** How much the box over the listed entries grows when entry o joins them. */
  ghost function Growth(v: seq<Box>): (seq<nat>, nat) -> real {
    (list: seq<nat>, o: nat) =>
      if AllValid(v) && list != [] && Below(list + [o], |v|) && Below(list, |v|) then
        Size(Hull(v, list + [o])) - Size(Hull(v, list))
      else 0.0
  }

  /** The members of an ascending list that come before o. */
  function Earlier(list: seq<nat>, o: nat): seq<nat> {
    if list == [] || list[|list| - 1] < o then list else Earlier(list[..|list| - 1], o)
  }

  /** An entry below n that is no seed is on the left exactly when the left box, as it stood, grew less by it. */
  ghost predicate ByGrowth(growth: (seq<nat>, nat) -> real, seed1: nat, seed2: nat, left: seq<nat>, right: seq<nat>,
                           n: nat) {
    forall o: nat :: 1 <= o < n && o != seed1 && o != seed2 ==>
      (o in left <==> growth([seed1] + Earlier(left, o), o) < growth([seed2] + Earlier(right, o), o))
  }

  lemma EarlierPush(list: seq<nat>, x: nat, o: nat)
    requires o <= x
    ensures Earlier(list + [x], o) == Earlier(list, o)
  {
    assert (list + [x])[..|list|] == list;
  }

  lemma EarlierIsAll(list: seq<nat>, o: nat)
    requires Below(list, o)
    ensures Earlier(list, o) == list
  {
    assert list != [] ==> list[|list| - 1] in list;
  }

  lemma GoesLeft(growth: (seq<nat>, nat) -> real, seed1: nat, seed2: nat, left: seq<nat>, right: seq<nat>, i: nat)
    requires ByGrowth(growth, seed1, seed2, left, right, i) && Below(right, i) && Below(left, i)
    requires i == seed1 || i == seed2 || growth([seed1] + left, i) < growth([seed2] + right, i)
    ensures ByGrowth(growth, seed1, seed2, left + [i], right, i + 1)
  {
    forall o: nat | 1 <= o < i + 1 && o != seed1 && o != seed2
      ensures o in left + [i] <==> growth([seed1] + Earlier(left + [i], o), o) < growth([seed2] + Earlier(right, o), o)
    {
      EarlierPush(left, i, o);
      if o == i {
        EarlierIsAll(left, i);
        EarlierIsAll(right, i);
      }
      assert o < i ==> (o in left + [i] <==> o in left);
    }
  }

  lemma GoesRight(growth: (seq<nat>, nat) -> real, seed1: nat, seed2: nat, left: seq<nat>, right: seq<nat>, i: nat)
    requires ByGrowth(growth, seed1, seed2, left, right, i) && Below(right, i) && Below(left, i)
    requires i == seed1 || i == seed2 || !(growth([seed1] + left, i) < growth([seed2] + right, i))
    ensures ByGrowth(growth, seed1, seed2, left, right + [i], i + 1)
  {
    forall o: nat | 1 <= o < i + 1 && o != seed1 && o != seed2
      ensures o in left <==> growth([seed1] + Earlier(left, o), o) < growth([seed2] + Earlier(right + [i], o), o)
    {
      EarlierPush(right, i, o);
      if o == i {
        EarlierIsAll(left, i);
        EarlierIsAll(right, i);
      }
    }
  }

  /** The box has the bounds of the hull of its seed and its list. */
  ghost predicate HullOf(box: Box, v: seq<Box>, list: seq<nat>, seed: nat) {
    && box.Valid() && AllValid(v) && Below([seed] + list, |v|) && SameBounds(box, Hull(v, [seed] + list))
  }

  lemma HullStarts(v: seq<Box>, seed: nat, r: Box)
    requires AllValid(v) && seed < |v| && r.Valid() && Spans(r, v[seed], v[seed])
    ensures HullOf(r, v, [], seed)
  {
    assert [seed] + [] == [seed];
    BothSpans(v[seed], v[seed]);
  }

  lemma HullPush(v: seq<Box>, list: seq<nat>, seed: nat, o: nat)
    requires AllValid(v) && Below([seed] + list, |v|) && o < |v|
    ensures Below([seed] + (list + [o]), |v|) && Hull(v, [seed] + (list + [o])) == Both(Hull(v, [seed] + list), v[o])
  {
    var all := [seed] + (list + [o]);
    assert all == ([seed] + list) + [o] && all[..|all| - 1] == [seed] + list;
    forall x | x in all
      ensures x < |v|
    {
      assert x == o || x in [seed] + list;
    }
  }

  lemma HullTakes(box: Box, v: seq<Box>, list: seq<nat>, seed: nat, o: nat, r: Box)
    requires HullOf(box, v, list, seed) && o < |v| && r.Valid() && Spans(r, box, v[o])
    ensures HullOf(r, v, list + [o], seed)
  {
    HullPush(v, list, seed, o);
    BothSpans(Hull(v, [seed] + list), v[o]);
  }

  lemma HullTakesCovered(box: Box, v: seq<Box>, list: seq<nat>, seed: nat, o: nat)
    requires HullOf(box, v, list, seed) && o < |v| && v[o].Valid() && Covers(box, v[o])
    ensures HullOf(box, v, list + [o], seed)
  {
    HullPush(v, list, seed, o);
    BothSpans(Hull(v, [seed] + list), v[o]);
  }

  /** The growth of the hull is the growth of the box. */
  lemma GrowthOfBox(box: Box, v: seq<Box>, list: seq<nat>, seed: nat, o: nat, r: Box)
    requires HullOf(box, v, list, seed) && o < |v| && r.Valid() && Spans(r, box, v[o])
    ensures Growth(v)([seed] + list, o) == Size(r) - Size(box)
  {
    HullTakes(box, v, list, seed, o, r);
    assert [seed] + (list + [o]) == ([seed] + list) + [o];
    SizeByBounds(r, Hull(v, [seed] + (list + [o])));
    SizeByBounds(box, Hull(v, [seed] + list));
  }

  /** What has been decided before offset i, and the boxes it was decided by. */
  ghost predicate Weighed(v: seq<Box>, seed1: nat, seed2: nat, i: nat, left: seq<nat>, right: seq<nat>, l: Box,
                          r: Box) {
    ByGrowth(Growth(v), seed1, seed2, left, right, i) && HullOf(l, v, left, seed1) && HullOf(r, v, right, seed2)
  }

  /** Where the second loop stands before offset i. */
  ghost predicate Splitting(v: seq<Box>, seed1: nat, seed2: nat, i: nat, left: seq<nat>, right: seq<nat>, l: Box,
                            r: Box) {
    && Partition(left, right, i) && Side(l, v, left, seed1) && Side(r, v, right, seed2)
    && (seed1 < i ==> seed1 in left) && (seed2 < i ==> seed2 in right)
  }

  lemma SplitSeed1(v: seq<Box>, seed1: nat, seed2: nat, i: nat, left: seq<nat>, right: seq<nat>, l: Box, r: Box)
    requires Splitting(v, seed1, seed2, i, left, right, l, r) && i == seed1 && seed1 != seed2 && i < |v|
    ensures Splitting(v, seed1, seed2, i + 1, left + [i], right, l, r) && |left| + 1 < |v|
  {
    PartitionNextLeft(left, right, i);
    SideTakesSeed(l, v, left, i);
    assert i in left + [i];
  }

  lemma SplitSeed2(v: seq<Box>, seed1: nat, seed2: nat, i: nat, left: seq<nat>, right: seq<nat>, l: Box, r: Box)
    requires Splitting(v, seed1, seed2, i, left, right, l, r) && i == seed2 && seed1 != seed2 && i < |v|
    ensures Splitting(v, seed1, seed2, i + 1, left, right + [i], l, r) && |right| + 1 < |v|
  {
    PartitionNextRight(left, right, i);
    SideTakesSeed(r, v, right, i);
    assert i in right + [i];
  }

  lemma SplitOther(v: seq<Box>, seed1: nat, seed2: nat, i: nat, left: seq<nat>, right: seq<nat>, l: Box, r: Box,
                   l': Box, r': Box)
    requires Splitting(v, seed1, seed2, i, left, right, l, r) && i != seed1 && i != seed2 && i < |v|
    requires l'.Valid() && Spans(l', l, v[i]) && r'.Valid() && Spans(r', r, v[i])
    ensures Splitting(v, seed1, seed2, i + 1, left + [i], right, l', r) && |left| + 1 < |v|
    ensures Splitting(v, seed1, seed2, i + 1, left, right + [i], l, r') && |right| + 1 < |v|
  {
    PartitionNextLeft(left, right, i);
    PartitionNextRight(left, right, i);
    SideTakes(l, v, left, seed1, i, l');
    SideTakes(r, v, right, seed2, i, r');
    assert seed1 < i ==> seed1 in left + [i];
    assert seed2 < i ==> seed2 in right + [i];
  }

  lemma WeighedSeed(v: seq<Box>, seed1: nat, seed2: nat, i: nat, left: seq<nat>, right: seq<nat>, l: Box, r: Box)
    requires Splitting(v, seed1, seed2, i, left, right, l, r) && Weighed(v, seed1, seed2, i, left, right, l, r)
             && i < |v|
    ensures i == seed1 ==> Weighed(v, seed1, seed2, i + 1, left + [i], right, l, r)
    ensures i == seed2 ==> Weighed(v, seed1, seed2, i + 1, left, right + [i], l, r)
  {
    if i == seed1 {
      GoesLeft(Growth(v), seed1, seed2, left, right, i);
      assert i in Offsets(left, seed1);
      HullTakesCovered(l, v, left, seed1, i);
    }
    if i == seed2 {
      GoesRight(Growth(v), seed1, seed2, left, right, i);
      assert i in Offsets(right, seed2);
      HullTakesCovered(r, v, right, seed2, i);
    }
  }

  lemma WeighedOther(v: seq<Box>, seed1: nat, seed2: nat, i: nat, left: seq<nat>, right: seq<nat>, l: Box, r: Box,
                     l': Box, r': Box)
    requires Partition(left, right, i) && Weighed(v, seed1, seed2, i, left, right, l, r) && i < |v|
    requires l'.Valid() && Spans(l', l, v[i]) && r'.Valid() && Spans(r', r, v[i])
    ensures if Size(l') - Size(l) < Size(r') - Size(r) then Weighed(v, seed1, seed2, i + 1, left + [i], right, l', r)
            else Weighed(v, seed1, seed2, i + 1, left, right + [i], l, r')
  {
    GrowthOfBox(l, v, left, seed1, i, l');
    GrowthOfBox(r, v, right, seed2, i, r');
    if Size(l') - Size(l) < Size(r') - Size(r) {
      GoesLeft(Growth(v), seed1, seed2, left, right, i);
      HullTakes(l, v, left, seed1, i, l');
    } else {
      GoesRight(Growth(v), seed1, seed2, left, right, i);
      HullTakes(r, v, right, seed2, i, r');
    }
  }

  /** What a split gives: all entries in two non-empty ascending lists, and the smallest box over each. */
  ghost predicate SplitOf(v: seq<Box>, left: seq<nat>, right: seq<nat>, l: Box, r: Box) {
    && AllValid(v) && left != [] && right != [] && Partition(left, right, |v|)
    && l.Valid() && SmallestOver(l, v, Members(left))
    && r.Valid() && SmallestOver(r, v, Members(right))
  }

  lemma SplittingEnds(v: seq<Box>, seed1: nat, seed2: nat, left: seq<nat>, right: seq<nat>, l: Box, r: Box)
    requires Splitting(v, seed1, seed2, |v|, left, right, l, r) && seed1 < |v| && seed2 < |v|
    ensures SplitOf(v, left, right, l, r)
  {
    assert Offsets(left, seed1) == Members(left);
    assert Offsets(right, seed2) == Members(right);
  }

  /** The two seeds are apart, and every other entry is where the box grew less by it. */
  ghost predicate Guttman(v: seq<Box>, left: seq<nat>, right: seq<nat>) {
    exists seed1, seed2 :: SeedsOf(v, seed1, seed2) && seed1 in left && seed2 in right
      && ByGrowth(Growth(v), seed1, seed2, left, right, |v|)
  }

  /** The two lists of a split do not share memory. */
  ghost predicate Separate(left: OffsetList, right: OffsetList, n: nat)
    reads left, right
  {
    && left.Valid() && right.Valid() && left != right && left.cells != right.cells
    && left.cells.Length == n && right.cells.Length == n
  }

  /** The whole state of the second loop before offset i, and room on both lists for one more. */
  ghost predicate Standing(v: seq<Box>, seed1: nat, seed2: nat, i: nat, left: seq<nat>, right: seq<nat>, l: Box,
                           r: Box) {
    && AllValid(v) && seed1 < |v| && seed2 < |v| && seed1 != seed2 && i <= |v|
    && Splitting(v, seed1, seed2, i, left, right, l, r) && Weighed(v, seed1, seed2, i, left, right, l, r)
  }

  lemma StandingMeans(v: seq<Box>, seed1: nat, seed2: nat, i: nat, left: seq<nat>, right: seq<nat>, l: Box, r: Box)
    requires Standing(v, seed1, seed2, i, left, right, l, r)
    ensures l.Valid() && r.Valid() && (i < |v| ==> v[i].Valid() && |left| + 1 < |v| && |right| + 1 < |v|)
  {
  }

  lemma TurnOfSeed(v: seq<Box>, seed1: nat, seed2: nat, i: nat, left: seq<nat>, right: seq<nat>, l: Box, r: Box)
    requires Standing(v, seed1, seed2, i, left, right, l, r) && i < |v|
    ensures i == seed1 ==> Standing(v, seed1, seed2, i + 1, left + [i], right, l, r)
    ensures i == seed2 ==> Standing(v, seed1, seed2, i + 1, left, right + [i], l, r)
  {
    WeighedSeed(v, seed1, seed2, i, left, right, l, r);
    if i == seed1 {
      SplitSeed1(v, seed1, seed2, i, left, right, l, r);
    } else if i == seed2 {
      SplitSeed2(v, seed1, seed2, i, left, right, l, r);
    }
  }

  lemma TurnOfOther(v: seq<Box>, seed1: nat, seed2: nat, i: nat, left: seq<nat>, right: seq<nat>, l: Box, r: Box,
                    l': Box, r': Box)
    requires Standing(v, seed1, seed2, i, left, right, l, r) && i < |v| && i != seed1 && i != seed2
    requires l.Valid() && r.Valid() && l'.Valid() && Spans(l', l, v[i]) && r'.Valid() && Spans(r', r, v[i])
    ensures if Size(l') - Size(l) < Size(r') - Size(r) then Standing(v, seed1, seed2, i + 1, left + [i], right, l', r)
            else Standing(v, seed1, seed2, i + 1, left, right + [i], l, r')
  {
    SplitOther(v, seed1, seed2, i, left, right, l, r, l', r');
    WeighedOther(v, seed1, seed2, i, left, right, l, r, l', r');
  }

  /** The boxes over either side and entry i, and whether the left one grows less. */
  method Weigh(v: seq<Box>, seed1: nat, seed2: nat, i: nat, ghost left: seq<nat>, ghost right: seq<nat>, l: Box, r: Box)
    returns (unionL: Box, unionR: Box, leftGrowsLess: bool)
    requires Standing(v, seed1, seed2, i, left, right, l, r) && i < |v| && i != seed1 && i != seed2
    ensures if leftGrowsLess then Standing(v, seed1, seed2, i + 1, left + [i], right, unionL, r)
            else Standing(v, seed1, seed2, i + 1, left, right + [i], l, unionR)
  {
    StandingMeans(v, seed1, seed2, i, left, right, l, r);
    unionL := Union(l, v[i], false);
    unionR := Union(r, v[i], false);
    TurnOfOther(v, seed1, seed2, i, left, right, l, r, unionL, unionR);
    var sizeL, sizeR, sizeAlpha, sizeBeta := Sizes(l, r, unionL, unionR);
    leftGrowsLess := sizeAlpha - sizeL < sizeBeta - sizeR;
  }

  /** One list takes an offset, the other one stays as it is. */
  method PushOnto(list: OffsetList, other: OffsetList, n: nat, o: nat)
    requires Separate(list, other, n) && |list.Contents()| + 1 < n
    modifies list, list.cells
    ensures Separate(list, other, n)
    ensures list.Contents() == old(list.Contents()) + [o] && other.Contents() == old(other.Contents())
  {
    list.Push(o);
  }

  method PlaceBySize(v: seq<Box>, seed1: nat, seed2: nat, i: nat, left: OffsetList, right: OffsetList, l: Box, r: Box)
    returns (l': Box, r': Box)
    requires i < |v| && i != seed1 && i != seed2 && Separate(left, right, |v|)
    requires Standing(v, seed1, seed2, i, left.Contents(), right.Contents(), l, r)
    modifies left, right, left.cells, right.cells
    ensures Separate(left, right, |v|)
    ensures Standing(v, seed1, seed2, i + 1, left.Contents(), right.Contents(), l', r')
  {
    l', r' := l, r;
    StandingMeans(v, seed1, seed2, i, left.Contents(), right.Contents(), l, r);
    var unionL, unionR, leftGrowsLess := Weigh(v, seed1, seed2, i, left.Contents(), right.Contents(), l, r);
    if leftGrowsLess {
      l' := unionL;
      PushOnto(left, right, |v|, i);
    } else {
      r' := unionR;
      PushOnto(right, left, |v|, i);
    }
  }

  method PlaceSeed(v: seq<Box>, seed1: nat, seed2: nat, i: nat, left: OffsetList, right: OffsetList, ghost l: Box,
                   ghost r: Box)
    requires i < |v| && (i == seed1 || i == seed2) && Separate(left, right, |v|)
    requires Standing(v, seed1, seed2, i, left.Contents(), right.Contents(), l, r)
    modifies left, right, left.cells, right.cells
    ensures Separate(left, right, |v|)
    ensures Standing(v, seed1, seed2, i + 1, left.Contents(), right.Contents(), l, r)
  {
    StandingMeans(v, seed1, seed2, i, left.Contents(), right.Contents(), l, r);
    TurnOfSeed(v, seed1, seed2, i, left.Contents(), right.Contents(), l, r);
    if i == seed1 {
      PushOnto(left, right, |v|, i);
    } else {
      PushOnto(right, left, |v|, i);
    }
  }

  /** A seed goes to its own side, any other entry to the side whose box grows less. */
  method Place(v: seq<Box>, seed1: nat, seed2: nat, i: nat, left: OffsetList, right: OffsetList, l: Box, r: Box)
    returns (l': Box, r': Box)
    requires i < |v| && Separate(left, right, |v|)
    requires Standing(v, seed1, seed2, i, left.Contents(), right.Contents(), l, r)
    modifies left, right, left.cells, right.cells
    ensures Separate(left, right, |v|)
    ensures Standing(v, seed1, seed2, i + 1, left.Contents(), right.Contents(), l', r')
  {
    if i == seed1 || i == seed2 {
      l', r' := l, r;
      PlaceSeed(v, seed1, seed2, i, left, right, l, r);
    } else {
      l', r' := PlaceBySize(v, seed1, seed2, i, left, right, l, r);
    }
  }

  method Sizes(l: Box, r: Box, unionL: Box, unionR: Box)
    returns (sizeL: real, sizeR: real, sizeAlpha: real, sizeBeta: real)
    requires l.Valid() && r.Valid() && unionL.Valid() && unionR.Valid()
    ensures sizeL == Size(l) && sizeR == Size(r) && sizeAlpha == Size(unionL) && sizeBeta == Size(unionR)
  {
    sizeL := SizeOf(l);
    sizeR := SizeOf(r);
    sizeAlpha := SizeOf(unionL);
    sizeBeta := SizeOf(unionR);
  }

  method SealBoth(left: OffsetList, right: OffsetList, n: nat)
    requires Separate(left, right, n)
    modifies left.cells, right.cells
    ensures Separate(left, right, n) && left.Contents() == old(left.Contents())
            && right.Contents() == old(right.Contents())
    ensures left.cells[left.used] == 1 && right.cells[right.used] == 1
  {
    left.Seal(1);
    right.Seal(1);
  }

  lemma StandingStarts(v: seq<Box>, seed1: nat, seed2: nat, l: Box, r: Box)
    requires AllValid(v) && SeedsOf(v, seed1, seed2)
    requires l.Valid() && Spans(l, v[seed1], v[seed1]) && r.Valid() && Spans(r, v[seed2], v[seed2])
    ensures Standing(v, seed1, seed2, 1, [], [], l, r)
  {
    SideStarts(v, seed1, l);
    SideStarts(v, seed2, r);
    HullStarts(v, seed1, l);
    HullStarts(v, seed2, r);
  }

  lemma StandingEnds(v: seq<Box>, seed1: nat, seed2: nat, left: seq<nat>, right: seq<nat>, l: Box, r: Box)
    requires SeedsOf(v, seed1, seed2) && Standing(v, seed1, seed2, |v|, left, right, l, r)
    ensures SplitOf(v, left, right, l, r) && Guttman(v, left, right)
  {
    SplittingEnds(v, seed1, seed2, left, right, l, r);
  }

  /** g_cube_picksplit; behind each list stands the sentinel 1. */
  method PickSplit(v: seq<Box>) returns (left: OffsetList, right: OffsetList, datumL: Box, datumR: Box)
    requires |v| >= 3 && AllValid(v)
    ensures Separate(left, right, |v|) && SplitOf(v, left.Contents(), right.Contents(), datumL, datumR)
    ensures Guttman(v, left.Contents(), right.Contents())
    ensures left.cells[left.used] == 1 && right.cells[right.used] == 1
  {
    var seed1, seed2 := ChooseSeeds(v);
    left := new OffsetList(|v|);
    right := new OffsetList(|v|);
    datumL := Union(v[seed1], v[seed1], true);
    datumR := Union(v[seed2], v[seed2], true);
    StandingStarts(v, seed1, seed2, datumL, datumR);
    var i := 1;
    while i < |v|
      invariant 1 <= i <= |v| && fresh(left) && fresh(right) && fresh(left.cells) && fresh(right.cells)
      invariant Separate(left, right, |v|)
      invariant Standing(v, seed1, seed2, i, left.Contents(), right.Contents(), datumL, datumR)
    {
      datumL, datumR := Place(v, seed1, seed2, i, left, right, datumL, datumR);
      i := i + 1;
    }
    StandingEnds(v, seed1, seed2, left.Contents(), right.Contents(), datumL, datumR);
    SealBoth(left, right, |v|);
  }
}
