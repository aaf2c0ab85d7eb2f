/** Two neighbouring levels accepted together. Parent keys separate the items of the children below one parent page,
    also across empty pages; across parent pages nothing need separate them. */
module BtChildren {
  import opened Basics
  import opened BtPages
  import opened BtHalfDead
  import opened BtCompare
  import opened BtLockstep
  import opened BtOrder

  // ---------- what the calls for one parent page establish ----------

  /** A call that looks for a downlink ends at the child, whose high key it has compared. */
  lemma {:induction false} ChildWalkReaches(c: Call, b: nat, rightsplit: bool, first: bool, seen: seq<Visit>, fuel: nat)
    requires c.downlink != P_NONE && ChildWalk(c, b, rightsplit, first, seen, fuel).Ok?
    ensures b != P_NONE && Load(c.index, c.downlink).Ok? && HighKeyCheck(c, c.downlink, c.index[c.downlink]) == Ok(true)
    ensures ChildWalk(c, b, rightsplit, first, seen, fuel).value.0.prevRight == c.index[c.downlink].next
    decreases fuel
  {
    var p := Load(c.index, b).value;
    if b != c.downlink {
      ChildWalkReaches(c, p.next, p.incompleteSplit, false, seen + [Visit(b, c.tblk, c.off, false)], fuel - 1);
    }
  }

  /** The child at offset `off` of page p: its high key is the next separator, its items come after its own key, and it
      has a right sibling if p has a further downlink. */
  ghost predicate LinkChecked(index: Index, p: BtPage, off: nat)
    requires 1 <= off <= |p.items|
  {
    var d := p.items[off - 1].downlink;
    d != P_NONE ==>
      && Load(index, d).Ok?
      && var child := index[d];
         && (!child.incompleteSplit && !Rightmost(child) ==>
               |child.items| >= 1 && (off < |p.items| || !Rightmost(p))
                 && PivotIdentical(child.items[0], NextSeparator(p, off)))
         && (off > FirstDataKey(p) ==>
               ChildItemsCheck(KeyOf(p.items[off - 1]), child, FirstDataKey(child)) == Ok(true))
  }

  lemma {:induction false} ChildItemsCheckIsBoolean(key: Key, child: BtPage, offset: nat)
    requires 1 <= offset
    ensures ChildItemsCheck(key, child, offset) == Ok(true) || ChildItemsCheck(key, child, offset) == Corrupt
    decreases |child.items| + 1 - offset
  {
    if offset <= |child.items| {
      ChildItemsCheckIsBoolean(key, child, offset + 1);
    }
  }

  lemma DownlinkCheckMeans(index: Index, tblk: nat, p: BtPage, off: nat, lowkey: Option<Item>, st: CheckState,
                           seen: seq<Visit>, fuel: nat)
    requires !p.leaf && FirstDataKey(p) <= off <= |p.items| && p.items[off - 1].downlink != P_NONE
    requires DownlinkCheck(index, tblk, p, off, lowkey, st, seen, fuel).Ok?
    ensures LinkChecked(index, p, off) && st.prevRight != P_NONE
    ensures p.items[off - 1].downlink in index
    ensures DownlinkCheck(index, tblk, p, off, lowkey, st, seen, fuel).value.0.prevRight
         == index[p.items[off - 1].downlink].next
  {
    var c := Call(index, tblk, p, off, p.items[off - 1].downlink, lowkey, st);
    if st.prevRight == INVALID_BLOCK {
      ChildWalkReaches(c, c.downlink, false, true, seen, fuel);
    } else {
      ChildWalkReaches(c, st.prevRight, st.prevSplit, true, seen, fuel);
    }
    ChildItemsCheckIsBoolean(KeyOf(p.items[off - 1]), index[c.downlink], FirstDataKey(index[c.downlink]));
  }

  ghost predicate NonzeroFrom(p: BtPage, off: nat) {
    forall i :: off - 1 <= i < |p.items| && i >= 0 ==> p.items[i].downlink != P_NONE
  }

  ghost predicate HasRight(index: Index, p: BtPage, off: nat)
    requires 1 <= off <= |p.items|
  {
    p.items[off - 1].downlink in index && !Rightmost(index[p.items[off - 1].downlink])
  }

  lemma {:induction false} TargetPassMeans(index: Index, tblk: nat, p: BtPage, off: nat, lowkey: Option<Item>,
                                           st: CheckState,
                                           seen: seq<Visit>, fuel: nat, o: nat)
    requires !p.leaf && FirstDataKey(p) <= off <= o <= |p.items| && NonzeroFrom(p, off)
    requires TargetPass(index, tblk, p, off, lowkey, st, seen, fuel).Ok?
    ensures LinkChecked(index, p, o) && (o < |p.items| ==> HasRight(index, p, o))
    decreases o - off
  {
    var (st1, seen1) := DownlinkCheck(index, tblk, p, off, lowkey, st, seen, fuel).value;
    DownlinkCheckMeans(index, tblk, p, off, lowkey, st, seen, fuel);
    if off < o {
      TargetPassMeans(index, tblk, p, off + 1, lowkey, st1, seen1, fuel, o);
    } else if o < |p.items| {
      DownlinkCheckMeans(index, tblk, p, off + 1, lowkey, st1, seen1, fuel);
    }
  }

  /** All children of a parent page are checked, if no downlink is 0. */
  ghost predicate PageChecked(index: Index, t: nat) {
    t in index &&
    var p := index[t];
    !Ignore(p) && !p.leaf && NonzeroFrom(p, FirstDataKey(p)) ==>
      forall o :: FirstDataKey(p) <= o <= |p.items| ==>
        LinkChecked(index, p, o) && (o < |p.items| ==> HasRight(index, p, o))
  }

  ghost function CheckedPoints(index: Index): iset<Point> {
    iset x: Point | forall i :: 0 <= i < |x.targets| ==> PageChecked(index, x.targets[i])
  }

  lemma TurnChecks(index: Index, level: Level, x: Point, y: Point, fuel: nat)
    requires Turns(index, level, x, y, fuel)
    ensures PageChecked(index, x.s.current)
  {
    var p := index[x.s.current];
    if !Ignore(p) && !p.leaf && NonzeroFrom(p, FirstDataKey(p)) {
      forall o | FirstDataKey(p) <= o <= |p.items|
        ensures LinkChecked(index, p, o) && (o < |p.items| ==> HasRight(index, p, o))
      {
        TargetPassMeans(index, x.s.current, p, FirstDataKey(p), x.lowkey, x.st, x.seen, fuel, o);
      }
    }
  }

  lemma CheckedIsKept(index: Index, level: Level)
    ensures Closed(CheckedPoints(index), AllTurns(index, level))
  {
    forall x, y | (x, y) in AllTurns(index, level) && x in CheckedPoints(index)
      ensures y in CheckedPoints(index)
    {
      var fuel :| Turns(index, level, x, y, fuel);
      TurnChecks(index, level, x, y, fuel);
    }
  }

  lemma AcceptedIsChecked(index: Index, level: Level, leftmost: nat, fuel: nat, i: nat)
    requires leftmost != P_NONE && CheckLevel(index, level, leftmost, fuel).Ok?
    requires i < |CheckLevel(index, level, leftmost, fuel).value.0|
    ensures PageChecked(index, CheckLevel(index, level, leftmost, fuel).value.0[i])
  {
    var ps := PassHasTrace(index, level, StartPoint(leftmost), fuel);
    CheckedIsKept(index, level);
    KeptAlong(ps, AllTurns(index, level), CheckedPoints(index));
  }

  // ---------- order across the children of one page ----------

  lemma {:induction false} ChildItemsCheckAt(key: Key, child: BtPage, offset: nat, o: nat)
    requires 1 <= offset <= o <= |child.items| && FirstReal(child) <= o
             && ChildItemsCheck(key, child, offset) == Ok(true)
    ensures InvariantL(key, child, o)
    decreases o - offset
  {
    if offset < o {
      ChildItemsCheckAt(key, child, offset + 1, o);
    }
  }

  predicate AtMost(s: seq<int>, t: seq<int>) {
    s == t || Before(s, t)
  }

  lemma AtMostBefore(s: seq<int>, t: seq<int>, u: seq<int>)
    requires AtMost(s, t) && Before(t, u)
    ensures Before(s, u)
  {
    if s != t {
      BeforeIsTransitive(s, t, u);
    }
  }

  /** An item is at most its page's high key. */
  lemma AtMostHighKey(index: Index, nkey: nat, bound: nat, x: nat, o: nat)
    requires Accepted(index, nkey, bound, x) && !Ignore(index[x]) && !Rightmost(index[x])
    requires FirstReal(index[x]) <= o <= |index[x].items|
    ensures AtMost(Rank(index[x].items[o - 1]), Rank(index[x].items[0]))
  {
    var p, it := index[x], index[x].items[o - 1];
    AllBoundedAt(nkey, p, FirstReal(p), o);
    BeforeIsTotal(TopRank(it), Rank(p.items[0]));
    if Before(TopRank(it), Rank(p.items[0])) {
      RankUpToTop(it, Rank(p.items[0]));
    } else {
      RankAtMostTop(it);
    }
  }

  lemma RankAtMostTop(it: Item)
    requires Ascending(it.tids)
    ensures AtMost(Rank(it), TopRank(it))
  {
    if it.tids != [] {
      AscendingFirstLast(it.tids);
      CompareAttsSame(it.atts);
      BeforeByParts(it.atts, [it.tids[0]], it.atts, [it.tids[|it.tids| - 1]]);
      BeforeSingles(it.tids[0], it.tids[|it.tids| - 1]);
    }
  }

  /** The items of a page increase from one offset to a later one. */
  lemma PageIncreases(index: Index, nkey: nat, bound: nat, t: nat, a: nat, b: nat)
    requires Accepted(index, nkey, bound, t) && !Ignore(index[t]) && FirstReal(index[t]) <= a <= b <= |index[t].items|
    ensures AtMost(Rank(index[t].items[a - 1]), Rank(index[t].items[b - 1]))
  {
    var p := index[t];
    if a < b {
      IncreasingFar(RealItems(p), a - FirstReal(p), b - FirstReal(p));
    }
  }

  lemma AcceptedIsShaped(index: Index, nkey: nat, bound: nat, t: nat, o: nat)
    requires Accepted(index, nkey, bound, t) && !Ignore(index[t]) && FirstReal(index[t]) <= o <= |index[t].items|
    ensures var it := index[t].items[o - 1];
            Shaped(nkey, it.atts, it.tids) && Shaped(nkey, KeyOf(it).atts, TidOf(KeyOf(it)))
  {
    AllBoundedAt(nkey, index[t], FirstReal(index[t]), o);
    WellformedIsShaped(nkey, index[t], o);
  }

  lemma KeyBefore(nkey: nat, it: Item, q: BtPage, o: nat)
    requires FirstReal(q) <= o <= |q.items| && Shaped(nkey, KeyOf(it).atts, TidOf(KeyOf(it)))
    requires Shaped(nkey, q.items[o - 1].atts, q.items[o - 1].tids) && InvariantL(KeyOf(it), q, o)
    ensures Before(Rank(it), Rank(q.items[o - 1]))
  {
    TestL(nkey, KeyOf(it), q, o);
    KeyRank(it);
  }

  /** A downlink's key comes before the items of its child. */
  lemma KeyBeforeItems(index: Index, nkey: nat, bound: nat, t: nat, b: nat, y: nat, o: nat)
    requires Accepted(index, nkey, bound, t) && !Ignore(index[t]) && FirstReal(index[t]) <= b <= |index[t].items|
    requires Accepted(index, nkey, bound, y) && !Ignore(index[y]) && FirstReal(index[y]) <= o <= |index[y].items|
    requires ChildItemsCheck(KeyOf(index[t].items[b - 1]), index[y], FirstDataKey(index[y])) == Ok(true)
    ensures Before(Rank(index[t].items[b - 1]), Rank(index[y].items[o - 1]))
  {
    AcceptedIsShaped(index, nkey, bound, t, b);
    AcceptedIsShaped(index, nkey, bound, y, o);
    ChildItemsCheckAt(KeyOf(index[t].items[b - 1]), index[y], FirstDataKey(index[y]), o);
    KeyBefore(nkey, index[t].items[b - 1], index[y], o);
  }

  /** Offsets a < b of an internal page t with children x and y, all on accepted pages. */
  ghost predicate Siblings(index: Index, nkey: nat, bound: nat, t: nat, a: nat, b: nat) {
    && Accepted(index, nkey, bound, t) && !Ignore(index[t]) && !index[t].leaf && PageChecked(index, t)
    && NonzeroFrom(index[t], FirstDataKey(index[t])) && FirstDataKey(index[t]) <= a < b <= |index[t].items|
    && Accepted(index, nkey, bound, index[t].items[a - 1].downlink)
      && Accepted(index, nkey, bound, index[t].items[b - 1].downlink)
  }

  lemma LeftOfSeparator(index: Index, nkey: nat, bound: nat, t: nat, a: nat, b: nat, i: nat)
    requires Siblings(index, nkey, bound, t, a, b)
    requires var x := index[t].items[a - 1].downlink;
             !Ignore(index[x]) && !index[x].incompleteSplit && FirstReal(index[x]) <= i <= |index[x].items|
    ensures AtMost(Rank(index[index[t].items[a - 1].downlink].items[i - 1]), Rank(index[t].items[a]))
  {
    var p := index[t];
    var x := p.items[a - 1].downlink;
    assert LinkChecked(index, p, a) && HasRight(index, p, a);
    AtMostHighKey(index, nkey, bound, x, i);
    assert Rank(index[x].items[0]) == Rank(p.items[a]);
  }

  lemma RightOfKey(index: Index, nkey: nat, bound: nat, t: nat, a: nat, b: nat, j: nat)
    requires Siblings(index, nkey, bound, t, a, b)
    requires var y := index[t].items[b - 1].downlink; !Ignore(index[y]) && FirstReal(index[y]) <= j <= |index[y].items|
    ensures Before(Rank(index[t].items[b - 1]), Rank(index[index[t].items[b - 1].downlink].items[j - 1]))
  {
    assert LinkChecked(index, index[t], b);
    KeyBeforeItems(index, nkey, bound, t, b, index[t].items[b - 1].downlink, j);
  }

  lemma SiblingItems(index: Index, nkey: nat, bound: nat, t: nat, a: nat, b: nat, i: nat, j: nat)
    requires Siblings(index, nkey, bound, t, a, b)
    requires var x, y := index[t].items[a - 1].downlink, index[t].items[b - 1].downlink;
             && !Ignore(index[x]) && !index[x].incompleteSplit && FirstReal(index[x]) <= i <= |index[x].items|
             && !Ignore(index[y]) && FirstReal(index[y]) <= j <= |index[y].items|
    ensures var x, y := index[t].items[a - 1].downlink, index[t].items[b - 1].downlink;
            Before(Rank(index[x].items[i - 1]), Rank(index[y].items[j - 1]))
  {
    var p := index[t];
    var x, y := p.items[a - 1].downlink, p.items[b - 1].downlink;
    LeftOfSeparator(index, nkey, bound, t, a, b, i);
    PageIncreases(index, nkey, bound, t, a + 1, b);
    RightOfKey(index, nkey, bound, t, a, b, j);
    AtMostBefore(Rank(p.items[a]), Rank(p.items[b - 1]), Rank(index[y].items[j - 1]));
    AtMostBefore(Rank(index[x].items[i - 1]), Rank(p.items[a]), Rank(index[y].items[j - 1]));
  }

  lemma {:induction false} SameChain(index: Index, u: seq<nat>, v: seq<nat>, i: nat)
    requires Chain(index, u) && Chain(index, v) && u[0] == v[0] && i < |u|
    ensures i < |v| && u[i] == v[i]
  {
    if i > 0 {
      SameChain(index, u, v, i - 1);
      assert index[u[i - 1]].next == u[i - 1 + 1];
      assert i < |v| ==> index[v[i - 1]].next == v[i - 1 + 1];
    }
  }

  lemma DownlinksAreNonzero(index: Index, leftmost: nat, w: seq<nat>, i: nat)
    requires NoReservedLinks(index, leftmost) && Chain(index, w) && w[0] == leftmost && i < |w|
    ensures !Ignore(index[w[i]]) && !index[w[i]].leaf ==> NonzeroFrom(index[w[i]], FirstDataKey(index[w[i]]))
  {
    assert RightPath(index, w[..i + 1], leftmost);
    assert SoundDownlinks(index, w[..i + 1][i]);
  }

  /** The parent level passes all checks, and the child level the order checks. */
  ghost predicate BothAccepted(index: Index, nkey: nat, bound: nat, level: Level, leftmost: nat, fuel: nat,
                               parents: seq<nat>,
                               below: Level, first: nat, children: seq<nat>) {
    && level.level >= 1 && leftmost != P_NONE && first != P_NONE && NoReservedLinks(index, leftmost)
    && CheckLevel(index, level, leftmost, fuel).Ok? && AcceptsLevel(index, nkey, bound, level, leftmost, fuel, parents)
    && AcceptsLevel(index, nkey, bound, below, first, fuel, children)
  }

  /** In an accepted pair of levels, any two children of one parent page are in order, item by item, however many empty
      pages lie between them; only the left one must not be half of an unfinished split. */
  lemma ChildrenInOrder(index: Index, nkey: nat, bound: nat, level: Level, leftmost: nat, fuel: nat, parents: seq<nat>,
                        below: Level, first: nat, children: seq<nat>, k: nat, a: nat, b: nat, i: nat, j: nat)
    requires BothAccepted(index, nkey, bound, level, leftmost, fuel, parents, below, first, children)
    requires k < |parents| && parents[k] in index && !Ignore(index[parents[k]]) && !index[parents[k]].leaf
    requires FirstDataKey(index[parents[k]]) <= a < b <= |index[parents[k]].items|
    requires var x, y := index[parents[k]].items[a - 1].downlink, index[parents[k]].items[b - 1].downlink;
             && x in children && x in index && !Ignore(index[x]) && !index[x].incompleteSplit
             && y in children && y in index && !Ignore(index[y])
             && FirstReal(index[x]) <= i <= |index[x].items| && FirstReal(index[y]) <= j <= |index[y].items|
    ensures var x, y := index[parents[k]].items[a - 1].downlink, index[parents[k]].items[b - 1].downlink;
            Before(Rank(index[x].items[i - 1]), Rank(index[y].items[j - 1]))
  {
    AcceptedLevelMeans(index, nkey, bound, level, leftmost, fuel, parents);
    AcceptedLevelMeans(index, nkey, bound, below, first, fuel, children);
    AcceptedLevelIsLockstep(index, level, leftmost, fuel);
    SameChain(index, parents, CheckLevel(index, level, leftmost, fuel).value.0, k);
    AcceptedIsChecked(index, level, leftmost, fuel, k);
    DownlinksAreNonzero(index, leftmost, parents, k);
    SiblingItems(index, nkey, bound, parents[k], a, b, i, j);
  }

  // ---------- an empty page at the border of two parent pages breaks the chain of comparisons ----------

  /** Leaves 1, 2, 3 with the items 5, none, 3; parent 4 of the first two leaves and parent 5 of the third; root 6. */
  const GAP: Index :=
    map[0 := METAPAGE,
        1 := Live(0, 2, 0, false, [Item([10], [], 0), Item([5], [1], 0)]),
        2 := Live(1, 3, 0, false, [Item([20], [], 0)]),
        3 := Live(2, 0, 0, false, [Item([3], [1], 0)]),
        4 := Live(0, 5, 1, false, [Item([20], [], 0), Item([], [], 1), Item([10], [], 2)]),
        5 := Live(4, 0, 1, false, [Item([], [], 3)]),
        6 := Live(0, 0, 2, true, [Item([], [], 4), Item([20], [], 5)])]

  lemma GapLoads()
    ensures forall b :: 1 <= b <= 6 ==> Load(GAP, b) == Ok(GAP[b])
    ensures forall b :: b in {1, 4, 6} ==> LeftmostIgnoringHalfDead(GAP, b, 0) == Ok(true)
  {
  }

  lemma GapLeavesPass()
    ensures PageCheck(GAP, 1, 1, GAP[1]) == Ok(true)
    ensures PageCheck(GAP, 1, 1, GAP[2]) == Ok(true)
    ensures PageCheck(GAP, 1, 1, GAP[3]) == Ok(true)
  {
    assert RightPage(GAP, 2, 1) == Ok(GAP[2]);
    assert RightKey(GAP, GAP[1], 1) == Ok(None);
    assert CompareAtts([5], [10]) == -1;
    assert HighKeyTest(GAP[1], GAP[1].items[1]);
    assert ItemsCheck(GAP, 1, 1, GAP[1], 2) == Ok(true);
    assert ItemsCheck(GAP, 1, 1, GAP[3], 1) == Ok(true);
  }

  lemma GapParentsPass()
    ensures PageCheck(GAP, 1, 1, GAP[4]) == Ok(true)
    ensures PageCheck(GAP, 1, 1, GAP[5]) == Ok(true)
    ensures PageCheck(GAP, 1, 1, GAP[6]) == Ok(true)
  {
    assert RightPage(GAP, 5, 1) == Ok(GAP[5]);
    assert RightKey(GAP, GAP[4], 1) == Ok(None);
    assert CompareAtts([10], [20]) == -1;
    assert HighKeyTest(GAP[4], GAP[4].items[2]);
    assert ItemsCheck(GAP, 1, 1, GAP[4], 3) == Ok(true);
    assert ItemsCheck(GAP, 1, 1, GAP[4], 2) == Ok(true);
    assert ItemsCheck(GAP, 1, 1, GAP[5], 1) == Ok(true);
    assert ItemsCheck(GAP, 1, 1, GAP[6], 2) == Ok(true);
    assert ItemsCheck(GAP, 1, 1, GAP[6], 1) == Ok(true);
  }

  lemma GapTurns()
    ensures LevelTurn(GAP, Level(0, false), LevelState(0, 1, INVALID_BLOCK), GAP[1]) == Ok(LevelState(1, 2, 0))
    ensures LevelTurn(GAP, Level(0, false), LevelState(1, 2, 0), GAP[2]) == Ok(LevelState(2, 3, 0))
    ensures LevelTurn(GAP, Level(0, false), LevelState(2, 3, 0), GAP[3]) == Ok(LevelState(3, 0, 0))
    ensures LevelTurn(GAP, Level(1, false), LevelState(0, 4, INVALID_BLOCK), GAP[4]) == Ok(LevelState(4, 5, 1))
    ensures LevelTurn(GAP, Level(1, false), LevelState(4, 5, 1), GAP[5]) == Ok(LevelState(5, 0, 1))
    ensures LevelTurn(GAP, Level(2, true), LevelState(0, 6, INVALID_BLOCK), GAP[6]) == Ok(LevelState(6, 0, 4))
  {
    GapLoads();
  }

  lemma GapOrdered()
    ensures AcceptsLevel(GAP, 1, 1, Level(2, true), 6, 1, [6])
    ensures AcceptsLevel(GAP, 1, 1, Level(1, false), 4, 2, [4, 5])
  {
    GapLoads();
    GapTurns();
    GapParentsPass();
    assert [] + [6] == [6] && [] + [4] == [4] && [4] + [5] == [4, 5];
    assert OrderPass(GAP, 1, 1, Level(1, false), LevelState(4, 5, 1), [4], 1) == Ok([4, 5]);
  }

  lemma GapLeavesOrdered()
    ensures AcceptsLevel(GAP, 1, 1, Level(0, false), 1, 3, [1, 2, 3])
  {
    GapLoads();
    GapTurns();
    GapLeavesPass();
    assert [] + [1] == [1] && [1] + [2] == [1, 2] && [1, 2] + [3] == [1, 2, 3];
    assert OrderPass(GAP, 1, 1, Level(0, false), LevelState(2, 3, 0), [1, 2], 1) == Ok([1, 2, 3]);
    assert OrderPass(GAP, 1, 1, Level(0, false), LevelState(1, 2, 0), [1], 2) == Ok([1, 2, 3]);
  }

  /** One call that finds its child at once. */
  lemma FoundAtOnce(index: Index, t: nat, off: nat, lowkey: Option<Item>, st: CheckState, seen: seq<Visit>, fuel: nat)
    requires t in index && 1 <= off <= |index[t].items| && fuel > 0
    requires var p, d := index[t], index[t].items[off - 1].downlink;
             && d != P_NONE && d != INVALID_BLOCK && Load(index, d).Ok? && !index[d].deleted
             && st.prevRight == (if seen == [] then INVALID_BLOCK else d)
             && (seen == [] ==> LeftmostIgnoringHalfDead(index, d, index[d].prev) == Ok(true))
             && index[d].level == LevelBelow(p.level) && d != index[d].prev
             && HighKeyCheck(Call(index, t, p, off, d, lowkey, st), d, index[d]) == Ok(true)
             && (NegativeInfinity(p, off)
                 || ChildItemsCheck(KeyOf(p.items[off - 1]), index[d], FirstDataKey(index[d])) == Ok(true))
    ensures var d := index[t].items[off - 1].downlink;
            DownlinkCheck(index, t, index[t], off, lowkey, st, seen, fuel) ==
              Ok((CheckState(index[d].next, index[d].incompleteSplit), seen + [Visit(d, t, off, true)]))
    ensures var d := index[t].items[off - 1].downlink;
            TargetPass(index, t, index[t], off, lowkey, st, seen, fuel) ==
              TargetPass(index, t, index[t], off + 1, lowkey, CheckState(index[d].next, index[d].incompleteSplit),
                         seen + [Visit(d, t, off, true)], fuel)
  {
    var p, d := index[t], index[t].items[off - 1].downlink;
    var c := Call(index, t, p, off, d, lowkey, st);
    assert VisitCheck(c, d, index[d], if seen == [] then false else st.prevSplit, true, fuel) == Ok(true);
    assert ChildHighkeyCheck(c, seen, fuel)
        == Ok((CheckState(index[d].next, index[d].incompleteSplit), seen + [Visit(d, t, off, true)]));
  }

  /** The final call on a rightmost page, when the last child had no right sibling. */
  lemma PassEnds(index: Index, t: nat, lowkey: Option<Item>, seen: seq<Visit>, fuel: nat)
    requires t in index && Rightmost(index[t]) && seen != [] && fuel > 0
    ensures TargetPass(index, t, index[t], |index[t].items| + 1, lowkey, CheckState(P_NONE, false), seen, fuel)
            == Ok((INITIAL, seen))
  {
  }

  lemma GapRootLinks()
    ensures CheckLevel(GAP, Level(2, true), 6, 1) == Ok(([6], [Visit(4, 6, 1, true), Visit(5, 6, 2, true)]))
  {
    GapLoads();
    GapTurns();
    var seen1, seen2 := [Visit(4, 6, 1, true)], [Visit(4, 6, 1, true), Visit(5, 6, 2, true)];
    assert [] + seen1 == seen1 && seen1 + [Visit(5, 6, 2, true)] == seen2 && [] + [6] == [6];
    FoundAtOnce(GAP, 6, 1, None, INITIAL, [], 1);
    assert ChildItemsCheck(KeyOf(GAP[6].items[1]), GAP[5], 1) == Ok(true);
    FoundAtOnce(GAP, 6, 2, None, CheckState(5, false), seen1, 1);
    PassEnds(GAP, 6, None, seen2, 1);
    assert TargetPass(GAP, 6, GAP[6], 2, None, CheckState(5, false), seen1, 1) == Ok((INITIAL, seen2));
    assert TargetPass(GAP, 6, GAP[6], 1, None, INITIAL, [], 1) == Ok((INITIAL, seen2));
  }

  lemma GapLeftParentLinks()
    ensures TargetPass(GAP, 4, GAP[4], 2, None, INITIAL, [], 2)
         == Ok((CheckState(3, false), [Visit(1, 4, 2, true), Visit(2, 4, 3, true)]))
  {
    GapLoads();
    var seen1, seen2 := [Visit(1, 4, 2, true)], [Visit(1, 4, 2, true), Visit(2, 4, 3, true)];
    assert [] + seen1 == seen1 && seen1 + [Visit(2, 4, 3, true)] == seen2;
    FoundAtOnce(GAP, 4, 2, None, INITIAL, [], 2);
    assert ChildItemsCheck(KeyOf(GAP[4].items[2]), GAP[2], 2) == Ok(true);
    FoundAtOnce(GAP, 4, 3, None, CheckState(2, false), seen1, 2);
    assert TargetPass(GAP, 4, GAP[4], 4, None, CheckState(3, false), seen2, 2) == Ok((CheckState(3, false), seen2));
    assert TargetPass(GAP, 4, GAP[4], 3, None, CheckState(2, false), seen1, 2) == Ok((CheckState(3, false), seen2));
  }

  lemma GapRightParentLinks()
    ensures var seen := [Visit(1, 4, 2, true), Visit(2, 4, 3, true)];
            TargetPass(GAP, 5, GAP[5], 1, Some(GAP[4].items[0]), CheckState(3, false), seen, 1) ==
              Ok((INITIAL, seen + [Visit(3, 5, 1, true)]))
  {
    GapLoads();
    var seen, low := [Visit(1, 4, 2, true), Visit(2, 4, 3, true)], Some(GAP[4].items[0]);
    FoundAtOnce(GAP, 5, 1, low, CheckState(3, false), seen, 1);
    PassEnds(GAP, 5, low, seen + [Visit(3, 5, 1, true)], 1);
  }

  lemma GapParentLinks()
    ensures CheckLevel(GAP, Level(1, false), 4, 2)
         == Ok(([4, 5], [Visit(1, 4, 2, true), Visit(2, 4, 3, true), Visit(3, 5, 1, true)]))
  {
    GapLoads();
    GapTurns();
    GapLeftParentLinks();
    GapRightParentLinks();
    var seen, low := [Visit(1, 4, 2, true), Visit(2, 4, 3, true)], Some(GAP[4].items[0]);
    assert seen + [Visit(3, 5, 1, true)] == [Visit(1, 4, 2, true), Visit(2, 4, 3, true), Visit(3, 5, 1, true)];
    assert [] + [4] == [4] && [4] + [5] == [4, 5];
    assert LowKey(GAP[4]) == Ok(low) && LowKey(GAP[5]) == Ok(None);
    assert LevelPass(GAP, Level(1, false), LevelState(4, 5, 1), low, CheckState(3, false), [4], seen, 1)
        == Ok(([4, 5], seen + [Visit(3, 5, 1, true)]));
  }

  /** The items of a live leaf are those behind its high key. */
  lemma LeafItems(index: Index, b: nat)
    requires b in index && !Ignore(index[b]) && index[b].leaf && FirstDataKey(index[b]) <= |index[b].items| + 1
    ensures LiveItems(index, b) == index[b].items[FirstDataKey(index[b]) - 1..]
  {
  }

  lemma ItemsOfThree(index: Index, a: nat, b: nat, c: nat)
    requires a in index && b in index && c in index
    ensures LevelItems(index, [a, b, c]) == LiveItems(index, a) + (LiveItems(index, b) + LiveItems(index, c))
  {
    assert [a, b, c][1..] == [b, c] && [b, c][1..] == [c] && [c][1..] == [];
    assert LevelItems(index, [c]) == LiveItems(index, c);
  }

  lemma GapItems()
    ensures LevelItems(GAP, [1, 2, 3]) == [Item([5], [1], 0), Item([3], [1], 0)]
  {
    ItemsOfThree(GAP, 1, 2, 3);
    GapLiveItems();
  }

  lemma GapLiveItems()
    ensures LiveItems(GAP, 1) == [Item([5], [1], 0)] && LiveItems(GAP, 2) == []
            && LiveItems(GAP, 3) == [Item([3], [1], 0)]
  {
    LeafItems(GAP, 1);
    LeafItems(GAP, 2);
    LeafItems(GAP, 3);
  }

  lemma Decreasing()
    ensures !Increasing([Item([5], [1], 0), Item([3], [1], 0)])
  {
    var items := [Item([5], [1], 0), Item([3], [1], 0)];
    assert Rank(items[0]) == [5, 1] && Rank(items[1]) == [3, 1];
    assert items[1 - 1] == items[0] && !Before([5, 1], [3, 1]);
  }

  /** All levels of the tree pass all checks, from the root down, although the items of the leaves decrease. */
  lemma GapAccepted()
    ensures CheckLevel(GAP, Level(2, true), 6, 1).Ok? && AcceptsLevel(GAP, 1, 1, Level(2, true), 6, 1, [6])
    ensures CheckLevel(GAP, Level(1, false), 4, 2).Ok? && AcceptsLevel(GAP, 1, 1, Level(1, false), 4, 2, [4, 5])
    ensures AcceptsLevel(GAP, 1, 1, Level(0, false), 1, 3, [1, 2, 3])
    ensures !Increasing(LevelItems(GAP, [1, 2, 3]))
  {
    GapRootLinks();
    GapParentLinks();
    GapOrdered();
    GapLeavesOrdered();
    GapItems();
    Decreasing();
  }

  // ---------- a downlink key of its own does not help the page right of the gap ----------

  /** Leaves 1, 2, 3 with the items 15, none, 13; parent 4 of the first leaf, and parent 5 of the other two, where
      leaf 3 has the downlink key 12. Their parents 6 and 7 hold only downlinks of negative infinity; 8 is the root. */
  const BORDER: Index :=
    map[0 := METAPAGE,
        1 := Live(0, 2, 0, false, [Item([20], [], 0), Item([15], [1], 0)]),
        2 := Live(1, 3, 0, false, [Item([12], [], 0)]),
        3 := Live(2, 0, 0, false, [Item([13], [1], 0)]),
        4 := Live(0, 5, 1, false, [Item([20], [], 0), Item([], [], 1)]),
        5 := Live(4, 0, 1, false, [Item([], [], 2), Item([12], [], 3)]),
        6 := Live(0, 7, 2, false, [Item([20], [], 0), Item([], [], 4)]),
        7 := Live(6, 0, 2, false, [Item([], [], 5)]),
        8 := Live(0, 0, 3, true, [Item([], [], 6), Item([20], [], 7)])]

  lemma BorderLoads()
    ensures forall b :: 1 <= b <= 8 ==> Load(BORDER, b) == Ok(BORDER[b])
    ensures forall b :: b in {1, 4, 6, 8} ==> LeftmostIgnoringHalfDead(BORDER, b, 0) == Ok(true)
  {
  }

  lemma BorderTurns()
    ensures LevelTurn(BORDER, Level(0, false), LevelState(0, 1, INVALID_BLOCK), BORDER[1]) == Ok(LevelState(1, 2, 0))
    ensures LevelTurn(BORDER, Level(0, false), LevelState(1, 2, 0), BORDER[2]) == Ok(LevelState(2, 3, 0))
    ensures LevelTurn(BORDER, Level(0, false), LevelState(2, 3, 0), BORDER[3]) == Ok(LevelState(3, 0, 0))
    ensures LevelTurn(BORDER, Level(1, false), LevelState(0, 4, INVALID_BLOCK), BORDER[4]) == Ok(LevelState(4, 5, 1))
    ensures LevelTurn(BORDER, Level(1, false), LevelState(4, 5, 1), BORDER[5]) == Ok(LevelState(5, 0, 1))
  {
    BorderLoads();
  }

  lemma BorderTopTurns()
    ensures LevelTurn(BORDER, Level(2, false), LevelState(0, 6, INVALID_BLOCK), BORDER[6]) == Ok(LevelState(6, 7, 4))
    ensures LevelTurn(BORDER, Level(2, false), LevelState(6, 7, 4), BORDER[7]) == Ok(LevelState(7, 0, 4))
    ensures LevelTurn(BORDER, Level(3, true), LevelState(0, 8, INVALID_BLOCK), BORDER[8]) == Ok(LevelState(8, 0, 6))
  {
    BorderLoads();
  }

  lemma BorderTopPass()
    ensures forall b :: 6 <= b <= 8 ==> PageCheck(BORDER, 1, 1, BORDER[b]) == Ok(true)
  {
    assert ItemsCheck(BORDER, 1, 1, BORDER[6], 2) == Ok(true);
    assert ItemsCheck(BORDER, 1, 1, BORDER[7], 1) == Ok(true);
    assert ItemsCheck(BORDER, 1, 1, BORDER[8], 2) == Ok(true);
    assert ItemsCheck(BORDER, 1, 1, BORDER[8], 1) == Ok(true);
  }

  lemma BorderTopOrdered()
    ensures AcceptsLevel(BORDER, 1, 1, Level(3, true), 8, 1, [8])
    ensures AcceptsLevel(BORDER, 1, 1, Level(2, false), 6, 2, [6, 7])
  {
    BorderLoads();
    BorderTopTurns();
    BorderTopPass();
    assert [] + [8] == [8] && [] + [6] == [6] && [6] + [7] == [6, 7];
    assert OrderPass(BORDER, 1, 1, Level(2, false), LevelState(6, 7, 4), [6], 1) == Ok([6, 7]);
  }

  lemma BorderRootLinks()
    ensures CheckLevel(BORDER, Level(3, true), 8, 1).Ok?
  {
    BorderLoads();
    BorderTopTurns();
    var seen1, seen2 := [Visit(6, 8, 1, true)], [Visit(6, 8, 1, true), Visit(7, 8, 2, true)];
    assert [] + seen1 == seen1 && seen1 + [Visit(7, 8, 2, true)] == seen2;
    FoundAtOnce(BORDER, 8, 1, None, INITIAL, [], 1);
    assert ChildItemsCheck(KeyOf(BORDER[8].items[1]), BORDER[7], 1) == Ok(true);
    FoundAtOnce(BORDER, 8, 2, None, CheckState(7, false), seen1, 1);
    PassEnds(BORDER, 8, None, seen2, 1);
    assert TargetPass(BORDER, 8, BORDER[8], 2, None, CheckState(7, false), seen1, 1) == Ok((INITIAL, seen2));
    assert TargetPass(BORDER, 8, BORDER[8], 1, None, INITIAL, [], 1) == Ok((INITIAL, seen2));
  }

  lemma BorderTopLeftLinks()
    ensures TargetPass(BORDER, 6, BORDER[6], 2, None, INITIAL, [], 2)
            == Ok((CheckState(5, false), [Visit(4, 6, 2, true)]))
  {
    BorderLoads();
    var seen := [Visit(4, 6, 2, true)];
    assert [] + seen == seen;
    FoundAtOnce(BORDER, 6, 2, None, INITIAL, [], 2);
    assert TargetPass(BORDER, 6, BORDER[6], 3, None, CheckState(5, false), seen, 2) == Ok((CheckState(5, false), seen));
  }

  lemma BorderTopRightLinks()
    ensures TargetPass(BORDER, 7, BORDER[7], 1, Some(BORDER[6].items[0]), CheckState(5, false), [Visit(4, 6, 2, true)],
                       1) ==
              Ok((INITIAL, [Visit(4, 6, 2, true), Visit(5, 7, 1, true)]))
  {
    BorderLoads();
    var low := Some(BORDER[6].items[0]);
    var seen1, seen2 := [Visit(4, 6, 2, true)], [Visit(4, 6, 2, true), Visit(5, 7, 1, true)];
    assert seen1 + [Visit(5, 7, 1, true)] == seen2;
    FoundAtOnce(BORDER, 7, 1, low, CheckState(5, false), seen1, 1);
    PassEnds(BORDER, 7, low, seen2, 1);
  }

  lemma BorderTopLinks()
    ensures CheckLevel(BORDER, Level(2, false), 6, 2).Ok?
  {
    BorderLoads();
    BorderTopTurns();
    BorderTopLeftLinks();
    BorderTopRightLinks();
    var seen := [Visit(4, 6, 2, true)];
    assert LowKey(BORDER[6]) == Ok(Some(BORDER[6].items[0])) && LowKey(BORDER[7]) == Ok(None);
    assert LevelPass(BORDER, Level(2, false), LevelState(6, 7, 4), Some(BORDER[6].items[0]), CheckState(5, false),
                     [] + [6], seen, 1).Ok?;
  }

  lemma BorderLeavesPass()
    ensures PageCheck(BORDER, 1, 1, BORDER[1]) == Ok(true)
    ensures PageCheck(BORDER, 1, 1, BORDER[2]) == Ok(true)
    ensures PageCheck(BORDER, 1, 1, BORDER[3]) == Ok(true)
  {
    assert RightPage(BORDER, 2, 1) == Ok(BORDER[2]);
    assert RightKey(BORDER, BORDER[1], 1) == Ok(None);
    assert CompareAtts([15], [20]) == -1;
    assert HighKeyTest(BORDER[1], BORDER[1].items[1]);
    assert ItemsCheck(BORDER, 1, 1, BORDER[1], 2) == Ok(true);
    assert ItemsCheck(BORDER, 1, 1, BORDER[3], 1) == Ok(true);
  }

  lemma BorderParentsPass()
    ensures PageCheck(BORDER, 1, 1, BORDER[4]) == Ok(true) && PageCheck(BORDER, 1, 1, BORDER[5]) == Ok(true)
  {
    assert ItemsCheck(BORDER, 1, 1, BORDER[4], 2) == Ok(true);
    assert ItemsCheck(BORDER, 1, 1, BORDER[5], 2) == Ok(true);
    assert ItemsCheck(BORDER, 1, 1, BORDER[5], 1) == Ok(true);
  }

  lemma BorderLeavesOrdered()
    ensures AcceptsLevel(BORDER, 1, 1, Level(0, false), 1, 3, [1, 2, 3])
  {
    BorderLoads();
    BorderTurns();
    BorderLeavesPass();
    assert [] + [1] == [1] && [1] + [2] == [1, 2] && [1, 2] + [3] == [1, 2, 3];
    assert OrderPass(BORDER, 1, 1, Level(0, false), LevelState(2, 3, 0), [1, 2], 1) == Ok([1, 2, 3]);
    assert OrderPass(BORDER, 1, 1, Level(0, false), LevelState(1, 2, 0), [1], 2) == Ok([1, 2, 3]);
  }

  lemma BorderParentsOrdered()
    ensures AcceptsLevel(BORDER, 1, 1, Level(1, false), 4, 2, [4, 5])
  {
    BorderLoads();
    BorderTurns();
    BorderParentsPass();
    assert [] + [4] == [4] && [4] + [5] == [4, 5];
    assert OrderPass(BORDER, 1, 1, Level(1, false), LevelState(4, 5, 1), [4], 1) == Ok([4, 5]);
  }

  lemma BorderLeftLinks()
    ensures TargetPass(BORDER, 4, BORDER[4], 2, None, INITIAL, [], 2)
            == Ok((CheckState(2, false), [Visit(1, 4, 2, true)]))
  {
    BorderLoads();
    var seen := [Visit(1, 4, 2, true)];
    assert [] + seen == seen;
    FoundAtOnce(BORDER, 4, 2, None, INITIAL, [], 2);
    assert TargetPass(BORDER, 4, BORDER[4], 3, None, CheckState(2, false), seen, 2) == Ok((CheckState(2, false), seen));
  }

  lemma BorderSecondChild()
    ensures var low, seen := Some(BORDER[4].items[0]), [Visit(1, 4, 2, true)];
            TargetPass(BORDER, 5, BORDER[5], 1, low, CheckState(2, false), seen, 1)
            == TargetPass(BORDER, 5, BORDER[5], 2, low, CheckState(3, false), seen + [Visit(2, 5, 1, true)], 1)
  {
    BorderLoads();
    FoundAtOnce(BORDER, 5, 1, Some(BORDER[4].items[0]), CheckState(2, false), [Visit(1, 4, 2, true)], 1);
  }

  lemma BorderThirdChild(seen: seq<Visit>)
    requires seen != []
    ensures var low := Some(BORDER[4].items[0]);
            TargetPass(BORDER, 5, BORDER[5], 2, low, CheckState(3, false), seen, 1)
            == Ok((INITIAL, seen + [Visit(3, 5, 2, true)]))
  {
    BorderLoads();
    var low := Some(BORDER[4].items[0]);
    assert CompareAtts([12], [13]) == -1;
    assert ChildItemsCheck(KeyOf(BORDER[5].items[1]), BORDER[3], 1) == Ok(true);
    FoundAtOnce(BORDER, 5, 2, low, CheckState(3, false), seen, 1);
    PassEnds(BORDER, 5, low, seen + [Visit(3, 5, 2, true)], 1);
  }

  lemma BorderRightLinks()
    ensures TargetPass(BORDER, 5, BORDER[5], 1, Some(BORDER[4].items[0]), CheckState(2, false), [Visit(1, 4, 2, true)],
                       1) ==
              Ok((INITIAL, [Visit(1, 4, 2, true)] + [Visit(2, 5, 1, true)] + [Visit(3, 5, 2, true)]))
  {
    BorderSecondChild();
    BorderThirdChild([Visit(1, 4, 2, true)] + [Visit(2, 5, 1, true)]);
  }

  lemma BorderLinks()
    ensures CheckLevel(BORDER, Level(1, false), 4, 2).Ok?
  {
    BorderLoads();
    BorderTurns();
    BorderLeftLinks();
    BorderRightLinks();
    var seen := [Visit(1, 4, 2, true)];
    assert LowKey(BORDER[4]) == Ok(Some(BORDER[4].items[0])) && LowKey(BORDER[5]) == Ok(None);
    assert LevelPass(BORDER, Level(1, false), LevelState(4, 5, 1), Some(BORDER[4].items[0]), CheckState(2, false),
                     [] + [4], seen, 1).Ok?;
  }

  lemma BorderLiveItems()
    ensures LiveItems(BORDER, 1) == [Item([15], [1], 0)] && LiveItems(BORDER, 2) == []
    ensures LiveItems(BORDER, 3) == [Item([13], [1], 0)]
  {
    LeafItems(BORDER, 1);
    LeafItems(BORDER, 2);
    LeafItems(BORDER, 3);
  }

  lemma BorderItems()
    ensures LevelItems(BORDER, [1, 2, 3]) == [Item([15], [1], 0), Item([13], [1], 0)]
  {
    ItemsOfThree(BORDER, 1, 2, 3);
    BorderLiveItems();
  }

  lemma BorderDecreases()
    ensures !Before(Rank(Item([15], [1], 0)), Rank(Item([13], [1], 0)))
  {
    assert Rank(Item([15], [1], 0)) == [15, 1] && Rank(Item([13], [1], 0)) == [13, 1];
  }

  /** All levels of the tree pass all checks, from the root down, although the leaf items decrease across an empty page,
      and the page to its right has a downlink with a key: the key separates it from the empty page, but not from the
      child of another parent page. */
  lemma BorderAccepted()
    ensures CheckLevel(BORDER, Level(3, true), 8, 1).Ok? && AcceptsLevel(BORDER, 1, 1, Level(3, true), 8, 1, [8])
    ensures CheckLevel(BORDER, Level(2, false), 6, 2).Ok? && AcceptsLevel(BORDER, 1, 1, Level(2, false), 6, 2, [6, 7])
    ensures CheckLevel(BORDER, Level(1, false), 4, 2).Ok? && AcceptsLevel(BORDER, 1, 1, Level(1, false), 4, 2, [4, 5])
    ensures AcceptsLevel(BORDER, 1, 1, Level(0, false), 1, 3, [1, 2, 3])
    ensures BORDER[5].items[1] == Item([12], [], 3) && !NegativeInfinity(BORDER[5], 2)
    ensures LevelItems(BORDER, [1, 2, 3]) == [Item([15], [1], 0), Item([13], [1], 0)]
    ensures !Before(Rank(Item([15], [1], 0)), Rank(Item([13], [1], 0)))
  {
    BorderRootLinks();
    BorderTopLinks();
    BorderTopOrdered();
    BorderLinks();
    BorderParentsOrdered();
    BorderLeavesOrdered();
    BorderItems();
    BorderDecreases();
  }
}
