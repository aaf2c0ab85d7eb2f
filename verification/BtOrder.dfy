/** Item order on one level: the order checks of bt_target_page_check and bt_right_page_check_scankey. */
module BtOrder {
  import opened Basics
  import opened BtPages
  import opened BtCompare
  import opened BtLockstep

  // ---------- the checks on one page ----------

  /** _bt_check_natts: leaf items have all attributes and a heap TID, the negative-infinity item has none, and other
      pivots have some. */
  predicate ShapeOk(nkey: nat, p: BtPage, offset: nat)
    requires 1 <= offset <= |p.items|
  {
    var it := p.items[offset - 1];
    if p.leaf && offset >= FirstDataKey(p) then |it.atts| == nkey && it.tids != []
    else if NegativeInfinity(p, offset) then it.atts == []
    else 0 < |it.atts| <= nkey && |it.tids| <= 1 && (it.tids != [] ==> |it.atts| == nkey)
  }

  /** The page bt_right_page_check_scankey settles on: the first one not to be ignored, or the last of the level. */
  function RightPage(index: Index, b: nat, bound: nat): Outcome<BtPage>
    decreases bound
  {
    if bound == 0 then OutOfFuel
    else
      var p :- Load(index, b);
      if !Ignore(p) || Rightmost(p) then Ok(p) else RightPage(index, p.next, bound - 1)
  }

  /** bt_right_page_check_scankey */
  function RightKey(index: Index, p: BtPage, bound: nat): Outcome<Option<Key>> {
    if Rightmost(p) then Ok(None)
    else
      var right :- RightPage(index, p.next, bound);
      Ok(if |right.items| >= FirstReal(right) then Some(KeyOf(right.items[FirstReal(right) - 1])) else None)
  }

  /** The key compared with the high key carries the highest heap TID of a posting list. */
  function HighestKey(it: Item): Key {
    Key(it.atts, if it.tids == [] then None else Some(it.tids[|it.tids| - 1]))
  }

  predicate HighKeyTest(p: BtPage, it: Item)
    requires !Rightmost(p) ==> |p.items| >= 1
  {
    Rightmost(p) || if p.leaf then InvariantLeq(HighestKey(it), p, 1) else InvariantL(HighestKey(it), p, 1)
  }

  /** The loop of bt_target_page_check from `offset` on, without the calls about children. */
  function ItemsCheck(index: Index, nkey: nat, bound: nat, p: BtPage, offset: nat): Outcome<bool>
    requires 1 <= offset && (!Rightmost(p) ==> |p.items| >= 1)
    decreases |p.items| + 1 - offset
  {
    if offset > |p.items| then Ok(true)
    else if !ShapeOk(nkey, p, offset) then Corrupt
    else if NegativeInfinity(p, offset) then ItemsCheck(index, nkey, bound, p, offset + 1)
    else
      var it := p.items[offset - 1];
      if !Ascending(it.tids) || !HighKeyTest(p, it) then Corrupt
      else if offset < |p.items| then
        if InvariantL(KeyOf(it), p, offset + 1) then ItemsCheck(index, nkey, bound, p, offset + 1) else Corrupt
      else
        var right :- RightKey(index, p, bound);
        if right.Some? && !InvariantG(right.value, p, offset) then Corrupt else Ok(true)
  }

  function PageCheck(index: Index, nkey: nat, bound: nat, p: BtPage): Outcome<bool> {
    if !Rightmost(p) && (|p.items| == 0 || !ShapeOk(nkey, p, 1)) then Corrupt
    else ItemsCheck(index, nkey, bound, p, FirstDataKey(p))
  }

  // ---------- the checks on one level ----------

  /** The readonly pass over one level as far as item order goes; `bound` limits each search for a right page. */
  function OrderPass(index: Index, nkey: nat, bound: nat, level: Level, s: LevelState, targets: seq<nat>, turns: nat)
    : Outcome<seq<nat>>
    decreases turns
  {
    if turns == 0 then OutOfFuel
    else
      var p :- Load(index, s.current);
      var next :- LevelTurn(index, level, s, p);
      var ordered :- if Ignore(p) then Ok(true) else PageCheck(index, nkey, bound, p);
      if next.current == P_NONE then Ok(targets + [s.current])
      else OrderPass(index, nkey, bound, level, next, targets + [s.current], turns - 1)
  }

  // ---------- what acceptance of a page means ----------

  /** The items with keys of their own, from `offset` on. */
  function ItemsFrom(p: BtPage, offset: nat): seq<Item>
    requires 1 <= offset
  {
    if offset <= |p.items| then p.items[offset - 1..] else []
  }

  function RealItems(p: BtPage): seq<Item> {
    ItemsFrom(p, FirstReal(p))
  }

  ghost predicate Increasing(s: seq<Item>) {
    forall i :: 0 < i < |s| ==> Before(Rank(s[i - 1]), Rank(s[i]))
  }

  /** The high key bounds the item: from above on internal pages, from above or equal on leaves. */
  predicate BoundedBy(p: BtPage, it: Item)
    requires !Rightmost(p) ==> |p.items| >= 1
  {
    !Rightmost(p) ==>
      if p.leaf then !Before(Rank(p.items[0]), TopRank(it)) else Before(TopRank(it), Rank(p.items[0]))
  }

  predicate Wellformed(nkey: nat, p: BtPage, offset: nat)
    requires 1 <= offset <= |p.items|
  {
    ShapeOk(nkey, p, offset) && Ascending(p.items[offset - 1].tids)
  }

  /** The items from `offset` on are well formed and bounded by the high key. */
  predicate AllBounded(nkey: nat, p: BtPage, offset: nat)
    requires 1 <= offset && (!Rightmost(p) ==> |p.items| >= 1)
    decreases |p.items| + 1 - offset
  {
    offset <= |p.items| ==>
      Wellformed(nkey, p, offset) && BoundedBy(p, p.items[offset - 1]) && AllBounded(nkey, p, offset + 1)
  }

  lemma {:induction false} AllBoundedAt(nkey: nat, p: BtPage, offset: nat, o: nat)
    requires 1 <= offset <= o <= |p.items| && AllBounded(nkey, p, offset)
    ensures Wellformed(nkey, p, o) && BoundedBy(p, p.items[o - 1])
    decreases o - offset
  {
    if offset < o {
      AllBoundedAt(nkey, p, offset + 1, o);
    }
  }

  /** The last item of the page comes before the key found to the right. */
  ghost predicate RightBounded(index: Index, bound: nat, p: BtPage)
    requires |p.items| >= 1
  {
    && RightKey(index, p, bound).Ok?
    && var right := RightKey(index, p, bound).value;
       right.Some? ==> InvariantG(right.value, p, |p.items|)
  }

  ghost predicate InOrder(index: Index, nkey: nat, bound: nat, p: BtPage, offset: nat)
    requires 1 <= offset && (!Rightmost(p) ==> |p.items| >= 1)
  {
    && AllBounded(nkey, p, offset) && Increasing(ItemsFrom(p, offset))
    && (offset <= |p.items| ==> RightBounded(index, bound, p))
  }

  lemma HighKeyTestMeans(nkey: nat, p: BtPage, offset: nat)
    requires FirstReal(p) <= offset <= |p.items| && ShapeOk(nkey, p, offset) && (!Rightmost(p) ==> ShapeOk(nkey, p, 1))
    ensures HighKeyTest(p, p.items[offset - 1]) <==> BoundedBy(p, p.items[offset - 1])
  {
    var it := p.items[offset - 1];
    if !Rightmost(p) {
      if p.leaf {
        TestLeq(nkey, HighestKey(it), p, 1);
      } else {
        TestL(nkey, HighestKey(it), p, 1);
      }
    }
  }

  lemma NextInOrder(nkey: nat, p: BtPage, offset: nat)
    requires FirstReal(p) <= offset < |p.items| && ShapeOk(nkey, p, offset) && ShapeOk(nkey, p, offset + 1)
    ensures InvariantL(KeyOf(p.items[offset - 1]), p, offset + 1)
            <==> Before(Rank(p.items[offset - 1]), Rank(p.items[offset]))
  {
    TestL(nkey, KeyOf(p.items[offset - 1]), p, offset + 1);
  }

  lemma IncreasingCons(p: BtPage, offset: nat)
    requires 1 <= offset < |p.items|
    ensures Increasing(ItemsFrom(p, offset)) <==>
              Before(Rank(p.items[offset - 1]), Rank(p.items[offset])) && Increasing(ItemsFrom(p, offset + 1))
  {
    var s, t := ItemsFrom(p, offset), ItemsFrom(p, offset + 1);
    assert s[0] == p.items[offset - 1] && s[1] == p.items[offset];
    assert forall i :: 0 <= i < |t| ==> t[i] == s[i + 1];
  }

  lemma InOrderCons(index: Index, nkey: nat, bound: nat, p: BtPage, offset: nat)
    requires 1 <= offset < |p.items|
    ensures InOrder(index, nkey, bound, p, offset) <==>
              && Wellformed(nkey, p, offset) && BoundedBy(p, p.items[offset - 1])
              && Before(Rank(p.items[offset - 1]), Rank(p.items[offset])) && InOrder(index, nkey, bound, p, offset + 1)
  {
    IncreasingCons(p, offset);
  }

  lemma InOrderLast(index: Index, nkey: nat, bound: nat, p: BtPage)
    requires |p.items| >= 1
    ensures InOrder(index, nkey, bound, p, |p.items|) <==>
              Wellformed(nkey, p, |p.items|) && BoundedBy(p, p.items[|p.items| - 1]) && RightBounded(index, bound, p)
  {
    assert AllBounded(nkey, p, |p.items| + 1);
    assert |ItemsFrom(p, |p.items|)| == 1;
  }

  /** The loop accepts a page's items exactly when they are in order. */
  lemma {:induction false} ItemsCheckIsExact(index: Index, nkey: nat, bound: nat, p: BtPage, offset: nat)
    requires FirstReal(p) <= offset && (!Rightmost(p) ==> |p.items| >= 1 && ShapeOk(nkey, p, 1))
    ensures ItemsCheck(index, nkey, bound, p, offset) == Ok(true) <==> InOrder(index, nkey, bound, p, offset)
    decreases |p.items| + 1 - offset
  {
    if offset <= |p.items| {
      if ShapeOk(nkey, p, offset) {
        HighKeyTestMeans(nkey, p, offset);
      }
      if offset == |p.items| {
        InOrderLast(index, nkey, bound, p);
      } else {
        InOrderCons(index, nkey, bound, p, offset);
        ItemsCheckIsExact(index, nkey, bound, p, offset + 1);
        if ShapeOk(nkey, p, offset) && ShapeOk(nkey, p, offset + 1) {
          NextInOrder(nkey, p, offset);
        } else if InOrder(index, nkey, bound, p, offset + 1) {
          assert Wellformed(nkey, p, offset + 1);
        }
      }
    }
  }

  // ---------- what acceptance of a level means ----------

  /** A page of an accepted level: skipped and not the last one, or in order. */
  ghost predicate Accepted(index: Index, nkey: nat, bound: nat, b: nat) {
    && b in index && b != P_NONE && Load(index, b).Ok?
    && if Ignore(index[b]) then !Rightmost(index[b])
       else
         && (!Rightmost(index[b]) ==> |index[b].items| >= 1)
         && InOrder(index, nkey, bound, index[b], FirstReal(index[b]))
  }

  lemma PageCheckMeans(index: Index, nkey: nat, bound: nat, p: BtPage)
    requires PageCheck(index, nkey, bound, p) == Ok(true)
    ensures (!Rightmost(p) ==> |p.items| >= 1) && InOrder(index, nkey, bound, p, FirstReal(p))
  {
    ItemsCheckIsExact(index, nkey, bound, p, FirstReal(p));
  }

  lemma ItemsCheckIsBoolean(index: Index, nkey: nat, bound: nat, p: BtPage, offset: nat)
    requires 1 <= offset && (!Rightmost(p) ==> |p.items| >= 1)
    ensures ItemsCheck(index, nkey, bound, p, offset).Ok? ==> ItemsCheck(index, nkey, bound, p, offset) == Ok(true)
    decreases |p.items| + 1 - offset
  {
  }

  ghost predicate AllAccepted(index: Index, nkey: nat, bound: nat, w: seq<nat>) {
    forall i :: 0 <= i < |w| ==> Accepted(index, nkey, bound, w[i])
  }

  /** The pass has accepted the targets so far, stands at s.current, and will return r. */
  ghost predicate Ordering(index: Index, nkey: nat, bound: nat, level: Level, s: LevelState, targets: seq<nat>,
                           turns: nat, r: seq<nat>) {
    && s.current != P_NONE && TargetsLeadTo(index, targets, s.current) && AllAccepted(index, nkey, bound, targets)
    && OrderPass(index, nkey, bound, level, s, targets, turns) == Ok(r)
  }

  lemma TargetAccepted(index: Index, nkey: nat, bound: nat, level: Level, s: LevelState, targets: seq<nat>, turns: nat,
                       r: seq<nat>)
    requires Ordering(index, nkey, bound, level, s, targets, turns, r)
    ensures Accepted(index, nkey, bound, s.current)
  {
    var p := Load(index, s.current).value;
    if !Ignore(p) {
      ItemsCheckIsBoolean(index, nkey, bound, p, FirstDataKey(p));
      PageCheckMeans(index, nkey, bound, p);
    }
  }

  lemma OrderPassUnfolds(index: Index, nkey: nat, bound: nat, level: Level, s: LevelState, targets: seq<nat>,
                         turns: nat)
    returns (next: LevelState)
    requires OrderPass(index, nkey, bound, level, s, targets, turns).Ok?
    ensures turns > 0 && s.current in index && next.current == index[s.current].next
    ensures OrderPass(index, nkey, bound, level, s, targets, turns)
         == if next.current == P_NONE then Ok(targets + [s.current])
            else OrderPass(index, nkey, bound, level, next, targets + [s.current], turns - 1)
  {
    next := LevelTurn(index, level, s, Load(index, s.current).value).value;
  }

  lemma OrderPassTurn(index: Index, nkey: nat, bound: nat, level: Level, s: LevelState, targets: seq<nat>, turns: nat,
                      r: seq<nat>)
    returns (next: LevelState, targets1: seq<nat>)
    requires Ordering(index, nkey, bound, level, s, targets, turns, r)
    ensures turns > 0 && targets1 == targets + [s.current]
    ensures TargetsLeadTo(index, targets1, next.current) && AllAccepted(index, nkey, bound, targets1)
    ensures if next.current == P_NONE then r == targets1
            else Ordering(index, nkey, bound, level, next, targets1, turns - 1, r)
  {
    next := OrderPassUnfolds(index, nkey, bound, level, s, targets, turns);
    targets1 := targets + [s.current];
    TargetAccepted(index, nkey, bound, level, s, targets, turns, r);
    TargetsSnoc(index, targets, s.current);
  }

  lemma {:induction false} OrderPassMeans(index: Index, nkey: nat, bound: nat, level: Level, s: LevelState,
                                          targets: seq<nat>, turns: nat, r: seq<nat>)
    requires Ordering(index, nkey, bound, level, s, targets, turns, r)
    ensures Chain(index, r) && AllAccepted(index, nkey, bound, r) && r[0] == (targets + [s.current])[0]
    decreases turns
  {
    var next, targets1 := OrderPassTurn(index, nkey, bound, level, s, targets, turns, r);
    if next.current != P_NONE {
      OrderPassMeans(index, nkey, bound, level, next, targets1, turns - 1, r);
    }
  }

  ghost function LiveItems(index: Index, b: nat): seq<Item>
    requires b in index
  {
    if Ignore(index[b]) then [] else RealItems(index[b])
  }

  /** The items of a stretch of pages, left to right. */
  ghost function LevelItems(index: Index, w: seq<nat>): seq<Item>
    requires forall i :: 0 <= i < |w| ==> w[i] in index
  {
    if w == [] then [] else LiveItems(index, w[0]) + LevelItems(index, w[1..])
  }

  /** A stretch of accepted pages. */
  ghost predicate Stretch(index: Index, nkey: nat, bound: nat, w: seq<nat>) {
    Linked(index, w) && AllAccepted(index, nkey, bound, w)
  }

  lemma StretchTail(index: Index, nkey: nat, bound: nat, w: seq<nat>)
    requires Stretch(index, nkey, bound, w) && w != []
    ensures Stretch(index, nkey, bound, w[1..]) && Accepted(index, nkey, bound, w[0])
    ensures |w| > 1 ==> index[w[0]].next == w[1]
  {
  }

  function FirstItem(p: BtPage): Item
    requires RealItems(p) != []
  {
    RealItems(p)[0]
  }

  function LastItem(p: BtPage): Item
    requires RealItems(p) != []
  {
    RealItems(p)[|RealItems(p)| - 1]
  }

  /** If the first live page of the stretch has items, they come after `last`. */
  ghost predicate Compared(index: Index, last: Item, w: seq<nat>)
    requires forall i :: 0 <= i < |w| ==> w[i] in index
  {
    w != [] ==>
      if Ignore(index[w[0]]) then Compared(index, last, w[1..])
      else RealItems(index[w[0]]) != [] ==> Before(Rank(last), Rank(FirstItem(index[w[0]])))
  }

  lemma RankUpToTop(it: Item, t: seq<int>)
    requires Ascending(it.tids) && Before(TopRank(it), t)
    ensures Before(Rank(it), t)
  {
    if it.tids != [] {
      AscendingFirstLast(it.tids);
      BeforeByParts(it.atts, [it.tids[0]], it.atts, [it.tids[|it.tids| - 1]]);
      CompareAttsSame(it.atts);
      if it.tids[0] < it.tids[|it.tids| - 1] {
        BeforeSingles(it.tids[0], it.tids[|it.tids| - 1]);
        BeforeIsTransitive(Rank(it), TopRank(it), t);
      }
    }
  }

  lemma {:induction false} CompareAttsSame(a: seq<int>)
    ensures CompareAtts(a, a) == 0
  {
    if a != [] {
      CompareAttsSame(a[1..]);
    }
  }

  lemma LastItemIs(p: BtPage)
    requires RealItems(p) != []
    ensures FirstReal(p) <= |p.items| && LastItem(p) == p.items[|p.items| - 1] && !NegativeInfinity(p, |p.items|)
  {
  }

  lemma FirstItemIs(q: BtPage)
    requires RealItems(q) != []
    ensures FirstReal(q) <= |q.items| && FirstItem(q) == q.items[FirstReal(q) - 1]
  {
  }

  lemma KeyRank(it: Item)
    ensures KeyOf(it).atts + TidOf(KeyOf(it)) == Rank(it)
  {
  }

  lemma WellformedIsShaped(nkey: nat, p: BtPage, offset: nat)
    requires FirstReal(p) <= offset <= |p.items| && Wellformed(nkey, p, offset)
    ensures var it := p.items[offset - 1];
            Shaped(nkey, it.atts, it.tids) && Shaped(nkey, KeyOf(it).atts, TidOf(KeyOf(it))) && Ascending(it.tids)
  {
  }

  lemma RightKeyAbove(nkey: nat, p: BtPage, it: Item)
    requires FirstReal(p) <= |p.items| && Wellformed(nkey, p, |p.items|)
    requires Shaped(nkey, KeyOf(it).atts, TidOf(KeyOf(it))) && InvariantG(KeyOf(it), p, |p.items|)
    ensures Before(TopRank(p.items[|p.items| - 1]), Rank(it))
  {
    WellformedIsShaped(nkey, p, |p.items|);
    TestG(nkey, KeyOf(it), p, |p.items|);
    KeyRank(it);
  }

  lemma RightKeyCompares(nkey: nat, p: BtPage, q: BtPage)
    requires RealItems(p) != [] && RealItems(q) != []
    requires Wellformed(nkey, p, |p.items|) && Wellformed(nkey, q, FirstReal(q))
    requires InvariantG(KeyOf(q.items[FirstReal(q) - 1]), p, |p.items|)
    ensures Before(Rank(LastItem(p)), Rank(FirstItem(q)))
  {
    LastItemIs(p);
    FirstItemIs(q);
    WellformedIsShaped(nkey, q, FirstReal(q));
    RightKeyAbove(nkey, p, FirstItem(q));
    RankUpToTop(LastItem(p), Rank(FirstItem(q)));
  }

  /** The page found to the right of p is the first live one of the stretch. */
  lemma {:induction false} FoundIsCompared(index: Index, nkey: nat, bound: nat, p: BtPage, w: seq<nat>, steps: nat)
    requires RealItems(p) != [] && Wellformed(nkey, p, |p.items|) && Stretch(index, nkey, bound, w) && w != []
    requires RightPage(index, w[0], steps).Ok?
    requires var q := RightPage(index, w[0], steps).value;
             |q.items| >= FirstReal(q) ==> InvariantG(KeyOf(q.items[FirstReal(q) - 1]), p, |p.items|)
    ensures Compared(index, LastItem(p), w)
    decreases steps
  {
    StretchTail(index, nkey, bound, w);
    var q := index[w[0]];
    if Ignore(q) {
      if |w| > 1 {
        FoundIsCompared(index, nkey, bound, p, w[1..], steps - 1);
      }
    } else if RealItems(q) != [] {
      AllBoundedAt(nkey, q, FirstReal(q), FirstReal(q));
      RightKeyCompares(nkey, p, q);
    }
  }

  lemma CheckCompares(index: Index, nkey: nat, bound: nat, w: seq<nat>)
    requires Stretch(index, nkey, bound, w) && w != [] && !Ignore(index[w[0]]) && RealItems(index[w[0]]) != []
    ensures Compared(index, LastItem(index[w[0]]), w[1..])
  {
    var p := index[w[0]];
    StretchTail(index, nkey, bound, w);
    AllBoundedAt(nkey, p, FirstReal(p), |p.items|);
    if |w| > 1 {
      assert RightKey(index, p, bound).Ok?;
      FoundIsCompared(index, nkey, bound, p, w[1..], bound);
    }
  }

  /** Around empty live pages, the only places where no check compares neighbours, the items are in order: `last` is
      the last item so far, `gap` says that an empty page has been passed since. */
  ghost predicate GapsOrdered(index: Index, last: Option<Item>, gap: bool, w: seq<nat>)
    requires forall i :: 0 <= i < |w| ==> w[i] in index
    decreases |w|
  {
    w != [] ==>
      var p := index[w[0]];
      if Ignore(p) then GapsOrdered(index, last, gap, w[1..])
      else if RealItems(p) == [] then GapsOrdered(index, last, true, w[1..])
      else
        && (gap && last.Some? ==> Before(Rank(last.value), Rank(FirstItem(p))))
        && GapsOrdered(index, Some(LastItem(p)), false, w[1..])
  }

  ghost predicate IncreasingAfter(last: Option<Item>, s: seq<Item>) {
    Increasing(s) && (last.Some? && s != [] ==> Before(Rank(last.value), Rank(s[0])))
  }

  lemma IncreasingParts(s: seq<Item>, t: seq<Item>)
    requires s != [] && Increasing(s + t)
    ensures Increasing(s) && IncreasingAfter(Some(s[|s| - 1]), t)
  {
    var u := s + t;
    forall i | 0 < i < |s|
      ensures Before(Rank(s[i - 1]), Rank(s[i]))
    {
      assert u[i - 1] == s[i - 1] && u[i] == s[i];
    }
    forall i | 0 < i < |t|
      ensures Before(Rank(t[i - 1]), Rank(t[i]))
    {
      assert u[|s| + i - 1] == t[i - 1] && u[|s| + i] == t[i];
    }
    if t != [] {
      assert u[|s| - 1] == s[|s| - 1] && u[|s|] == t[0];
    }
  }

  lemma IncreasingJoined(s: seq<Item>, t: seq<Item>)
    requires s != [] && Increasing(s) && IncreasingAfter(Some(s[|s| - 1]), t)
    ensures Increasing(s + t)
  {
    var u := s + t;
    forall i | 0 < i < |u|
      ensures Before(Rank(u[i - 1]), Rank(u[i]))
    {
      assert i < |s| ==> u[i - 1] == s[i - 1] && u[i] == s[i];
      assert i > |s| ==> u[i - 1] == t[i - 1 - |s|] && u[i] == t[i - |s|];
    }
  }

  lemma IncreasingConcat(last: Option<Item>, s: seq<Item>, t: seq<Item>)
    requires s != []
    ensures IncreasingAfter(last, s + t) <==> IncreasingAfter(last, s) && IncreasingAfter(Some(s[|s| - 1]), t)
  {
    assert (s + t)[0] == s[0];
    if Increasing(s + t) {
      IncreasingParts(s, t);
    }
    if Increasing(s) && IncreasingAfter(Some(s[|s| - 1]), t) {
      IncreasingJoined(s, t);
    }
  }

  /** The first page has items, and the claim holds for the pages to its right. */
  lemma StretchFromItems(index: Index, nkey: nat, bound: nat, last: Option<Item>, gap: bool, w: seq<nat>)
    requires Stretch(index, nkey, bound, w) && (last.Some? && !gap ==> Compared(index, last.value, w)) && w != []
    requires w[0] in index && !Ignore(index[w[0]]) && RealItems(index[w[0]]) != [] && Linked(index, w[1..])
    requires IncreasingAfter(Some(LastItem(index[w[0]])), LevelItems(index, w[1..]))
             <==> GapsOrdered(index, Some(LastItem(index[w[0]])), false, w[1..])
    ensures IncreasingAfter(last, LevelItems(index, w)) <==> GapsOrdered(index, last, gap, w)
  {
    CheckCompares(index, nkey, bound, w);
    IncreasingConcat(last, RealItems(index[w[0]]), LevelItems(index, w[1..]));
  }

  lemma {:induction false} StretchIncreasesExactly(index: Index, nkey: nat, bound: nat, last: Option<Item>, gap: bool,
                                                   w: seq<nat>)
    requires Stretch(index, nkey, bound, w) && (last.Some? && !gap ==> Compared(index, last.value, w))
    ensures IncreasingAfter(last, LevelItems(index, w)) <==> GapsOrdered(index, last, gap, w)
    decreases |w|
  {
    if w != [] {
      StretchTail(index, nkey, bound, w);
      var p, rest := index[w[0]], LevelItems(index, w[1..]);
      if Ignore(p) || RealItems(p) == [] {
        assert [] + rest == rest;
        StretchIncreasesExactly(index, nkey, bound, last, gap || !Ignore(p), w[1..]);
      } else {
        CheckCompares(index, nkey, bound, w);
        StretchIncreasesExactly(index, nkey, bound, Some(LastItem(p)), false, w[1..]);
        StretchFromItems(index, nkey, bound, last, gap, w);
      }
    }
  }

  lemma {:induction false} NoGapsToOrder(index: Index, last: Option<Item>, w: seq<nat>)
    requires NoEmptyPage(index, w)
    ensures GapsOrdered(index, last, false, w)
    decreases |w|
  {
    if w != [] {
      assert NoEmptyPage(index, w[1..]);
      var p := index[w[0]];
      NoGapsToOrder(index, if Ignore(p) then last else Some(LastItem(p)), w[1..]);
    }
  }

  /** The pass from the leftmost page on accepts the level, whose pages are r. */
  ghost predicate AcceptsLevel(index: Index, nkey: nat, bound: nat, level: Level, leftmost: nat, turns: nat,
                               r: seq<nat>) {
    OrderPass(index, nkey, bound, level, LevelState(P_NONE, leftmost, INVALID_BLOCK), [], turns) == Ok(r)
  }

  ghost predicate NoEmptyPage(index: Index, w: seq<nat>) {
    forall i :: 0 <= i < |w| ==> w[i] in index && (!Ignore(index[w[i]]) ==> RealItems(index[w[i]]) != [])
  }

  lemma AcceptedLevelMeans(index: Index, nkey: nat, bound: nat, level: Level, leftmost: nat, turns: nat, r: seq<nat>)
    requires leftmost != P_NONE && AcceptsLevel(index, nkey, bound, level, leftmost, turns, r)
    ensures Chain(index, r) && AllAccepted(index, nkey, bound, r) && r[0] == leftmost
  {
    OrderPassMeans(index, nkey, bound, level, LevelState(P_NONE, leftmost, INVALID_BLOCK), [], turns, r);
  }

  lemma StretchSlice(index: Index, nkey: nat, bound: nat, r: seq<nat>, from: nat, to: nat)
    requires Chain(index, r) && AllAccepted(index, nkey, bound, r) && from <= to <= |r|
    ensures Stretch(index, nkey, bound, r[from..to])
  {
  }

  /** The items of an accepted level, or of any stretch of it, increase strictly by key attributes and first heap
      TID exactly when they do so around its empty live pages. */
  lemma IncreasesExactly(index: Index, nkey: nat, bound: nat, level: Level, leftmost: nat, turns: nat, r: seq<nat>,
                         from: nat, to: nat)
    requires leftmost != P_NONE && AcceptsLevel(index, nkey, bound, level, leftmost, turns, r) && from <= to <= |r|
    ensures Stretch(index, nkey, bound, r[from..to])
    ensures Increasing(LevelItems(index, r[from..to])) <==> GapsOrdered(index, None, false, r[from..to])
  {
    AcceptedLevelMeans(index, nkey, bound, level, leftmost, turns, r);
    StretchSlice(index, nkey, bound, r, from, to);
    StretchIncreasesExactly(index, nkey, bound, None, false, r[from..to]);
  }

  /** Strictly increasing neighbours make the whole sequence strictly increasing. */
  lemma {:induction false} IncreasingFar(s: seq<Item>, i: nat, j: nat)
    requires Increasing(s) && i < j < |s|
    ensures Before(Rank(s[i]), Rank(s[j]))
    decreases j - i
  {
    if i + 1 < j {
      IncreasingFar(s, i, j - 1);
      BeforeIsTransitive(Rank(s[i]), Rank(s[j - 1]), Rank(s[j]));
    }
  }

  /** Without empty live pages any two are in order, also across half-dead pages. */
  lemma AcceptedLevelIncreases(index: Index, nkey: nat, bound: nat, level: Level, leftmost: nat, turns: nat,
                               r: seq<nat>)
    requires leftmost != P_NONE && AcceptsLevel(index, nkey, bound, level, leftmost, turns, r) && NoEmptyPage(index, r)
    ensures Chain(index, r) && r[0] == leftmost
    ensures var s := LevelItems(index, r); forall i, j :: 0 <= i < j < |s| ==> Before(Rank(s[i]), Rank(s[j]))
  {
    AcceptedLevelMeans(index, nkey, bound, level, leftmost, turns, r);
    NoGapsToOrder(index, None, r);
    StretchIncreasesExactly(index, nkey, bound, None, false, r);
    var s := LevelItems(index, r);
    forall i, j | 0 <= i < j < |s|
      ensures Before(Rank(s[i]), Rank(s[j]))
    {
      IncreasingFar(s, i, j);
    }
  }
}
