/** The readonly pass over an internal level (bt_check_level_from_leftmost, bt_target_page_check,
    bt_child_check, bt_child_highkey_check, bt_downlink_missing_check): the verifier walks the child level in
    lockstep behind the downlinks of the parent level, keeping only the last right link and split flag
    between calls.

    The C loops can run for ever on cyclic links, so every loop here takes a bound on page reads; a run that
    ends is a run under some bound, and all results hold for every bound. */
module BtLockstep {
  import opened Basics
  import opened BtPages
  import opened BtHalfDead
  import opened BtCompare

  /** One page of the child level visited by bt_child_highkey_check, while it looked for the downlink at
      offset `off` of block `target` (offset 0 is the final call that has no downlink). */
  datatype Visit = Visit(blk: nat, target: nat, off: nat, matched: bool)

  /** prevrightlink and previncompletesplit */
  datatype CheckState = CheckState(prevRight: nat, prevSplit: bool)

  const INITIAL := CheckState(INVALID_BLOCK, false)

  /** What does not change during one call of bt_child_highkey_check. */
  datatype Call = Call(index: Index, tblk: nat, target: BtPage, off: nat, downlink: nat, lowkey: Option<Item>,
                       st: CheckState)

  /** Unsigned 32-bit level - 1. */
  function LevelBelow(level: nat): nat {
    if level == 0 then 0xffff_ffff else level - 1
  }

  // ---------- bt_downlink_missing_check ----------

  /** Descent from a page without downlink by first downlinks, down to a leaf. */
  function Descend(index: Index, b: nat, level: nat, fuel: nat): Outcome<BtPage>
    decreases fuel
  {
    if fuel == 0 then OutOfFuel
    else
      var p :- Load(index, b);
      if p.leaf then Ok(p)
      else if p.level != LevelBelow(level) then Corrupt
      else
        var first :- GetItem(p, FirstDataKey(p));
        Descend(index, first.downlink, p.level, fuel - 1)
  }

  predicate PointsToTopParent(leaf: BtPage, b: nat) {
    !leaf.deleted && leaf.halfDead && !Rightmost(leaf) && |leaf.items| >= 1 && leaf.items[0].downlink == b
  }

  function MissingDownlinkCheck(index: Index, rightsplit: bool, b: nat, p: BtPage, fuel: nat): Outcome<bool> {
    if p.root || rightsplit then Ok(true)
    else if p.leaf then Corrupt
    else
      var first :- GetItem(p, FirstDataKey(p));
      var leaf :- Descend(index, first.downlink, p.level, fuel);
      if PointsToTopParent(leaf, b) then Ok(true) else Corrupt
  }

  // ---------- bt_child_highkey_check ----------

  /** The key of the parent level that the high key of visited page b must equal. */
  function Separator(c: Call, b: nat): Outcome<Item> {
    var o := if b == c.downlink then c.off + 1 else c.off;
    if NegativeInfinity(c.target, o) then (if c.lowkey.Some? then Ok(c.lowkey.value) else Corrupt)
    else if o > |c.target.items| then (if Rightmost(c.target) then Corrupt else GetItem(c.target, 1))
    else GetItem(c.target, o)
  }

  function HighKeyCheck(c: Call, b: nat, p: BtPage): Outcome<bool> {
    if p.incompleteSplit || Rightmost(p) then Ok(true)
    else
      var highkey :- GetItem(p, 1);
      var separator :- Separator(c, b);
      if PivotIdentical(highkey, separator) then Ok(true) else Corrupt
  }

  /** All checks on one visited page. */
  function VisitCheck(c: Call, b: nat, p: BtPage, rightsplit: bool, first: bool, fuel: nat): Outcome<bool> {
    var leftmost :-
      if first && c.st.prevRight == INVALID_BLOCK then LeftmostIgnoringHalfDead(c.index, b, p.prev) else Ok(true);
    if !leftmost then Corrupt
    else if (!p.deleted || p.fullXid) && p.level != LevelBelow(c.target.level) then Corrupt
    else if (!first && b == c.st.prevRight) || b == p.prev then Corrupt
    else
      var missing :-
        if b != c.downlink && !Ignore(p) then MissingDownlinkCheck(c.index, rightsplit, b, p, fuel) else Ok(true);
      HighKeyCheck(c, b, p)
  }

  /** The loop of bt_child_highkey_check, from block b on; `seen` collects the visits of the whole pass. */
  function ChildWalk(c: Call, b: nat, rightsplit: bool, first: bool, seen: seq<Visit>, fuel: nat)
    : Outcome<(CheckState, seq<Visit>)>
    decreases fuel
  {
    if fuel == 0 then OutOfFuel
    else if b == P_NONE then (if c.downlink == P_NONE then Ok((INITIAL, seen)) else Corrupt)
    else
      var p :- Load(c.index, b);
      var checked :- VisitCheck(c, b, p, rightsplit, first, fuel);
      var seen' := seen + [Visit(b, c.tblk, c.off, b == c.downlink)];
      if b == c.downlink then Ok((CheckState(p.next, p.incompleteSplit), seen'))
      else ChildWalk(c, p.next, p.incompleteSplit, false, seen', fuel - 1)
  }

  /** bt_child_highkey_check */
  function ChildHighkeyCheck(c: Call, seen: seq<Visit>, fuel: nat): Outcome<(CheckState, seq<Visit>)> {
    if c.st.prevRight == INVALID_BLOCK then ChildWalk(c, c.downlink, false, true, seen, fuel)
    else ChildWalk(c, c.st.prevRight, c.st.prevSplit, true, seen, fuel)
  }

  /** bt_child_highkey_check as the loop it is. */
  method ChildHighkeyCheckLoop(c: Call, seen: seq<Visit>, fuel: nat) returns (r: Outcome<(CheckState, seq<Visit>)>)
    ensures r == ChildHighkeyCheck(c, seen, fuel)
  {
    var blkno, rightsplit, first := c.st.prevRight, c.st.prevSplit, true;
    if blkno == INVALID_BLOCK {
      blkno, rightsplit := c.downlink, false;
    }
    var visited, steps := seen, fuel;
    while steps > 0
      invariant ChildHighkeyCheck(c, seen, fuel) == ChildWalk(c, blkno, rightsplit, first, visited, steps)
    {
      if blkno == P_NONE {
        return if c.downlink == P_NONE then Ok((INITIAL, visited)) else Corrupt;
      }
      var page := Load(c.index, blkno);
      if !page.Ok? {
        return page.PropagateFailure();
      }
      var checked := VisitCheck(c, blkno, page.value, rightsplit, first, steps);
      if !checked.Ok? {
        return checked.PropagateFailure();
      }
      visited := visited + [Visit(blkno, c.tblk, c.off, blkno == c.downlink)];
      rightsplit := page.value.incompleteSplit;
      if blkno == c.downlink {
        return Ok((CheckState(page.value.next, rightsplit), visited));
      }
      blkno := page.value.next;
      first := false;
      steps := steps - 1;
    }
    r := OutOfFuel;
  }

  // ---------- bt_target_page_check: the calls for one parent page ----------

  /** The last loop of bt_child_check: the key of the downlink comes before every item of the child that has a key. */
  function ChildItemsCheck(key: Key, child: BtPage, offset: nat): Outcome<bool>
    requires 1 <= offset
    decreases |child.items| + 1 - offset
  {
    if offset > |child.items| then Ok(true)
    else if NegativeInfinity(child, offset) || InvariantL(key, child, offset) then
      ChildItemsCheck(key, child, offset + 1)
    else Corrupt
  }

  /** The call for the item at offset `off`; except for the negative-infinity item bt_child_check loads the child first,
      and afterwards refuses a deleted one and compares its items. */
  function DownlinkCheck(index: Index, tblk: nat, target: BtPage, off: nat, lowkey: Option<Item>, st: CheckState,
                         seen: seq<Visit>, fuel: nat)
    : Outcome<(CheckState, seq<Visit>)>
    requires 1 <= off <= |target.items|
  {
    var c := Call(index, tblk, target, off, target.items[off - 1].downlink, lowkey, st);
    if NegativeInfinity(target, off) then ChildHighkeyCheck(c, seen, fuel)
    else
      var child :- Load(index, c.downlink);
      var r :- ChildHighkeyCheck(c, seen, fuel);
      if child.deleted then Corrupt
      else
        var bounded :- ChildItemsCheck(KeyOf(target.items[off - 1]), child, FirstDataKey(child));
        Ok(r)
  }

  /** All items from offset `off` on, then the final call on a rightmost page. */
  function TargetPass(index: Index, tblk: nat, target: BtPage, off: nat, lowkey: Option<Item>, st: CheckState,
                      seen: seq<Visit>, fuel: nat)
    : Outcome<(CheckState, seq<Visit>)>
    requires off >= 1
    decreases |target.items| + 1 - off
  {
    if off <= |target.items| then
      var (st1, seen1) :- DownlinkCheck(index, tblk, target, off, lowkey, st, seen, fuel);
      TargetPass(index, tblk, target, off + 1, lowkey, st1, seen1, fuel)
    else if Rightmost(target) then ChildHighkeyCheck(Call(index, tblk, target, 0, P_NONE, lowkey, st), seen, fuel)
    else Ok((st, seen))
  }

  // ---------- bt_check_level_from_leftmost: the parent level ----------

  /** Loop variables: the previous and current target block, the leftmost block found for the next level. */
  datatype LevelState = LevelState(left: nat, current: nat, nextDown: nat)

  datatype Level = Level(level: nat, isTrueRoot: bool)

  /** The checks one turn makes on the target page itself, up to bt_target_page_check, and the next state. */
  function LevelTurn(index: Index, level: Level, s: LevelState, p: BtPage): Outcome<LevelState> {
    var nextDown :-
      if Ignore(p) then (if p.deleted || Rightmost(p) then Corrupt else Ok(s.nextDown))
      else
        var down :-
          if s.nextDown != INVALID_BLOCK then Ok(s.nextDown)
          else
            var leftmost :- LeftmostIgnoringHalfDead(index, s.current, p.prev);
            if !leftmost || (level.isTrueRoot && !p.root) then Corrupt
            else if p.leaf then Ok(P_NONE)
            else
              var first :- GetItem(p, FirstDataKey(p));
              Ok(first.downlink);
        if (p.prev != s.left && s.left != P_NONE) || level.level != p.level then Corrupt else Ok(down);
    if s.current == s.left || s.current == p.prev then Corrupt
    else Ok(LevelState(s.current, p.next, nextDown))
  }

  /** The low key kept for the next target: the current page's high key. */
  function LowKey(p: BtPage): Outcome<Option<Item>> {
    if Rightmost(p) then Ok(None)
    else
      var highkey :- GetItem(p, 1);
      Ok(Some(highkey))
  }

  /** The part of bt_target_page_check that concerns children; ignored pages and leaves have none. */
  function TargetChecks(index: Index, tblk: nat, p: BtPage, lowkey: Option<Item>, st: CheckState, seen: seq<Visit>,
                        fuel: nat)
    : Outcome<(CheckState, seq<Visit>)>
  {
    if Ignore(p) || p.leaf then Ok((st, seen)) else TargetPass(index, tblk, p, FirstDataKey(p), lowkey, st, seen, fuel)
  }

  /** The readonly pass over one level from the current target on: all target blocks and child visits, in order. */
  function LevelPass(index: Index, level: Level, s: LevelState, lowkey: Option<Item>, st: CheckState,
                     targets: seq<nat>, seen: seq<Visit>, fuel: nat): Outcome<(seq<nat>, seq<Visit>)>
    decreases fuel
  {
    if fuel == 0 then OutOfFuel
    else
      var p :- Load(index, s.current);
      var next :- LevelTurn(index, level, s, p);
      var (st1, seen1) :- TargetChecks(index, s.current, p, lowkey, st, seen, fuel);
      var low :- LowKey(p);
      if next.current == P_NONE then Ok((targets + [s.current], seen1))
      else LevelPass(index, level, next, low, st1, targets + [s.current], seen1, fuel - 1)
  }

  function CheckLevel(index: Index, level: Level, leftmost: nat, fuel: nat): Outcome<(seq<nat>, seq<Visit>)> {
    LevelPass(index, level, LevelState(P_NONE, leftmost, INVALID_BLOCK), None, INITIAL, [], [], fuel)
  }

  // ---------- what acceptance means ----------

  function Blocks(visits: seq<Visit>): (w: seq<nat>)
    ensures |w| == |visits|
  {
    seq(|visits|, i requires 0 <= i < |visits| => visits[i].blk)
  }

  /** The blocks reached through a downlink, in order. */
  function Matched(visits: seq<Visit>): seq<nat> {
    if visits == [] then []
    else Matched(visits[..|visits| - 1]) + if visits[|visits| - 1].matched then [visits[|visits| - 1].blk] else []
  }

  /** The downlinks of a page at offsets below `off`. */
  function DownlinksBelow(p: BtPage, off: nat): seq<nat>
    requires off <= |p.items| + 1
  {
    if off <= FirstDataKey(p) then [] else DownlinksBelow(p, off - 1) + [p.items[off - 2].downlink]
  }

  /** The downlinks of a page that is not skipped. */
  function PageDownlinks(p: BtPage): seq<nat> {
    if Ignore(p) then [] else DownlinksBelow(p, |p.items| + 1)
  }

  /** The downlinks of a whole level, left to right. */
  function LevelDownlinks(index: Index, targets: seq<nat>): seq<nat>
    requires forall i :: 0 <= i < |targets| ==> targets[i] in index
  {
    if targets == [] then []
    else LevelDownlinks(index, targets[..|targets| - 1]) + PageDownlinks(index[targets[|targets| - 1]])
  }

  /** A descent by first downlinks, one level at a time, to a leaf. */
  ghost predicate Descent(index: Index, path: seq<nat>) {
    && path != [] && path[0] in index
    && var p := index[path[0]];
       if |path| == 1 then p.leaf
       else
         && !p.leaf && FirstDataKey(p) <= |p.items| && p.items[FirstDataKey(p) - 1].downlink == path[1]
         && Descent(index, path[1..])
         && (|path| > 2 ==> index[path[1]].level == LevelBelow(p.level))
  }

  /** A descent from b ends at a half-dead leaf whose top-parent link is b. */
  ghost predicate InterruptedDeletion(index: Index, b: nat, path: seq<nat>) {
    && |path| >= 2 && path[0] == b && Descent(index, path)
    && path[|path| - 1] in index && PointsToTopParent(index[path[|path| - 1]], b)
  }

  /** Why a live page may lack a downlink; `split` is the incomplete-split flag of its left neighbour. */
  ghost predicate Excused(index: Index, b: nat, split: bool)
    requires b in index
  {
    Ignore(index[b]) || index[b].root || split || exists path :: InterruptedDeletion(index, b, path)
  }

  /** The separator to the right of the downlink at `off`: the next item, or the page's high key. */
  function NextSeparator(p: BtPage, off: nat): Item
    requires 1 <= off <= |p.items|
  {
    if off < |p.items| then p.items[off] else p.items[0]
  }

  /** The high key of a visited page that is neither rightmost nor half of an unfinished split is the separator
      right of its downlink; if it has no downlink, the one left of the next downlink. */
  ghost predicate KeyOk(index: Index, v: Visit)
    requires v.blk in index && v.target in index
  {
    var child, t := index[v.blk], index[v.target];
    !child.incompleteSplit && !Rightmost(child) ==>
      && |child.items| >= 1
      && if v.matched then 1 <= v.off <= |t.items| && PivotIdentical(child.items[0], NextSeparator(t, v.off))
         else if v.off > FirstDataKey(t) then v.off <= |t.items| && PivotIdentical(child.items[0], t.items[v.off - 1])
         else && v.off == FirstDataKey(t) && t.prev in index && |index[t.prev].items| >= 1
              && PivotIdentical(child.items[0], index[t.prev].items[0])
  }

  /** The page the walk would visit next, and the split flag of the page it visited last. */
  function NextOf(index: Index, w: seq<Visit>): nat
    requires w != [] && w[|w| - 1].blk in index
  {
    index[w[|w| - 1].blk].next
  }

  function SplitOf(index: Index, w: seq<Visit>): bool
    requires w != [] && w[|w| - 1].blk in index
  {
    index[w[|w| - 1].blk].incompleteSplit
  }

  /** The visits form one walk along right links that began at a downlink: each page visited without a downlink
      has an excuse, and each high key matches its separator. */
  ghost predicate Walk(index: Index, w: seq<Visit>) {
    w == [] ||
    var v, w' := w[|w| - 1], w[..|w| - 1];
    && v.blk in index && v.blk != P_NONE && v.target in index && KeyOk(index, v)
    && if w' == [] then v.matched
       else Walk(index, w') && NextOf(index, w') == v.blk && (!v.matched ==> Excused(index, v.blk, SplitOf(index, w')))
  }

  /** The walk began at the leftmost page of its level. */
  ghost predicate BeginsLeftmost(index: Index, w: seq<Visit>) {
    w != [] && w[0].blk in index && LeftmostIgnoringHalfDead(index, w[0].blk, index[w[0].blk].prev) == Ok(true)
  }

  // Two link values are reserved: 0 (no block) and 0xFFFFFFFF (no state carried).  A right link or downlink that
  // holds one of them by corruption confuses the carried state, so the result below speaks of pages without.

  ghost predicate RightPath(index: Index, path: seq<nat>, b: nat) {
    path != [] && path[0] == b && Linked(index, path)
  }

  /** No page reached from b by right links has 0xFFFFFFFF as its right link. */
  ghost predicate SoundRightLinks(index: Index, b: nat) {
    forall path :: RightPath(index, path, b) ==> index[path[|path| - 1]].next != INVALID_BLOCK
  }

  /** No downlink of parent page t is 0, and right links are sound from each of its children. */
  ghost predicate SoundDownlinks(index: Index, t: nat)
    requires t in index
  {
    var p := index[t];
    !Ignore(p) && !p.leaf ==>
      forall i :: FirstDataKey(p) - 1 <= i < |p.items| ==>
        p.items[i].downlink != P_NONE && SoundRightLinks(index, p.items[i].downlink)
  }

  /** That holds for every parent page reached from `leftmost`. */
  ghost predicate NoReservedLinks(index: Index, leftmost: nat) {
    forall path :: RightPath(index, path, leftmost) ==> SoundDownlinks(index, path[|path| - 1])
  }

  lemma RightPathCons(index: Index, b: nat, path: seq<nat>)
    requires b in index && b != P_NONE && RightPath(index, path, index[b].next)
    ensures RightPath(index, [b] + path, b) && ([b] + path)[|path|] == path[|path| - 1]
  {
    var all := [b] + path;
    assert forall i :: 0 < i < |all| ==> all[i] == path[i - 1];
  }

  lemma SoundRightLinksStep(index: Index, b: nat)
    requires b in index && b != P_NONE && SoundRightLinks(index, b)
    ensures index[b].next != INVALID_BLOCK && SoundRightLinks(index, index[b].next)
  {
    assert RightPath(index, [b], b);
    forall path | RightPath(index, path, index[b].next)
      ensures index[path[|path| - 1]].next != INVALID_BLOCK
    {
      RightPathCons(index, b, path);
    }
  }

  lemma NoReservedLinksStep(index: Index, b: nat)
    requires b in index && b != P_NONE && NoReservedLinks(index, b)
    ensures SoundDownlinks(index, b) && NoReservedLinks(index, index[b].next)
  {
    assert RightPath(index, [b], b);
    forall path | RightPath(index, path, index[b].next)
      ensures SoundDownlinks(index, path[|path| - 1])
    {
      RightPathCons(index, b, path);
    }
  }

  /** The proofs below use sets of blocks that are closed under right links: `children` among whose pages no right
      link is 0xFFFFFFFF, and `parents` whose downlinks are not 0 and lie in `children`. */
  datatype Region = Region(index: Index, children: iset<nat>, parents: iset<nat>) {
    ghost predicate Valid() {
      && (forall b :: b in children && b in index && b != P_NONE ==>
            index[b].next != INVALID_BLOCK && index[b].next in children)
      && forall t :: t in parents && t in index && t != P_NONE ==> index[t].next in parents && DownlinksIn(index[t])
    }

    ghost predicate DownlinksIn(p: BtPage) {
      !Ignore(p) && !p.leaf ==>
        forall i :: FirstDataKey(p) - 1 <= i < |p.items| ==>
          p.items[i].downlink != P_NONE && p.items[i].downlink in children
    }
  }

  ghost function RegionOf(index: Index): Region {
    Region(index, iset b: nat | SoundRightLinks(index, b), iset t: nat | NoReservedLinks(index, t))
  }

  lemma RegionIsValid(index: Index)
    ensures RegionOf(index).Valid()
  {
    var g := RegionOf(index);
    forall b | b in g.children && b in index && b != P_NONE
      ensures index[b].next != INVALID_BLOCK && index[b].next in g.children
    {
      SoundRightLinksStep(index, b);
    }
    forall t | t in g.parents && t in index && t != P_NONE
      ensures index[t].next in g.parents && g.DownlinksIn(index[t])
    {
      NoReservedLinksStep(index, t);
    }
  }

  // ---------- one call ----------

  lemma {:induction false} DescendPath(index: Index, b: nat, level: nat, fuel: nat) returns (path: seq<nat>)
    requires Descend(index, b, level, fuel).Ok?
    ensures Descent(index, path) && path[0] == b && (|path| > 1 ==> index[b].level == LevelBelow(level))
    ensures path[|path| - 1] in index && index[path[|path| - 1]] == Descend(index, b, level, fuel).value
    decreases fuel
  {
    var p := index[b];
    if p.leaf {
      path := [b];
    } else {
      var rest := DescendPath(index, p.items[FirstDataKey(p) - 1].downlink, p.level, fuel - 1);
      path := [b] + rest;
      assert path[1..] == rest;
    }
  }

  lemma MissingCheckExcuses(index: Index, rightsplit: bool, b: nat, fuel: nat)
    requires b in index && MissingDownlinkCheck(index, rightsplit, b, index[b], fuel) == Ok(true)
    ensures Excused(index, b, rightsplit)
  {
    var p := index[b];
    if !p.root && !rightsplit {
      var rest := DescendPath(index, p.items[FirstDataKey(p) - 1].downlink, p.level, fuel);
      var path := [b] + rest;
      assert path[1..] == rest;
      assert InterruptedDeletion(index, b, path);
    }
  }

  /** The call is about a real parent page, and its low key is the high key of the page to the left. */
  ghost predicate CallOk(c: Call) {
    && c.tblk in c.index && c.index[c.tblk] == c.target && !c.target.leaf
    && (c.off == 0 || FirstDataKey(c.target) <= c.off <= |c.target.items|)
    && (c.lowkey.Some? ==> c.target.prev in c.index && |c.index[c.target.prev].items| >= 1
                           && c.lowkey.value == c.index[c.target.prev].items[0])
    && (c.off == 0 ==> c.downlink == P_NONE)
    && (c.off > 0 ==> c.downlink == c.target.items[c.off - 1].downlink && c.downlink != P_NONE)
  }

  lemma HighKeyCheckMeans(c: Call, b: nat)
    requires CallOk(c) && b in c.index && b != P_NONE && HighKeyCheck(c, b, c.index[b]) == Ok(true)
    ensures KeyOk(c.index, Visit(b, c.tblk, c.off, b == c.downlink))
  {
  }

  lemma VisitCheckMeans(c: Call, b: nat, rightsplit: bool, first: bool, fuel: nat)
    requires CallOk(c) && b in c.index && b != P_NONE && VisitCheck(c, b, c.index[b], rightsplit, first, fuel).Ok?
    ensures KeyOk(c.index, Visit(b, c.tblk, c.off, b == c.downlink))
    ensures b != c.downlink ==> Excused(c.index, b, rightsplit)
    ensures first && c.st.prevRight == INVALID_BLOCK ==>
              LeftmostIgnoringHalfDead(c.index, b, c.index[b].prev) == Ok(true)
  {
    HighKeyCheckMeans(c, b);
    if b != c.downlink && !Ignore(c.index[b]) {
      MissingCheckExcuses(c.index, rightsplit, b, fuel);
    }
  }

  lemma WalkSnoc(index: Index, w: seq<Visit>, v: Visit)
    requires Walk(index, w) && v.blk in index && v.blk != P_NONE && v.target in index && KeyOk(index, v)
    requires w == [] ==> v.matched
    requires w != [] ==> NextOf(index, w) == v.blk && (!v.matched ==> Excused(index, v.blk, SplitOf(index, w)))
    ensures Walk(index, w + [v])
    ensures Matched(w + [v]) == if v.matched then Matched(w) + [v.blk] else Matched(w)
  {
    assert (w + [v])[..|w|] == w;
  }

  /** Block b is where the walk stands: the right sibling of the last visited page. */
  ghost predicate StandsAt(g: Region, w: seq<Visit>, b: nat, split: bool) {
    && w != [] && Walk(g.index, w) && w[|w| - 1].blk in g.children
    && b == NextOf(g.index, w) && split == SplitOf(g.index, w)
  }

  /** The walk has come to the end of its level. */
  ghost predicate Complete(index: Index, w: seq<Visit>) {
    w != [] && Walk(index, w) && NextOf(index, w) == P_NONE
  }

  /** The outcome of one call: every visit extends the walk, and the downlink, if any, has been reached. */
  ghost predicate CallResult(g: Region, c: Call, seen: seq<Visit>, r: (CheckState, seq<Visit>)) {
    if c.off == 0 then Complete(g.index, r.1) && Matched(r.1) == Matched(seen)
    else StandsAt(g, r.1, r.0.prevRight, r.0.prevSplit) && Matched(r.1) == Matched(seen) + [c.downlink]
  }

  lemma VisitExtends(g: Region, c: Call, b: nat, rightsplit: bool, first: bool, seen: seq<Visit>, fuel: nat)
    requires g.Valid() && g.index == c.index && CallOk(c) && StandsAt(g, seen, b, rightsplit) && b != P_NONE
             && b in c.index
    requires VisitCheck(c, b, c.index[b], rightsplit, first, fuel).Ok?
    ensures var seen' := seen + [Visit(b, c.tblk, c.off, b == c.downlink)];
            && StandsAt(g, seen', c.index[b].next, c.index[b].incompleteSplit)
            && Matched(seen') == if b == c.downlink then Matched(seen) + [b] else Matched(seen)
  {
    VisitCheckMeans(c, b, rightsplit, first, fuel);
    WalkSnoc(c.index, seen, Visit(b, c.tblk, c.off, b == c.downlink));
  }

  /** The walk of call c, standing at block b, will return r. */
  ghost predicate Walking(g: Region, c: Call, b: nat, rightsplit: bool, first: bool, seen: seq<Visit>, fuel: nat,
                          r: (CheckState, seq<Visit>)) {
    && g.Valid() && g.index == c.index && CallOk(c) && StandsAt(g, seen, b, rightsplit)
    && ChildWalk(c, b, rightsplit, first, seen, fuel) == Ok(r)
  }

  /** One turn of the loop: the walk is over, or stands at the next block. */
  lemma ChildWalkTurn(g: Region, c: Call, b: nat, rightsplit: bool, first: bool, seen: seq<Visit>, fuel: nat,
                      r: (CheckState, seq<Visit>)) returns (over: bool, b1: nat, rightsplit1: bool, seen1: seq<Visit>)
    requires Walking(g, c, b, rightsplit, first, seen, fuel, r)
    ensures over ==> CallResult(g, c, seen, r) && r.1[0] == seen[0]
    ensures !over ==>
              && fuel > 0 && seen1 != [] && seen1[0] == seen[0] && Matched(seen1) == Matched(seen)
              && Walking(g, c, b1, rightsplit1, false, seen1, fuel - 1, r)
  {
    over, b1, rightsplit1 := b == P_NONE || b == c.downlink, b, rightsplit;
    seen1 := seen + [Visit(b, c.tblk, c.off, b == c.downlink)];
    if b != P_NONE {
      b1, rightsplit1 := c.index[b].next, c.index[b].incompleteSplit;
      VisitExtends(g, c, b, rightsplit, first, seen, fuel);
    }
  }

  lemma {:induction false} ChildWalkTrace(g: Region, c: Call, b: nat, rightsplit: bool, first: bool, seen: seq<Visit>,
                                          fuel: nat,
                                          r: (CheckState, seq<Visit>))
    requires Walking(g, c, b, rightsplit, first, seen, fuel, r)
    ensures CallResult(g, c, seen, r) && r.1[0] == seen[0]
    decreases fuel
  {
    var over, b1, rightsplit1, seen1 := ChildWalkTurn(g, c, b, rightsplit, first, seen, fuel, r);
    if !over {
      ChildWalkTrace(g, c, b1, rightsplit1, false, seen1, fuel - 1, r);
    }
  }

  // ---------- all calls of a level ----------

  /** The two fields carried between calls tell where the walk stands. */
  ghost predicate Progress(g: Region, w: seq<Visit>, st: CheckState) {
    if w == [] then st == INITIAL else StandsAt(g, w, st.prevRight, st.prevSplit) && BeginsLeftmost(g.index, w)
  }

  lemma FirstCall(g: Region, c: Call, fuel: nat)
    requires g.Valid() && g.index == c.index && CallOk(c) && c.off > 0 && c.downlink in g.children && c.st == INITIAL
    requires ChildHighkeyCheck(c, [], fuel).Ok?
    ensures CallResult(g, c, [], ChildHighkeyCheck(c, [], fuel).value)
    ensures BeginsLeftmost(g.index, ChildHighkeyCheck(c, [], fuel).value.1)
  {
    VisitCheckMeans(c, c.downlink, false, true, fuel);
    WalkSnoc(c.index, [], Visit(c.downlink, c.tblk, c.off, true));
  }

  lemma LaterCall(g: Region, c: Call, seen: seq<Visit>, fuel: nat)
    requires g.Valid() && g.index == c.index && CallOk(c) && seen != [] && Progress(g, seen, c.st)
    requires ChildHighkeyCheck(c, seen, fuel).Ok?
    ensures CallResult(g, c, seen, ChildHighkeyCheck(c, seen, fuel).value)
    ensures BeginsLeftmost(g.index, ChildHighkeyCheck(c, seen, fuel).value.1)
  {
    ChildWalkTrace(g, c, c.st.prevRight, c.st.prevSplit, true, seen, fuel, ChildHighkeyCheck(c, seen, fuel).value);
  }

  ghost predicate LowKeyOk(index: Index, target: BtPage, lowkey: Option<Item>) {
    lowkey.Some? ==>
      target.prev in index && |index[target.prev].items| >= 1 && lowkey.value == index[target.prev].items[0]
  }

  /** A live internal page whose children can be walked, with the low key that belongs to it. */
  ghost predicate TargetOk(g: Region, tblk: nat, lowkey: Option<Item>) {
    && g.Valid() && tblk in g.index && !Ignore(g.index[tblk]) && !g.index[tblk].leaf
    && g.DownlinksIn(g.index[tblk]) && LowKeyOk(g.index, g.index[tblk], lowkey)
  }

  lemma DownlinkExtends(g: Region, tblk: nat, off: nat, lowkey: Option<Item>, st: CheckState, seen: seq<Visit>,
                        fuel: nat,
                        st1: CheckState, seen1: seq<Visit>)
    requires TargetOk(g, tblk, lowkey) && Progress(g, seen, st)
             && FirstDataKey(g.index[tblk]) <= off <= |g.index[tblk].items|
    requires DownlinkCheck(g.index, tblk, g.index[tblk], off, lowkey, st, seen, fuel) == Ok((st1, seen1))
    ensures seen1 != [] && Progress(g, seen1, st1)
    ensures Matched(seen1) == Matched(seen) + [g.index[tblk].items[off - 1].downlink]
  {
    var c := Call(g.index, tblk, g.index[tblk], off, g.index[tblk].items[off - 1].downlink, lowkey, st);
    if seen == [] {
      FirstCall(g, c, fuel);
    } else {
      LaterCall(g, c, seen, fuel);
    }
  }

  /** The walk after all calls for one parent page. */
  ghost predicate PageDone(g: Region, target: BtPage, st: CheckState, w: seq<Visit>) {
    w != [] && if Rightmost(target) then Complete(g.index, w) && BeginsLeftmost(g.index, w) else Progress(g, w, st)
  }

  /** The calls for the items from `off` on complete what those below have begun. */
  ghost predicate TargetResult(g: Region, target: BtPage, before: seq<nat>, r: (CheckState, seq<Visit>)) {
    PageDone(g, target, r.0, r.1) && Matched(r.1) == before + DownlinksBelow(target, |target.items| + 1)
  }

  lemma TargetEnd(g: Region, tblk: nat, lowkey: Option<Item>, st: CheckState, seen: seq<Visit>, before: seq<nat>,
                  fuel: nat,
                  r: (CheckState, seq<Visit>))
    requires TargetOk(g, tblk, lowkey) && Progress(g, seen, st) && seen != []
    requires Matched(seen) == before + DownlinksBelow(g.index[tblk], |g.index[tblk].items| + 1)
    requires TargetPass(g.index, tblk, g.index[tblk], |g.index[tblk].items| + 1, lowkey, st, seen, fuel) == Ok(r)
    ensures TargetResult(g, g.index[tblk], before, r)
  {
    if Rightmost(g.index[tblk]) {
      LaterCall(g, Call(g.index, tblk, g.index[tblk], 0, P_NONE, lowkey, st), seen, fuel);
    }
  }

  lemma {:induction false} TargetPassExtends(g: Region, tblk: nat, off: nat, lowkey: Option<Item>, st: CheckState,
                                             seen: seq<Visit>,
                                             before: seq<nat>, fuel: nat, r: (CheckState, seq<Visit>))
    requires TargetOk(g, tblk, lowkey) && FirstDataKey(g.index[tblk]) <= off <= |g.index[tblk].items| + 1
    requires Progress(g, seen, st) && (off > |g.index[tblk].items| ==> seen != [])
    requires Matched(seen) == before + DownlinksBelow(g.index[tblk], off)
    requires TargetPass(g.index, tblk, g.index[tblk], off, lowkey, st, seen, fuel) == Ok(r)
    ensures TargetResult(g, g.index[tblk], before, r)
    decreases |g.index[tblk].items| + 1 - off
  {
    if off <= |g.index[tblk].items| {
      var (st1, seen1) := DownlinkCheck(g.index, tblk, g.index[tblk], off, lowkey, st, seen, fuel).value;
      DownlinkExtends(g, tblk, off, lowkey, st, seen, fuel, st1, seen1);
      Assoc(before, DownlinksBelow(g.index[tblk], off), [g.index[tblk].items[off - 1].downlink]);
      TargetPassExtends(g, tblk, off + 1, lowkey, st1, seen1, before, fuel, r);
    } else {
      TargetEnd(g, tblk, lowkey, st, seen, before, fuel, r);
    }
  }

  /** The low key held while a target is checked is the high key of the target before it. */
  ghost predicate LowKeyFrom(index: Index, left: nat, lowkey: Option<Item>) {
    lowkey.Some? ==> left != P_NONE && left in index && |index[left].items| >= 1 && lowkey.value == index[left].items[0]
  }

  /** The targets visited so far lead to the current one by right links. */
  ghost predicate TargetsLeadTo(index: Index, targets: seq<nat>, current: nat) {
    Linked(index, targets) && (targets != [] ==> index[targets[|targets| - 1]].next == current)
  }

  lemma TargetsSnoc(index: Index, targets: seq<nat>, current: nat)
    requires TargetsLeadTo(index, targets, current) && current in index && current != P_NONE
    ensures TargetsLeadTo(index, targets + [current], index[current].next)
    ensures LevelDownlinks(index, targets + [current]) == LevelDownlinks(index, targets) + PageDownlinks(index[current])
  {
    assert (targets + [current])[..|targets|] == targets;
  }

  /** A target that passes its own checks: if live, it is an internal page whose left link is the previous target. */
  lemma LevelTurnMeans(index: Index, level: Level, s: LevelState, p: BtPage)
    requires Load(index, s.current) == Ok(p) && s.current != P_NONE && LevelTurn(index, level, s, p).Ok?
             && level.level >= 1
    ensures LevelTurn(index, level, s, p).value.left == s.current
            && LevelTurn(index, level, s, p).value.current == p.next
    ensures Ignore(p) ==> !Rightmost(p)
    ensures !Ignore(p) ==> !p.leaf && (s.left != P_NONE ==> p.prev == s.left) && FirstDataKey(p) <= |p.items|
  {
  }

  /** Where the level pass stands when it comes to target s.current. */
  ghost predicate LevelReady(g: Region, level: Level, s: LevelState, lowkey: Option<Item>, st: CheckState,
                             targets: seq<nat>, seen: seq<Visit>) {
    && g.Valid() && s.current in g.parents && level.level >= 1 && s.current != P_NONE
    && Progress(g, seen, st) && LowKeyFrom(g.index, s.left, lowkey)
    && TargetsLeadTo(g.index, targets, s.current) && Matched(seen) == LevelDownlinks(g.index, targets)
  }

  /** What one target adds: its downlinks are matched, and the walk goes on unless the level ends here. */
  lemma TargetChecksExtend(g: Region, level: Level, s: LevelState, lowkey: Option<Item>, st: CheckState,
                           targets: seq<nat>, seen: seq<Visit>, fuel: nat, st1: CheckState, seen1: seq<Visit>)
    requires LevelReady(g, level, s, lowkey, st, targets, seen)
    requires Load(g.index, s.current).Ok? && LevelTurn(g.index, level, s, Load(g.index, s.current).value).Ok?
    requires TargetChecks(g.index, s.current, Load(g.index, s.current).value, lowkey, st, seen, fuel)
             == Ok((st1, seen1))
    ensures Matched(seen1) == Matched(seen) + PageDownlinks(g.index[s.current])
    ensures if Rightmost(g.index[s.current]) then Complete(g.index, seen1) && BeginsLeftmost(g.index, seen1)
            else Progress(g, seen1, st1)
  {
    var p := g.index[s.current];
    LevelTurnMeans(g.index, level, s, p);
    if !Ignore(p) {
      TargetPassExtends(g, s.current, FirstDataKey(p), lowkey, st, seen, Matched(seen), fuel, (st1, seen1));
    }
  }

  lemma LowKeyCarried(index: Index, b: nat)
    requires b in index && b != P_NONE && LowKey(index[b]).Ok?
    ensures LowKeyFrom(index, b, LowKey(index[b]).value)
  {
  }

  /** Parent and child level have both been walked to their ends, in lockstep. */
  ghost predicate Lockstep(index: Index, leftmost: nat, r: (seq<nat>, seq<Visit>)) {
    && Chain(index, r.0) && r.0[0] == leftmost
    && Complete(index, r.1) && BeginsLeftmost(index, r.1)
    && Matched(r.1) == LevelDownlinks(index, r.0)
  }

  /** The variables of the level pass before one of its turns. */
  datatype Point = Point(s: LevelState, lowkey: Option<Item>, st: CheckState, targets: seq<nat>, seen: seq<Visit>)

  /** One turn of the pass leads from x to y. */
  ghost predicate Turns(index: Index, level: Level, x: Point, y: Point, fuel: nat) {
    && x.s.current != P_NONE && Load(index, x.s.current).Ok?
      && LevelTurn(index, level, x.s, index[x.s.current]) == Ok(y.s)
    && TargetChecks(index, x.s.current, index[x.s.current], x.lowkey, x.st, x.seen, fuel) == Ok((y.st, y.seen))
    && LowKey(index[x.s.current]) == Ok(y.lowkey) && y.targets == x.targets + [x.s.current]
  }

  ghost function AllTurns(index: Index, level: Level): iset<(Point, Point)> {
    iset x: Point, y: Point | exists fuel :: Turns(index, level, x, y, fuel) :: (x, y)
  }

  lemma PassTurn(index: Index, level: Level, x: Point, fuel: nat) returns (y: Point)
    requires x.s.current != P_NONE && LevelPass(index, level, x.s, x.lowkey, x.st, x.targets, x.seen, fuel).Ok?
    ensures fuel > 0 && (x, y) in AllTurns(index, level)
    ensures LevelPass(index, level, x.s, x.lowkey, x.st, x.targets, x.seen, fuel)
         == if y.s.current == P_NONE then Ok((y.targets, y.seen))
            else LevelPass(index, level, y.s, y.lowkey, y.st, y.targets, y.seen, fuel - 1)
  {
    var p := Load(index, x.s.current).value;
    var (st, seen) := TargetChecks(index, x.s.current, p, x.lowkey, x.st, x.seen, fuel).value;
    y := Point(LevelTurn(index, level, x.s, p).value, LowKey(p).value, st, x.targets + [x.s.current], seen);
    assert Turns(index, level, x, y, fuel);
  }

  /** The points of a pass that ends, turn by turn. */
  lemma {:induction false} PassHasTrace(index: Index, level: Level, x: Point, fuel: nat) returns (ps: seq<Point>)
    requires x.s.current != P_NONE && LevelPass(index, level, x.s, x.lowkey, x.st, x.targets, x.seen, fuel).Ok?
    ensures ps != [] && ps[0] == x && Steps(ps, AllTurns(index, level)) && ps[|ps| - 1].s.current == P_NONE
    ensures LevelPass(index, level, x.s, x.lowkey, x.st, x.targets, x.seen, fuel).value
         == (ps[|ps| - 1].targets, ps[|ps| - 1].seen)
    decreases fuel
  {
    var y := PassTurn(index, level, x, fuel);
    var rest := [y];
    if y.s.current != P_NONE {
      rest := PassHasTrace(index, level, y, fuel - 1);
    }
    StepsCons(x, rest, AllTurns(index, level));
    ps := [x] + rest;
  }

  /** Before each turn the pass stands ready for its target; after the last one both levels have been walked. */
  ghost predicate Ready(g: Region, level: Level, leftmost: nat, x: Point) {
    if x.s.current == P_NONE then Lockstep(g.index, leftmost, (x.targets, x.seen))
    else
      && LevelReady(g, level, x.s, x.lowkey, x.st, x.targets, x.seen)
      && (if x.targets == [] then x.s.current else x.targets[0]) == leftmost
  }

  ghost function ReadyPoints(g: Region, level: Level, leftmost: nat): iset<Point> {
    iset x: Point | Ready(g, level, leftmost, x)
  }

  lemma ReadyNext(g: Region, level: Level, leftmost: nat, x: Point, y: Point, fuel: nat)
    requires x in ReadyPoints(g, level, leftmost) && Turns(g.index, level, x, y, fuel)
    ensures y in ReadyPoints(g, level, leftmost)
  {
    LevelTurnMeans(g.index, level, x.s, g.index[x.s.current]);
    TargetChecksExtend(g, level, x.s, x.lowkey, x.st, x.targets, x.seen, fuel, y.st, y.seen);
    TargetsSnoc(g.index, x.targets, x.s.current);
    LowKeyCarried(g.index, x.s.current);
  }

  lemma ReadyIsKept(g: Region, level: Level, leftmost: nat)
    ensures Closed(ReadyPoints(g, level, leftmost), AllTurns(g.index, level))
  {
    forall x, y | (x, y) in AllTurns(g.index, level) && x in ReadyPoints(g, level, leftmost)
      ensures y in ReadyPoints(g, level, leftmost)
    {
      var fuel :| Turns(g.index, level, x, y, fuel);
      ReadyNext(g, level, leftmost, x, y, fuel);
    }
  }

  function StartPoint(leftmost: nat): Point {
    Point(LevelState(P_NONE, leftmost, INVALID_BLOCK), None, INITIAL, [], [])
  }

  lemma StartIsReady(index: Index, level: Level, leftmost: nat)
    requires level.level >= 1 && leftmost != P_NONE && NoReservedLinks(index, leftmost)
    ensures StartPoint(leftmost) in ReadyPoints(RegionOf(index), level, leftmost)
  {
    RegionIsValid(index);
  }

  lemma EndIsLockstep(g: Region, level: Level, leftmost: nat, x: Point)
    requires x in ReadyPoints(g, level, leftmost) && x.s.current == P_NONE
    ensures Lockstep(g.index, leftmost, (x.targets, x.seen))
  {
  }

  // ---------- the main results ----------

  lemma {:induction false} WalkIsLinked(index: Index, w: seq<Visit>)
    requires Walk(index, w)
    ensures Linked(index, Blocks(w))
  {
    if w != [] {
      var n := |w| - 1;
      WalkIsLinked(index, w[..n]);
      forall i | 0 <= i < |w|
        ensures Blocks(w)[i] in index && Blocks(w)[i] != P_NONE
                && (i < n ==> index[Blocks(w)[i]].next == Blocks(w)[i + 1])
      {
        if i < n {
          assert Blocks(w)[i] == Blocks(w[..n])[i];
          if i < n - 1 {
            assert Blocks(w)[i + 1] == Blocks(w[..n])[i + 1];
          }
        }
      }
    }
  }

  lemma AcceptedIsLockstep(index: Index, level: Level, leftmost: nat, fuel: nat)
    requires level.level >= 1 && leftmost != P_NONE && NoReservedLinks(index, leftmost)
    requires CheckLevel(index, level, leftmost, fuel).Ok?
    ensures Lockstep(index, leftmost, CheckLevel(index, level, leftmost, fuel).value)
  {
    var g := RegionOf(index);
    var ps := PassHasTrace(index, level, StartPoint(leftmost), fuel);
    StartIsReady(index, level, leftmost);
    ReadyIsKept(g, level, leftmost);
    KeptAlong(ps, AllTurns(index, level), ReadyPoints(g, level, leftmost));
    EndIsLockstep(g, level, leftmost, ps[|ps| - 1]);
  }

  /** An accepted internal level: its downlinks, left to right, are exactly the blocks that the walk along the
      right links of the child level marks as reached by a downlink, and that walk runs from the leftmost child to
      the rightmost one, passing no page twice. */
  lemma AcceptedLevelIsLockstep(index: Index, level: Level, leftmost: nat, fuel: nat)
    requires level.level >= 1 && leftmost != P_NONE && NoReservedLinks(index, leftmost)
    requires CheckLevel(index, level, leftmost, fuel).Ok?
    ensures Lockstep(index, leftmost, CheckLevel(index, level, leftmost, fuel).value)
    ensures var visits := CheckLevel(index, level, leftmost, fuel).value.1;
            Chain(index, Blocks(visits)) && Distinct(Blocks(visits))
  {
    AcceptedIsLockstep(index, level, leftmost, fuel);
    var visits := CheckLevel(index, level, leftmost, fuel).value.1;
    WalkIsLinked(index, visits);
    ChainDistinct(index, Blocks(visits));
  }

  /** Each visited page without downlink has an excuse, and each high key agrees with the parent level. */
  lemma {:induction false} VisitsAreExcused(index: Index, w: seq<Visit>, i: nat)
    requires Walk(index, w) && i < |w|
    ensures var v := w[i];
            && v.blk in index && v.target in index && KeyOk(index, v)
            && (v.matched || (i > 0 && w[i - 1].blk in index
                              && Excused(index, v.blk, index[w[i - 1].blk].incompleteSplit)))
  {
    if i < |w| - 1 {
      VisitsAreExcused(index, w[..|w| - 1], i);
    }
  }

  lemma AcceptedVisitsAreExcused(index: Index, level: Level, leftmost: nat, fuel: nat, i: nat)
    requires level.level >= 1 && leftmost != P_NONE && NoReservedLinks(index, leftmost)
    requires CheckLevel(index, level, leftmost, fuel).Ok? && i < |CheckLevel(index, level, leftmost, fuel).value.1|
    ensures var visits := CheckLevel(index, level, leftmost, fuel).value.1;
            var v := visits[i];
            && v.blk in index && v.target in index && KeyOk(index, v)
            && (v.matched || (i > 0 && visits[i - 1].blk in index
                              && Excused(index, v.blk, index[visits[i - 1].blk].incompleteSplit)))
  {
    AcceptedLevelIsLockstep(index, level, leftmost, fuel);
    VisitsAreExcused(index, CheckLevel(index, level, leftmost, fuel).value.1, i);
  }

  // ---------- the condition is exact ----------

  /** Right links from a block of a chain stay on the chain. */
  lemma {:induction false} PathOnChain(index: Index, w: seq<nat>, k: nat, path: seq<nat>)
    requires Chain(index, w) && k < |w| && RightPath(index, path, w[k])
    ensures k + |path| <= |w| && path[|path| - 1] == w[k + |path| - 1]
    decreases |path|
  {
    if |path| > 1 {
      assert index[path[0]].next == path[1];
      assert index[w[k]].next == w[k + 1];
      PathOnChain(index, w, k + 1, path[1..]);
    }
  }

  lemma ChainLinksAreSound(index: Index, w: seq<nat>, k: nat)
    requires Chain(index, w) && k < |w| && INVALID_BLOCK !in index
    ensures SoundRightLinks(index, w[k])
  {
    forall path | RightPath(index, path, w[k])
      ensures index[path[|path| - 1]].next != INVALID_BLOCK
    {
      PathOnChain(index, w, k, path);
      var m := k + |path| - 1;
      if m < |w| - 1 {
        assert index[w[m]].next == w[m + 1];
      }
    }
  }

  lemma {:induction false} DownlinkIsListed(p: BtPage, off: nat, i: nat)
    requires FirstDataKey(p) - 1 <= i < off - 1 && off <= |p.items| + 1
    ensures p.items[i].downlink in DownlinksBelow(p, off)
  {
    if i < off - 2 {
      DownlinkIsListed(p, off - 1, i);
    }
  }

  lemma {:induction false} PageIsListed(index: Index, targets: seq<nat>, k: nat, d: nat)
    requires Linked(index, targets) && k < |targets| && d in PageDownlinks(index[targets[k]])
    ensures d in LevelDownlinks(index, targets)
  {
    var n := |targets| - 1;
    if k < n {
      PageIsListed(index, targets[..n], k, d);
    }
  }

  lemma {:induction false} MatchedIsVisited(w: seq<Visit>, d: nat)
    requires d in Matched(w)
    ensures exists i :: 0 <= i < |w| && w[i].blk == d
  {
    var n := |w| - 1;
    if d in Matched(w[..n]) {
      MatchedIsVisited(w[..n], d);
      var i :| 0 <= i < n && w[..n][i].blk == d;
      assert w[i].blk == d;
    } else {
      assert w[n].blk == d;
    }
  }

  lemma ListedDownlinkIsSound(index: Index, leftmost: nat, r: (seq<nat>, seq<Visit>), d: nat)
    requires Lockstep(index, leftmost, r) && INVALID_BLOCK !in index && d in LevelDownlinks(index, r.0)
    ensures d != P_NONE && SoundRightLinks(index, d)
  {
    WalkIsLinked(index, r.1);
    MatchedIsVisited(r.1, d);
    var i :| 0 <= i < |r.1| && r.1[i].blk == d;
    assert Blocks(r.1)[i] == d;
    ChainLinksAreSound(index, Blocks(r.1), i);
  }

  lemma LockstepHasSoundLinks(index: Index, leftmost: nat, r: (seq<nat>, seq<Visit>))
    requires Lockstep(index, leftmost, r) && INVALID_BLOCK !in index
    ensures NoReservedLinks(index, leftmost)
  {
    forall path | RightPath(index, path, leftmost)
      ensures SoundDownlinks(index, path[|path| - 1])
    {
      PathOnChain(index, r.0, 0, path);
      var k := |path| - 1;
      var p := index[r.0[k]];
      if !Ignore(p) {
        forall i | FirstDataKey(p) - 1 <= i < |p.items|
          ensures p.items[i].downlink != P_NONE && SoundRightLinks(index, p.items[i].downlink)
        {
          DownlinkIsListed(p, |p.items| + 1, i);
          PageIsListed(index, r.0, k, p.items[i].downlink);
          ListedDownlinkIsSound(index, leftmost, r, p.items[i].downlink);
        }
      }
    }
  }

  /** An accepted level is in lockstep with its children exactly when no reserved block number stands in its
      downlinks or in the right links reached from them. */
  lemma LockstepExactly(index: Index, level: Level, leftmost: nat, fuel: nat)
    requires level.level >= 1 && leftmost != P_NONE && INVALID_BLOCK !in index
    requires CheckLevel(index, level, leftmost, fuel).Ok?
    ensures Lockstep(index, leftmost, CheckLevel(index, level, leftmost, fuel).value)
            <==> NoReservedLinks(index, leftmost)
  {
    if NoReservedLinks(index, leftmost) {
      AcceptedLevelIsLockstep(index, level, leftmost, fuel);
    }
    if Lockstep(index, leftmost, CheckLevel(index, level, leftmost, fuel).value) {
      LockstepHasSoundLinks(index, leftmost, CheckLevel(index, level, leftmost, fuel).value);
    }
  }

  // ---------- the two reserved block numbers at work ----------

  const METAPAGE := BtPage(0, 0, 0, false, false, false, false, false, false, true, false, [])

  function Live(prev: nat, next: nat, level: nat, root: bool, items: seq<Item>): BtPage {
    BtPage(prev, next, level, level == 0, root, false, false, false, false, false, false, items)
  }

  /** A root whose only downlink is 0. */
  const ZERO_DOWNLINK: Index := map[0 := METAPAGE, 1 := Live(0, 0, 1, true, [Item([], [], 0)])]

  lemma ZeroDownlinkTurn()
    ensures LevelTurn(ZERO_DOWNLINK, Level(1, true), LevelState(0, 1, INVALID_BLOCK), ZERO_DOWNLINK[1])
            == Ok(LevelState(1, 0, 0))
    ensures Load(ZERO_DOWNLINK, 1) == Ok(ZERO_DOWNLINK[1]) && LowKey(ZERO_DOWNLINK[1]) == Ok(None)
  {
    assert LeftmostIgnoringHalfDead(ZERO_DOWNLINK, 1, 0) == Ok(true);
  }

  lemma ZeroDownlinkCalls()
    ensures TargetPass(ZERO_DOWNLINK, 1, ZERO_DOWNLINK[1], 1, None, INITIAL, [], 2) == Ok((INITIAL, []))
  {
    var index := ZERO_DOWNLINK;
    var p := index[1];
    assert ChildHighkeyCheck(Call(index, 1, p, 1, 0, None, INITIAL), [], 2) == Ok((INITIAL, []));
    assert DownlinkCheck(index, 1, p, 1, None, INITIAL, [], 2) == Ok((INITIAL, []));
    assert TargetPass(index, 1, p, 2, None, INITIAL, [], 2) == Ok((INITIAL, []));
  }

  /** The pass accepts a downlink to block 0 and visits no child at all. */
  lemma ZeroDownlinkAccepted()
    ensures CheckLevel(ZERO_DOWNLINK, Level(1, true), 1, 2) == Ok(([1], []))
    ensures PageDownlinks(ZERO_DOWNLINK[1]) == [0]
  {
    ZeroDownlinkTurn();
    ZeroDownlinkCalls();
    assert [] + [1] == [1];
    assert DownlinksBelow(ZERO_DOWNLINK[1], 1) == [];
  }

  /** Two leaves; the right link of the first is 0xFFFFFFFF instead of the second. */
  const LOST_LINK: Index :=
    map[0 := METAPAGE,
        1 := Live(0, 0, 1, true, [Item([], [], 2), Item([5], [], 3)]),
        2 := Live(0, INVALID_BLOCK, 0, false, [Item([5], [], 0)]),
        3 := Live(0, 0, 0, false, [])]

  /** Both calls pass: the first leaves 0xFFFFFFFF behind, which the second takes for a fresh start. */
  lemma LostLinkCalls()
    ensures DownlinkCheck(LOST_LINK, 1, LOST_LINK[1], 1, None, INITIAL, [], 2) == Ok((INITIAL, [Visit(2, 1, 1, true)]))
    ensures DownlinkCheck(LOST_LINK, 1, LOST_LINK[1], 2, None, INITIAL, [Visit(2, 1, 1, true)], 2)
         == Ok((CheckState(P_NONE, false), [Visit(2, 1, 1, true), Visit(3, 1, 2, true)]))
  {
    var index := LOST_LINK;
    var p := index[1];
    var c2, c3 := Call(index, 1, p, 1, 2, None, INITIAL), Call(index, 1, p, 2, 3, None, INITIAL);
    assert LeftmostIgnoringHalfDead(index, 2, 0) == Ok(true) && LeftmostIgnoringHalfDead(index, 3, 0) == Ok(true);
    assert Load(index, 2) == Ok(index[2]) && Load(index, 3) == Ok(index[3]);
    assert Separator(c2, 2) == Ok(p.items[1]);
    assert VisitCheck(c2, 2, index[2], false, true, 2) == Ok(true);
    assert VisitCheck(c3, 3, index[3], false, true, 2) == Ok(true);
    assert [] + [Visit(2, 1, 1, true)] == [Visit(2, 1, 1, true)];
    assert [Visit(2, 1, 1, true)] + [Visit(3, 1, 2, true)] == [Visit(2, 1, 1, true), Visit(3, 1, 2, true)];
    assert ChildHighkeyCheck(c2, [], 2) == Ok((INITIAL, [] + [Visit(2, 1, 1, true)]));
    assert ChildHighkeyCheck(c3, [Visit(2, 1, 1, true)], 2)
        == Ok((CheckState(P_NONE, false), [Visit(2, 1, 1, true)] + [Visit(3, 1, 2, true)]));
  }

  /** The pass accepts two children that no right link connects. */
  lemma LostLinkAccepted()
    ensures CheckLevel(LOST_LINK, Level(1, true), 1, 2) == Ok(([1], [Visit(2, 1, 1, true), Visit(3, 1, 2, true)]))
    ensures LOST_LINK[2].next != 3
  {
    var index := LOST_LINK;
    var p := index[1];
    assert LevelTurn(index, Level(1, true), LevelState(0, 1, INVALID_BLOCK), p) == Ok(LevelState(1, 0, 2)) by {
      assert LeftmostIgnoringHalfDead(index, 1, 0) == Ok(true);
    }
    LostLinkCalls();
    var seen := [Visit(2, 1, 1, true), Visit(3, 1, 2, true)];
    assert TargetPass(index, 1, p, 3, None, CheckState(P_NONE, false), seen, 2) == Ok((INITIAL, seen));
    assert TargetPass(index, 1, p, 2, None, INITIAL, [Visit(2, 1, 1, true)], 2) == Ok((INITIAL, seen));
    assert TargetPass(index, 1, p, 1, None, INITIAL, [], 2) == Ok((INITIAL, seen));
    assert LowKey(p) == Ok(None) && [] + [1] == [1];
  }
}
