/** The leftward walk over half-dead pages (bt_leftmost_ignoring_half_dead): it ends on every index, however
    corrupt its links are, and accepts exactly the chains it is meant to accept. */
module BtHalfDead {
  import opened BtPages

  /** Blocks visited so far to the left of `start`, nearest first: half-dead, and each page's right link
      points back to where the walk came from. */
  ghost predicate LeftPath(index: Index, start: nat, path: seq<nat>) {
    && Distinct(path)
    && forall i :: 0 <= i < |path| ==>
         path[i] in index && path[i] != start && index[path[i]].halfDead && index[path[i]].next == Came(start, path, i)
  }

  /** Where the walk came from when it reached the i-th block of the path. */
  function Came(start: nat, path: seq<nat>, i: int): nat
    requires 0 <= i <= |path|
  {
    if i == 0 then start else path[i - 1]
  }

  function From(start: nat, path: seq<nat>): nat {
    Came(start, path, |path|)
  }

  predicate AcceptsHalfDead(p: BtPage, reached: nat, start: nat, from: nat) {
    p.halfDead && reached != start && reached != from && p.next == from
  }

  lemma NotSeenBefore(index: Index, start: nat, path: seq<nat>, reached: nat, i: nat)
    requires LeftPath(index, start, path) && reached in index && i < |path|
    requires AcceptsHalfDead(index[reached], reached, start, From(start, path))
    ensures path[i] != reached
  {
    assert index[path[i]].next == Came(start, path, i);
  }

  lemma DistinctSnoc(path: seq<nat>, b: nat)
    requires Distinct(path) && forall i :: 0 <= i < |path| ==> path[i] != b
    ensures Distinct(path + [b])
  {
  }

  lemma LongerPath(index: Index, start: nat, path: seq<nat>, reached: nat)
    requires LeftPath(index, start, path) && reached in index
    requires AcceptsHalfDead(index[reached], reached, start, From(start, path))
    ensures LeftPath(index, start, path + [reached])
  {
    var longer := path + [reached];
    forall i | 0 <= i < |path|
      ensures path[i] != reached
    {
      NotSeenBefore(index, start, path, reached, i);
    }
    DistinctSnoc(path, reached);
    forall i | 0 <= i < |longer|
      ensures Came(start, longer, i) == if i < |path| then Came(start, path, i) else From(start, path)
    {
    }
  }

  /** A page the walk accepts cannot be one it has passed before. */
  lemma FreshBlock(index: Index, start: nat, path: seq<nat>, reached: nat)
    requires LeftPath(index, start, path) && reached in index
    requires AcceptsHalfDead(index[reached], reached, start, From(start, path))
    ensures LeftPath(index, start, path + [reached])
    ensures |path| < |index|
  {
    LongerPath(index, start, path, reached);
    DistinctFits(index, path + [reached]);
  }

  /** The walk from `reached` on, after the blocks in `path`. */
  function WalkLeft(index: Index, start: nat, path: seq<nat>, reached: nat): Outcome<bool>
    requires LeftPath(index, start, path)
    decreases |index| - |path|
  {
    if reached == P_NONE then Ok(true)
    else
      var p :- Load(index, reached);
      if AcceptsHalfDead(p, reached, start, From(start, path)) then
        FreshBlock(index, start, path, reached);
        DistinctFits(index, path + [reached]);
        WalkLeft(index, start, path + [reached], p.prev)
      else Ok(false)
  }

  /** What bt_leftmost_ignoring_half_dead returns for block `start` whose left link is `prev`. */
  function LeftmostIgnoringHalfDead(index: Index, start: nat, prev: nat): Outcome<bool> {
    WalkLeft(index, start, [], prev)
  }

  /** bt_leftmost_ignoring_half_dead as the loop it is; the blocks not visited yet are its measure. */
  method LeftmostIgnoringHalfDeadLoop(index: Index, start: nat, startPage: BtPage) returns (r: Outcome<bool>)
    ensures r == LeftmostIgnoringHalfDead(index, start, startPage.prev)
  {
    var reached := startPage.prev;
    var reachedFrom := start;
    var allHalfDead := true;
    ghost var path: seq<nat> := [];
    while reached != P_NONE && allHalfDead
      invariant LeftPath(index, start, path) && reachedFrom == From(start, path) && |path| <= |index|
      invariant LeftmostIgnoringHalfDead(index, start, startPage.prev)
                == if allHalfDead then WalkLeft(index, start, path, reached) else Ok(false)
      decreases allHalfDead, |index| - |path|
    {
      var page := Load(index, reached);
      if !page.Ok? {
        return if page.Corrupt? then Corrupt else OutOfFuel;
      }
      allHalfDead := AcceptsHalfDead(page.value, reached, start, reachedFrom);
      if allHalfDead {
        FreshBlock(index, start, path, reached);
        DistinctFits(index, path + [reached]);
        path := path + [reached];
        reachedFrom := reached;
        reached := page.value.prev;
      }
    }
    r := Ok(allHalfDead);
  }

  // ---------- what acceptance means ----------

  /** `w` is the run of pages to the left of `start`, nearest first: all readable and half-dead, linked both
      ways, and nothing further left. */
  ghost predicate HalfDeadRun(index: Index, start: nat, prev: nat, w: seq<nat>) {
    && (forall i :: 0 <= i < |w| ==>
          w[i] != P_NONE && Load(index, w[i]).Ok? && index[w[i]].halfDead && index[w[i]].next == Came(start, w, i))
    && (forall i :: 0 < i < |w| ==> w[i] == index[w[i - 1]].prev)
    && prev == (if w == [] then P_NONE else w[0])
    && (w != [] ==> index[w[|w| - 1]].prev == P_NONE)
  }

  lemma {:induction false} WalkFindsRun(index: Index, start: nat, path: seq<nat>, reached: nat) returns (w: seq<nat>)
    requires LeftPath(index, start, path) && WalkLeft(index, start, path, reached) == Ok(true)
    ensures HalfDeadRun(index, From(start, path), reached, w)
    decreases |index| - |path|
  {
    if reached == P_NONE {
      w := [];
    } else {
      FreshBlock(index, start, path, reached);
      var rest := WalkFindsRun(index, start, path + [reached], index[reached].prev);
      w := [reached] + rest;
      forall i | 0 < i < |w|
        ensures index[w[i]].next == Came(From(start, path), w, i) && w[i] == index[w[i - 1]].prev
      {
        assert w[i] == rest[i - 1];
        assert i > 1 ==> w[i - 1] == rest[i - 2];
      }
    }
  }

  lemma {:induction false} RunDiffers(index: Index, start: nat, prev: nat, w: seq<nat>, i: nat, j: nat)
    requires HalfDeadRun(index, start, prev, w) && i < j < |w|
    ensures w[i] != w[j]
    decreases |w| - j
  {
    assert w[i + 1] == index[w[i + 1 - 1]].prev;
    if j < |w| - 1 {
      assert w[j + 1] == index[w[j + 1 - 1]].prev;
      RunDiffers(index, start, prev, w, i + 1, j + 1);
    }
  }

  /** A run that ends does not come back to the block it started from. */
  lemma RunAvoidsStart(index: Index, start: nat, w: seq<nat>, i: nat)
    requires start in index && HalfDeadRun(index, start, index[start].prev, w) && i < |w|
    ensures w[i] != start
  {
    if i < |w| - 1 {
      assert w[i + 1] == index[w[i + 1 - 1]].prev;
      RunDiffers(index, start, index[start].prev, w, 0, i + 1);
    }
  }

  lemma RunPrefixIsPath(index: Index, start: nat, w: seq<nat>, k: nat)
    requires start in index && HalfDeadRun(index, start, index[start].prev, w) && k <= |w|
    ensures LeftPath(index, start, w[..k])
  {
    forall i, j | 0 <= i < j < k
      ensures w[i] != w[j]
    {
      RunDiffers(index, start, index[start].prev, w, i, j);
    }
    forall i | 0 <= i < k
      ensures w[..k][i] != start && index[w[..k][i]].next == Came(start, w[..k], i)
    {
      RunAvoidsStart(index, start, w, i);
      assert Came(start, w[..k], i) == Came(start, w, i);
    }
  }

  lemma RunAccepted(index: Index, start: nat, w: seq<nat>, k: nat)
    requires start in index && HalfDeadRun(index, start, index[start].prev, w) && k < |w|
    ensures Load(index, w[k]).Ok? && AcceptsHalfDead(index[w[k]], w[k], start, From(start, w[..k]))
  {
    assert From(start, w[..k]) == Came(start, w, k);
    RunAvoidsStart(index, start, w, k);
    if k > 0 {
      RunDiffers(index, start, index[start].prev, w, k - 1, k);
    }
  }

  lemma WalkTurn(index: Index, start: nat, path: seq<nat>, reached: nat)
    requires LeftPath(index, start, path) && reached != P_NONE && Load(index, reached).Ok?
    requires AcceptsHalfDead(index[reached], reached, start, From(start, path))
    ensures LeftPath(index, start, path + [reached])
    ensures WalkLeft(index, start, path, reached) == WalkLeft(index, start, path + [reached], index[reached].prev)
  {
    FreshBlock(index, start, path, reached);
  }

  lemma {:induction false} RunIsWalked(index: Index, start: nat, w: seq<nat>, k: nat)
    requires start in index && HalfDeadRun(index, start, index[start].prev, w) && k <= |w|
    ensures LeftPath(index, start, w[..k])
    ensures WalkLeft(index, start, w[..k], if k < |w| then w[k] else P_NONE) == Ok(true)
    decreases |w| - k
  {
    RunPrefixIsPath(index, start, w, k);
    if k < |w| {
      RunIsWalked(index, start, w, k + 1);
      RunAccepted(index, start, w, k);
      WalkTurn(index, start, w[..k], w[k]);
      assert w[..k] + [w[k]] == w[..k + 1];
      assert k + 1 < |w| ==> w[k + 1] == index[w[k + 1 - 1]].prev;
    }
  }

  /** The walk returns true exactly when everything to the left of the page is a run of half-dead pages whose
      right links lead back to it; in particular when there is nothing to the left. */
  lemma AcceptsExactlyHalfDeadRuns(index: Index, start: nat)
    requires start in index
    ensures LeftmostIgnoringHalfDead(index, start, index[start].prev) == Ok(true)
            <==> exists w :: HalfDeadRun(index, start, index[start].prev, w)
  {
    if LeftmostIgnoringHalfDead(index, start, index[start].prev) == Ok(true) {
      var w := WalkFindsRun(index, start, [], index[start].prev);
    }
    if w :| HalfDeadRun(index, start, index[start].prev, w) {
      RunIsWalked(index, start, w, 0);
      assert w[..0] == [];
    }
  }
}
