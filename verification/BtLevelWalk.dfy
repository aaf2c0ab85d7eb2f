/** The walk along one level in readonly mode (the loop of bt_check_level_from_leftmost): on which indexes, whose links
    may be corrupt, does it come to an end? */
module BtLevelWalk {
  import opened Basics
  import opened BtPages
  import opened BtHalfDead
  import opened BtLockstep

  /** The turns of the loop alone, without the checks on children; `visited` are the targets so far. */
  function LevelWalk(index: Index, level: Level, s: LevelState, visited: seq<nat>, turns: nat): Outcome<seq<nat>>
    decreases turns
  {
    if turns == 0 then OutOfFuel
    else
      var p :- Load(index, s.current);
      var next :- LevelTurn(index, level, s, p);
      var low :- LowKey(p);
      if next.current == P_NONE then Ok(visited + [s.current])
      else LevelWalk(index, level, next, visited + [s.current], turns - 1)
  }

  function FirstState(leftmost: nat): LevelState {
    LevelState(P_NONE, leftmost, INVALID_BLOCK)
  }

  /** A level that passes all checks has been walked to its end. */
  lemma {:induction false} PassWalks(index: Index, level: Level, s: LevelState, lowkey: Option<Item>, st: CheckState,
                                     targets: seq<nat>, seen: seq<Visit>, fuel: nat)
    requires LevelPass(index, level, s, lowkey, st, targets, seen, fuel).Ok?
    ensures LevelWalk(index, level, s, targets, fuel)
            == Ok(LevelPass(index, level, s, lowkey, st, targets, seen, fuel).value.0)
    decreases fuel
  {
    var p := Load(index, s.current).value;
    var next := LevelTurn(index, level, s, p).value;
    var (st1, seen1) := TargetChecks(index, s.current, p, lowkey, st, seen, fuel).value;
    if next.current != P_NONE {
      PassWalks(index, level, next, LowKey(p).value, st1, targets + [s.current], seen1, fuel - 1);
    }
  }

  lemma {:induction false} LeftWalkNeverRunsOut(index: Index, start: nat, path: seq<nat>, reached: nat)
    requires LeftPath(index, start, path)
    ensures WalkLeft(index, start, path, reached) != OutOfFuel
    decreases |index| - |path|
  {
    if reached != P_NONE && Load(index, reached).Ok?
       && AcceptsHalfDead(index[reached], reached, start, From(start, path)) {
      FreshBlock(index, start, path, reached);
      LeftWalkNeverRunsOut(index, start, path + [reached], index[reached].prev);
    }
  }

  lemma TurnNeverRunsOut(index: Index, level: Level, s: LevelState, p: BtPage)
    ensures LevelTurn(index, level, s, p) != OutOfFuel
  {
    LeftWalkNeverRunsOut(index, s.current, [], p.prev);
  }

  // ---------- runs of the loop ----------

  /** A turn that passes and leads on to another page. */
  predicate LeadsOn(index: Index, level: Level, s: LevelState) {
    && Load(index, s.current).Ok? && LowKey(index[s.current]).Ok? && index[s.current].next != P_NONE
    && LevelTurn(index, level, s, index[s.current]).Ok?
  }

  function NextState(index: Index, level: Level, s: LevelState): LevelState
    requires LeadsOn(index, level, s)
  {
    LevelTurn(index, level, s, index[s.current]).value
  }

  /** Loop states, each the one after the state before it. */
  ghost predicate Run(index: Index, level: Level, ss: seq<LevelState>) {
    ss != [] && forall i :: 0 <= i < |ss| - 1 ==>
      LeadsOn(index, level, ss[i]) && ss[i + 1] == NextState(index, level, ss[i])
  }

  /** A walk that has used up its turns has made that many. */
  lemma {:induction false} RunFound(index: Index, level: Level, s: LevelState, visited: seq<nat>, turns: nat)
    returns (ss: seq<LevelState>)
    requires LevelWalk(index, level, s, visited, turns) == OutOfFuel
    ensures Run(index, level, ss) && |ss| == turns + 1 && ss[0] == s
    decreases turns
  {
    ss := [s];
    if turns > 0 {
      TurnNeverRunsOut(index, level, s, index[s.current]);
      assert LeadsOn(index, level, s);
      var rest := RunFound(index, level, NextState(index, level, s), visited + [s.current], turns - 1);
      ss := [s] + rest;
      assert forall i :: 0 < i < |ss| ==> ss[i] == rest[i - 1];
    }
  }

  lemma {:induction false} RunIsOutOfFuel(index: Index, level: Level, ss: seq<LevelState>, visited: seq<nat>)
    requires Run(index, level, ss)
    ensures LevelWalk(index, level, ss[0], visited, |ss| - 1) == OutOfFuel
    decreases |ss|
  {
    if |ss| > 1 {
      assert ss[0 + 1] == NextState(index, level, ss[0]);
      RunIsOutOfFuel(index, level, ss[1..], visited + [ss[0].current]);
    }
  }

  lemma RunPrefix(index: Index, level: Level, ss: seq<LevelState>, n: nat)
    requires Run(index, level, ss) && 1 <= n <= |ss|
    ensures Run(index, level, ss[..n])
  {
  }

  lemma RunSnoc(index: Index, level: Level, ss: seq<LevelState>)
    requires Run(index, level, ss) && LeadsOn(index, level, ss[|ss| - 1])
    ensures Run(index, level, ss + [NextState(index, level, ss[|ss| - 1])])
  {
  }

  /** The leftmost block of the next level, once found, is kept. */
  lemma {:induction false} NextDownKept(index: Index, level: Level, ss: seq<LevelState>, i: nat, j: nat)
    requires Run(index, level, ss) && i <= j < |ss|
    ensures ss[j].nextDown == ss[i].nextDown || ss[i].nextDown == INVALID_BLOCK
    decreases j
  {
    if i < j {
      NextDownKept(index, level, ss, i, j - 1);
      assert ss[j - 1 + 1] == NextState(index, level, ss[j - 1]);
    }
  }

  // ---------- a walk that comes to a block twice never ends ----------

  /** State t comes to the same page from the same page as s, and does not look for the next level again. */
  predicate Repeats(s: LevelState, t: LevelState) {
    t.left == s.left && t.current == s.current && (t.nextDown == s.nextDown || t.nextDown != INVALID_BLOCK)
  }

  lemma RepeatLeadsOn(index: Index, level: Level, s: LevelState, t: LevelState)
    requires LeadsOn(index, level, s) && Repeats(s, t)
    ensures LeadsOn(index, level, t) && Repeats(NextState(index, level, s), NextState(index, level, t))
  {
  }

  /** The run comes to the same block at its turns i and i + d, and has gone on from there. */
  ghost predicate Revisits(index: Index, level: Level, ss: seq<LevelState>, i: nat, d: nat) {
    Run(index, level, ss) && d > 0 && i + d + 1 < |ss| && ss[i].current == ss[i + d].current
  }

  /** From the second visit on, every turn repeats the one d turns earlier. */
  lemma {:induction false} RunRepeats(index: Index, level: Level, ss: seq<LevelState>, i: nat, d: nat, k: nat)
    requires Revisits(index, level, ss, i, d) && i + d + 1 + k < |ss|
    ensures Repeats(ss[i + 1 + k], ss[i + d + 1 + k])
  {
    if k == 0 {
      NextDownKept(index, level, ss, i + 1, i + d + 1);
      assert ss[i + d + 1] == NextState(index, level, ss[i + d]);
    } else {
      RunRepeats(index, level, ss, i, d, k - 1);
      RepeatLeadsOn(index, level, ss[i + k], ss[i + d + k]);
      assert ss[i + k + 1] == NextState(index, level, ss[i + k]);
      assert ss[i + d + k + 1] == NextState(index, level, ss[i + d + k]);
    }
  }

  lemma RunGoesOn(index: Index, level: Level, ss: seq<LevelState>, i: nat, d: nat)
    requires Revisits(index, level, ss, i, d)
    ensures LeadsOn(index, level, ss[|ss| - 1])
  {
    var n := |ss| - 1;
    RunRepeats(index, level, ss, i, d, n - (i + d + 1));
    RepeatLeadsOn(index, level, ss[n - d], ss[n]);
  }

  lemma {:induction false} RunsForEver(index: Index, level: Level, ss: seq<LevelState>, i: nat, d: nat, n: nat)
    returns (tt: seq<LevelState>)
    requires Revisits(index, level, ss, i, d)
    ensures Run(index, level, tt) && |tt| > n && tt[0] == ss[0]
    decreases n - |ss|
  {
    tt := ss;
    if |ss| <= n {
      RunGoesOn(index, level, ss, i, d);
      RunSnoc(index, level, ss);
      tt := RunsForEver(index, level, ss + [NextState(index, level, ss[|ss| - 1])], i, d, n);
    }
  }

  lemma NeverEnds(index: Index, level: Level, ss: seq<LevelState>, i: nat, d: nat, turns: nat)
    requires Revisits(index, level, ss, i, d)
    ensures LevelWalk(index, level, ss[0], [], turns) == OutOfFuel
  {
    var tt := RunsForEver(index, level, ss, i, d, turns);
    RunPrefix(index, level, tt, turns + 1);
    RunIsOutOfFuel(index, level, tt[..turns + 1], []);
  }

  ghost function Targets(ss: seq<LevelState>): (w: seq<nat>)
    ensures |w| == |ss|
  {
    seq(|ss|, i requires 0 <= i < |ss| => ss[i].current)
  }

  /** More turns than blocks: some block is visited twice. */
  lemma SomeTargetRepeats(index: Index, level: Level, ss: seq<LevelState>) returns (i: nat, d: nat)
    requires Run(index, level, ss) && |ss| > |index| + 1
    ensures Revisits(index, level, ss, i, d)
  {
    var w := Targets(ss[..|ss| - 1]);
    if Distinct(w) {
      DistinctFits(index, w);
      assert false;
    }
    var x, y :| 0 <= x < y < |w| && w[x] == w[y];
    i, d := x, y - x;
  }

  // ---------- the condition on the pages ----------

  /** The first downlink of an internal page; a leaf stands for the end of the descent. */
  function FirstChild(p: BtPage): nat {
    if p.leaf || |p.items| < FirstDataKey(p) then P_NONE else p.items[FirstDataKey(p) - 1].downlink
  }

  /** The leftmost block of the next level, as the loop has found it after the targets w. */
  function DownAfter(index: Index, w: seq<nat>): nat
    requires forall i :: 0 <= i < |w| ==> w[i] in index
  {
    if w == [] then INVALID_BLOCK
    else
      var down := DownAfter(index, w[..|w| - 1]);
      var p := index[w[|w| - 1]];
      if down != INVALID_BLOCK || Ignore(p) then down else FirstChild(p)
  }

  lemma {:induction false} DownAfterKept(index: Index, w: seq<nat>, k: nat)
    requires (forall i :: 0 <= i < |w| ==> w[i] in index) && k <= |w|
    ensures DownAfter(index, w[..k]) == INVALID_BLOCK || DownAfter(index, w[..k]) == DownAfter(index, w)
    decreases |w|
  {
    if k < |w| {
      var n := |w| - 1;
      DownAfterKept(index, w[..n], k);
      assert w[..n][..k] == w[..k];
    } else {
      assert w[..k] == w;
    }
  }

  /** Block b, reached from `left`, lets the loop go on: it can be read, is not deleted, and has a high key and a right
      link; a live page is of the level and its left link answers `left`. The page that `opens` the level has nothing
      but half-dead pages to its left, and is a root if one is wanted. */
  ghost predicate Passable(index: Index, level: Level, b: nat, left: nat, opens: bool) {
    && b != P_NONE && Load(index, b).Ok?
    && var p := index[b];
       && !p.deleted && p.next != P_NONE && |p.items| >= 1 && b != left && b != p.prev
       && (!p.halfDead ==>
             && p.level == level.level && (left != P_NONE ==> p.prev == left)
             && (opens ==> (exists run :: HalfDeadRun(index, b, p.prev, run)) && (level.isTrueRoot ==> p.root)))
  }

  function NextDown(s: LevelState, p: BtPage): nat {
    if s.nextDown != INVALID_BLOCK || Ignore(p) then s.nextDown else FirstChild(p)
  }

  lemma TurnValue(index: Index, level: Level, s: LevelState)
    requires s.current in index && LevelTurn(index, level, s, index[s.current]).Ok?
    ensures var p := index[s.current];
            LevelTurn(index, level, s, p) == Ok(LevelState(s.current, p.next, NextDown(s, p)))
  {
  }

  lemma LeadsOnExactly(index: Index, level: Level, s: LevelState)
    requires s.current != P_NONE
    ensures LeadsOn(index, level, s) <==> Passable(index, level, s.current, s.left, s.nextDown == INVALID_BLOCK)
  {
    if s.current in index {
      AcceptsExactlyHalfDeadRuns(index, s.current);
    }
  }

  ghost predicate PassableAt(index: Index, level: Level, w: seq<nat>, i: nat)
    requires Linked(index, w) && i < |w|
  {
    Passable(index, level, w[i], if i == 0 then P_NONE else w[i - 1], DownAfter(index, w[..i]) == INVALID_BLOCK)
  }

  ghost predicate PassableAlong(index: Index, level: Level, w: seq<nat>)
    requires Linked(index, w)
  {
    forall i :: 0 <= i < |w| ==> PassableAt(index, level, w, i)
  }

  /** Right links lead from `leftmost` along w and from its last page back to w[k], and every page on the way lets the
      loop go on, w[k] also when it is reached from the last page. */
  ghost predicate Circle(index: Index, level: Level, leftmost: nat, w: seq<nat>, k: nat) {
    && k < |w| && w[0] == leftmost && Linked(index, w) && index[w[|w| - 1]].next == w[k]
    && PassableAlong(index, level, w) && Passable(index, level, w[k], w[|w| - 1], false)
  }

  /** The state of the loop after the targets w. */
  ghost function StateAfter(index: Index, leftmost: nat, w: seq<nat>): LevelState
    requires Linked(index, w)
  {
    if w == [] then FirstState(leftmost)
    else LevelState(w[|w| - 1], index[w[|w| - 1]].next, DownAfter(index, w))
  }

  lemma DownAfterSnoc(index: Index, w: seq<nat>, b: nat)
    requires (forall i :: 0 <= i < |w| ==> w[i] in index) && b in index
    ensures DownAfter(index, w + [b])
         == if DownAfter(index, w) != INVALID_BLOCK || Ignore(index[b]) then DownAfter(index, w) else
            FirstChild(index[b])
  {
    assert (w + [b])[..|w|] == w;
  }

  lemma StateAfterSnoc(index: Index, leftmost: nat, w: seq<nat>, b: nat)
    requires Linked(index, w) && b != P_NONE && b in index && StateAfter(index, leftmost, w).current == b
    ensures Linked(index, w + [b])
    ensures var s := StateAfter(index, leftmost, w);
            StateAfter(index, leftmost, w + [b]) == LevelState(b, index[b].next, NextDown(s, index[b]))
  {
    DownAfterSnoc(index, w, b);
    TargetsSnoc(index, w, b);
  }

  lemma StateAfterNext(index: Index, level: Level, leftmost: nat, w: seq<nat>, b: nat)
    requires Linked(index, w) && b != P_NONE && StateAfter(index, leftmost, w).current == b
    requires LeadsOn(index, level, StateAfter(index, leftmost, w))
    ensures Linked(index, w + [b])
    ensures NextState(index, level, StateAfter(index, leftmost, w)) == StateAfter(index, leftmost, w + [b])
  {
    TurnValue(index, level, StateAfter(index, leftmost, w));
    StateAfterSnoc(index, leftmost, w, b);
  }

  /** What the states of a run from the first one on are. */
  lemma {:induction false} StatesAre(index: Index, level: Level, ss: seq<LevelState>, leftmost: nat, n: nat)
    requires Run(index, level, ss) && ss[0] == FirstState(leftmost) && leftmost != P_NONE && n < |ss|
    ensures Linked(index, Targets(ss[..n])) && ss[n] == StateAfter(index, leftmost, Targets(ss[..n]))
            && ss[n].current != P_NONE
  {
    if n == 0 {
      assert Targets(ss[..0]) == [];
    } else {
      StatesAre(index, level, ss, leftmost, n - 1);
      StateAfterNext(index, level, leftmost, Targets(ss[..n - 1]), ss[n - 1].current);
      assert Targets(ss[..n]) == Targets(ss[..n - 1]) + [ss[n - 1].current];
      assert ss[n - 1 + 1] == NextState(index, level, ss[n - 1]);
    }
  }

  lemma TargetPassable(index: Index, level: Level, ss: seq<LevelState>, leftmost: nat, n: nat)
    requires Run(index, level, ss) && ss[0] == FirstState(leftmost) && leftmost != P_NONE && n < |ss| - 1
    ensures Linked(index, Targets(ss[..n]))
    ensures Passable(index, level, ss[n].current, if n == 0 then P_NONE else ss[n - 1].current,
                     DownAfter(index, Targets(ss[..n])) == INVALID_BLOCK)
  {
    StatesAre(index, level, ss, leftmost, n);
    LeadsOnExactly(index, level, ss[n]);
  }

  lemma AllPassable(index: Index, level: Level, ss: seq<LevelState>, leftmost: nat, m: nat)
    requires Run(index, level, ss) && ss[0] == FirstState(leftmost) && leftmost != P_NONE && m < |ss|
    ensures Linked(index, Targets(ss[..m])) && PassableAlong(index, level, Targets(ss[..m]))
  {
    var w := Targets(ss[..m]);
    StatesAre(index, level, ss, leftmost, m);
    forall n | 0 <= n < |w|
      ensures PassableAt(index, level, w, n)
    {
      TargetPassable(index, level, ss, leftmost, n);
      assert w[..n] == Targets(ss[..n]);
    }
  }

  /** A state whose block is that of an earlier one: the last page so far links back. */
  lemma LinksBack(index: Index, ss: seq<LevelState>, leftmost: nat, i: nat, n: nat)
    requires i < n < |ss| && ss[0] == FirstState(leftmost) && ss[i].current == ss[n].current
    requires Linked(index, Targets(ss[..n])) && ss[n] == StateAfter(index, leftmost, Targets(ss[..n]))
    ensures var w := Targets(ss[..n]); w[0] == leftmost && index[w[|w| - 1]].next == w[i]
  {
    var w := Targets(ss[..n]);
    assert w[0] == ss[0].current && w[i] == ss[i].current;
  }

  lemma RevisitLinks(index: Index, level: Level, ss: seq<LevelState>, leftmost: nat, i: nat, d: nat)
    requires Revisits(index, level, ss, i, d) && ss[0] == FirstState(leftmost) && leftmost != P_NONE
    ensures var w := Targets(ss[..i + d]);
            i < |w| && w[0] == leftmost && Linked(index, w) && index[w[|w| - 1]].next == w[i]
  {
    StatesAre(index, level, ss, leftmost, i + d);
    LinksBack(index, ss, leftmost, i, i + d);
  }

  lemma RevisitCloses(index: Index, level: Level, ss: seq<LevelState>, leftmost: nat, i: nat, d: nat)
    requires Revisits(index, level, ss, i, d) && ss[0] == FirstState(leftmost) && leftmost != P_NONE
    ensures var w := Targets(ss[..i + d]); Passable(index, level, w[i], w[|w| - 1], false)
  {
    TargetPassable(index, level, ss, leftmost, i + d);
    var w := Targets(ss[..i + d]);
    assert w[i] == ss[i + d].current && w[|w| - 1] == ss[i + d - 1].current;
  }

  lemma RevisitIsCircle(index: Index, level: Level, ss: seq<LevelState>, leftmost: nat, i: nat, d: nat)
    requires Revisits(index, level, ss, i, d) && ss[0] == FirstState(leftmost) && leftmost != P_NONE
    ensures Circle(index, level, leftmost, Targets(ss[..i + d]), i)
  {
    RevisitLinks(index, level, ss, leftmost, i, d);
    AllPassable(index, level, ss, leftmost, i + d);
    RevisitCloses(index, level, ss, leftmost, i, d);
  }

  /** The states of the loop along a circle, up to the turn that comes to w[k] again. */
  lemma {:induction false} CircleRun(index: Index, level: Level, leftmost: nat, w: seq<nat>, k: nat, n: nat)
    returns (ss: seq<LevelState>)
    requires Circle(index, level, leftmost, w, k) && n <= |w|
    ensures Run(index, level, ss) && |ss| == n + 1 && ss[0] == FirstState(leftmost) && Linked(index, w[..n])
    ensures ss[n] == StateAfter(index, leftmost, w[..n]) && forall i :: 0 <= i < n ==> ss[i].current == w[i]
    decreases n
  {
    if n == 0 {
      ss := [FirstState(leftmost)];
    } else {
      var most := CircleRun(index, level, leftmost, w, k, n - 1);
      assert PassableAt(index, level, w, n - 1);
      LeadsOnExactly(index, level, most[n - 1]);
      StateAfterNext(index, level, leftmost, w[..n - 1], w[n - 1]);
      assert w[..n] == w[..n - 1] + [w[n - 1]];
      RunSnoc(index, level, most);
      ss := most + [NextState(index, level, most[n - 1])];
    }
  }

  lemma CircleRevisits(index: Index, level: Level, leftmost: nat, w: seq<nat>, k: nat) returns (ss: seq<LevelState>)
    requires Circle(index, level, leftmost, w, k)
    ensures Revisits(index, level, ss, k, |w| - k) && ss[0] == FirstState(leftmost)
  {
    ss := CircleRun(index, level, leftmost, w, k, |w|);
    var s := ss[|w|];
    assert w[..|w|] == w;
    DownAfterKept(index, w, k);
    assert PassableAt(index, level, w, k);
    LeadsOnExactly(index, level, s);
    RunSnoc(index, level, ss);
    ss := ss + [NextState(index, level, s)];
  }

  /** The walk has not ended after this many turns. */
  ghost predicate Unfinished(index: Index, level: Level, leftmost: nat, turns: nat) {
    LevelWalk(index, level, FirstState(leftmost), [], turns) == OutOfFuel
  }

  lemma CircleNeverEnds(index: Index, level: Level, leftmost: nat, w: seq<nat>, k: nat, turns: nat)
    requires Circle(index, level, leftmost, w, k)
    ensures Unfinished(index, level, leftmost, turns)
  {
    var ss := CircleRevisits(index, level, leftmost, w, k);
    NeverEnds(index, level, ss, k, |w| - k, turns);
  }

  lemma LongWalkIsCircle(index: Index, level: Level, leftmost: nat)
    requires leftmost != P_NONE && Unfinished(index, level, leftmost, |index| + 1)
    ensures exists w, k :: Circle(index, level, leftmost, w, k)
  {
    var ss := RunFound(index, level, FirstState(leftmost), [], |index| + 1);
    var i, d := SomeTargetRepeats(index, level, ss);
    RevisitIsCircle(index, level, ss, leftmost, i, d);
  }

  /** The level loop goes on for ever exactly when its right links lead into a circle of pages that all pass; otherwise
      it ends within one turn more than the index has blocks. */
  lemma NeverEndsExactly(index: Index, level: Level, leftmost: nat)
    requires leftmost != P_NONE
    ensures (forall turns: nat :: Unfinished(index, level, leftmost, turns))
            <==> exists w, k :: Circle(index, level, leftmost, w, k)
    ensures Unfinished(index, level, leftmost, |index| + 1) <==> exists w, k :: Circle(index, level, leftmost, w, k)
  {
    if Unfinished(index, level, leftmost, |index| + 1) {
      LongWalkIsCircle(index, level, leftmost);
    }
    forall w, k, turns: nat | Circle(index, level, leftmost, w, k)
      ensures Unfinished(index, level, leftmost, turns)
    {
      CircleNeverEnds(index, level, leftmost, w, k, turns);
    }
  }

  /** Left links lead back along a circle of live pages, past its beginning. */
  lemma {:induction false} BackAlong(index: Index, level: Level, leftmost: nat, w: seq<nat>, k: nat, j: nat)
    requires Circle(index, level, leftmost, w, k) && j <= k && forall i :: 0 <= i < |w| ==> !index[w[i]].halfDead
    ensures index[w[k - j]].prev == w[|w| - 1 - j]
  {
    if j > 0 {
      BackAlong(index, level, leftmost, w, k, j - 1);
      assert PassableAt(index, level, w, k - (j - 1)) && PassableAt(index, level, w, |w| - j);
    }
  }

  lemma OpensAfterHalfDead(index: Index, level: Level, leftmost: nat, w: seq<nat>, k: nat)
    requires Circle(index, level, leftmost, w, k) && !index[w[0]].halfDead
    ensures var left := index[w[0]].prev; left == P_NONE || (left in index && index[left].halfDead)
  {
    assert PassableAt(index, level, w, 0) && w[..0] == [];
    var run :| HalfDeadRun(index, w[0], index[w[0]].prev, run);
    assert run != [] ==> run[0] == index[w[0]].prev;
  }

  /** Every circle passes a half-dead page: left links are compared on all others. */
  lemma CircleHasHalfDead(index: Index, level: Level, leftmost: nat, w: seq<nat>, k: nat)
    requires Circle(index, level, leftmost, w, k)
    ensures exists i :: 0 <= i < |w| && index[w[i]].halfDead
  {
    if forall i :: 0 <= i < |w| ==> !index[w[i]].halfDead {
      OpensAfterHalfDead(index, level, leftmost, w, k);
      BackAlong(index, level, leftmost, w, k, k);
      assert false;
    }
  }

  // ---------- the loop itself ----------

  /** The targets of a walk that ends are the whole level, each once. */
  lemma {:induction false} WalkIsChain(index: Index, level: Level, s: LevelState, visited: seq<nat>, turns: nat)
    requires s.current != P_NONE && TargetsLeadTo(index, visited, s.current)
    requires LevelWalk(index, level, s, visited, turns).Ok?
    ensures var w := LevelWalk(index, level, s, visited, turns).value;
            Chain(index, w) && Distinct(w) && w[0] == (visited + [s.current])[0]
    decreases turns
  {
    TargetsSnoc(index, visited, s.current);
    var next := LevelTurn(index, level, s, index[s.current]).value;
    if next.current == P_NONE {
      ChainDistinct(index, visited + [s.current]);
    } else {
      WalkIsChain(index, level, next, visited + [s.current], turns - 1);
    }
  }

  /** bt_check_level_from_leftmost as a loop without any bound: it ends on every level that does not lead into a circle,
      and has then visited the whole level, each block once. */
  method WalkLevel(index: Index, level: Level, leftmost: nat) returns (r: Outcome<seq<nat>>)
    requires leftmost != P_NONE && !exists w, k :: Circle(index, level, leftmost, w, k)
    ensures r == LevelWalk(index, level, FirstState(leftmost), [], |index| + 1) && r != OutOfFuel
    ensures r.Ok? ==> Chain(index, r.value) && Distinct(r.value) && r.value[0] == leftmost
  {
    NeverEndsExactly(index, level, leftmost);
    ghost var all := LevelWalk(index, level, FirstState(leftmost), [], |index| + 1);
    if all.Ok? {
      WalkIsChain(index, level, FirstState(leftmost), [], |index| + 1);
    }
    var s, visited := FirstState(leftmost), [];
    while true
      invariant |visited| <= |index| && all == LevelWalk(index, level, s, visited, |index| + 1 - |visited|)
      decreases |index| - |visited|
    {
      var page := Load(index, s.current);
      if !page.Ok? {
        return page.PropagateFailure();
      }
      var next := LevelTurn(index, level, s, page.value);
      if !next.Ok? {
        return next.PropagateFailure();
      }
      var low := LowKey(page.value);
      if !low.Ok? {
        return low.PropagateFailure();
      }
      visited := visited + [s.current];
      if next.value.current == P_NONE {
        return Ok(visited);
      }
      s := next.value;
    }
  }

  // ---------- below an accepted level there is no circle ----------

  ghost predicate OnLevel(index: Index, level: Level, b: nat) {
    b in index && Load(index, b).Ok? && (!Ignore(index[b]) ==> index[b].level == level.level)
  }

  ghost predicate OfLevel(index: Index, level: Level, w: seq<nat>) {
    forall i :: 0 <= i < |w| ==> OnLevel(index, level, w[i])
  }

  function FirstOf(downlinks: seq<nat>): nat {
    if downlinks == [] then INVALID_BLOCK else downlinks[0]
  }

  lemma FirstOfPage(index: Index, level: Level, b: nat)
    requires level.level >= 1 && OnLevel(index, level, b) && b != P_NONE
    ensures FirstOf(PageDownlinks(index[b])) == if Ignore(index[b]) then INVALID_BLOCK else FirstChild(index[b])
  {
    if !Ignore(index[b]) {
      FirstDownlink(index[b], |index[b].items| + 1);
    }
  }

  lemma FirstOfConcat(a: seq<nat>, b: seq<nat>)
    requires INVALID_BLOCK !in a + b
    ensures INVALID_BLOCK !in a && FirstOf(a + b) == if FirstOf(a) != INVALID_BLOCK then FirstOf(a) else FirstOf(b)
  {
    assert forall i :: 0 <= i < |a| ==> (a + b)[i] == a[i];
    if a != [] {
      assert a[0] in a + b;
    } else {
      assert a + b == b;
    }
  }

  /** The first downlink of a level is what the loop over it hands to the next level. */
  lemma {:induction false} DownIsFirst(index: Index, level: Level, targets: seq<nat>)
    requires Linked(index, targets)
    requires level.level >= 1 && OfLevel(index, level, targets) && INVALID_BLOCK !in LevelDownlinks(index, targets)
    ensures DownAfter(index, targets) == FirstOf(LevelDownlinks(index, targets))
  {
    if targets != [] {
      var n := |targets| - 1;
      FirstOfConcat(LevelDownlinks(index, targets[..n]), PageDownlinks(index[targets[n]]));
      DownIsFirst(index, level, targets[..n]);
      FirstOfPage(index, level, targets[n]);
    }
  }

  lemma {:induction false} FirstDownlink(p: BtPage, off: nat)
    requires FirstDataKey(p) < off <= |p.items| + 1
    ensures DownlinksBelow(p, off) != [] && DownlinksBelow(p, off)[0] == p.items[FirstDataKey(p) - 1].downlink
  {
    if FirstDataKey(p) + 1 < off {
      FirstDownlink(p, off - 1);
    }
  }

  /** What the loop hands to the next level: its nextDown after the last turn. */
  function HandedDown(index: Index, level: Level, s: LevelState, turns: nat): nat
    decreases turns
  {
    if turns == 0 || !Load(index, s.current).Ok? || !LevelTurn(index, level, s, index[s.current]).Ok? then INVALID_BLOCK
    else
      var next := LevelTurn(index, level, s, index[s.current]).value;
      if next.current == P_NONE then next.nextDown else HandedDown(index, level, next, turns - 1)
  }

  lemma TurnIsOnLevel(index: Index, level: Level, s: LevelState)
    requires Load(index, s.current).Ok? && LevelTurn(index, level, s, index[s.current]).Ok?
    ensures OnLevel(index, level, s.current)
  {
  }

  lemma TurnHandsDown(index: Index, level: Level, leftmost: nat, w: seq<nat>, b: nat)
    requires Linked(index, w) && b != P_NONE && StateAfter(index, leftmost, w).current == b
    requires Load(index, b).Ok? && LevelTurn(index, level, StateAfter(index, leftmost, w), index[b]).Ok?
    ensures Linked(index, w + [b])
    ensures LevelTurn(index, level, StateAfter(index, leftmost, w), index[b]).value
            == StateAfter(index, leftmost, w + [b])
  {
    TurnValue(index, level, StateAfter(index, leftmost, w));
    StateAfterSnoc(index, leftmost, w, b);
  }

  lemma {:induction false} WalkIsOfLevel(index: Index, level: Level, s: LevelState, visited: seq<nat>, turns: nat)
    requires OfLevel(index, level, visited) && LevelWalk(index, level, s, visited, turns).Ok?
    ensures OfLevel(index, level, LevelWalk(index, level, s, visited, turns).value)
    decreases turns
  {
    TurnIsOnLevel(index, level, s);
    var next := LevelTurn(index, level, s, index[s.current]).value;
    if next.current != P_NONE {
      WalkIsOfLevel(index, level, next, visited + [s.current], turns - 1);
    }
  }

  lemma {:induction false} WalkHandsDown(index: Index, level: Level, leftmost: nat, w: seq<nat>, turns: nat)
    requires leftmost != P_NONE && Linked(index, w) && StateAfter(index, leftmost, w).current != P_NONE
    requires LevelWalk(index, level, StateAfter(index, leftmost, w), w, turns).Ok?
    ensures var all := LevelWalk(index, level, StateAfter(index, leftmost, w), w, turns).value;
            && Linked(index, all) && HandedDown(index, level, StateAfter(index, leftmost, w), turns)
              == DownAfter(index, all)
    decreases turns
  {
    var s := StateAfter(index, leftmost, w);
    TurnHandsDown(index, level, leftmost, w, s.current);
    if LevelTurn(index, level, s, index[s.current]).value.current != P_NONE {
      WalkHandsDown(index, level, leftmost, w + [s.current], turns - 1);
    }
  }

  /** Right links that lead along a chain lead into no circle. */
  lemma ChainHasNoCircle(index: Index, level: Level, v: seq<nat>, w: seq<nat>, k: nat)
    requires Chain(index, v)
    ensures !Circle(index, level, v[0], w, k)
  {
    if Circle(index, level, v[0], w, k) {
      var longer := w + [w[k]];
      assert longer[..|w|] == w && forall i :: 0 <= i < |w| ==> longer[i] == w[i];
      PathOnChain(index, v, 0, longer);
      PathOnChain(index, v, 0, w[..k + 1]);
      ChainDiffers(index, v, k, |w|);
    }
  }

  lemma {:induction false} FirstIsMatched(index: Index, w: seq<Visit>)
    requires Walk(index, w) && w != []
    ensures Matched(w) != [] && Matched(w)[0] == w[0].blk
    decreases |w|
  {
    if |w| > 1 {
      FirstIsMatched(index, w[..|w| - 1]);
    } else {
      assert Matched(w[..0]) == [];
    }
  }

  /** The verifier comes to a level below the root only after it has accepted the level above. There the loop always
      ends, half-dead pages or not: it starts at the first page of the chain that has just been walked in lockstep. */
  lemma BelowAcceptedEnds(index: Index, level: Level, leftmost: nat, fuel: nat, below: Level)
    requires level.level >= 1 && leftmost != P_NONE && NoReservedLinks(index, leftmost) && INVALID_BLOCK !in index
    requires CheckLevel(index, level, leftmost, fuel).Ok?
    ensures var down := HandedDown(index, level, FirstState(leftmost), fuel);
            var visits := CheckLevel(index, level, leftmost, fuel).value.1;
            && visits != [] && down == visits[0].blk
            && (forall w, k :: !Circle(index, below, down, w, k))
            && !Unfinished(index, below, down, |index| + 1)
  {
    var (targets, visits) := CheckLevel(index, level, leftmost, fuel).value;
    AcceptedLevelIsLockstep(index, level, leftmost, fuel);
    HandedDownIsFirst(index, level, leftmost, fuel);
    var v := Blocks(visits);
    forall w, k
      ensures !Circle(index, below, v[0], w, k)
    {
      ChainHasNoCircle(index, below, v, w, k);
    }
    NeverEndsExactly(index, below, v[0]);
  }

  lemma HandedDownIsFirst(index: Index, level: Level, leftmost: nat, fuel: nat)
    requires level.level >= 1 && leftmost != P_NONE && NoReservedLinks(index, leftmost) && INVALID_BLOCK !in index
    requires CheckLevel(index, level, leftmost, fuel).Ok?
    ensures var visits := CheckLevel(index, level, leftmost, fuel).value.1;
            visits != [] && HandedDown(index, level, FirstState(leftmost), fuel) == visits[0].blk
  {
    var r := CheckLevel(index, level, leftmost, fuel).value;
    AcceptedLevelIsLockstep(index, level, leftmost, fuel);
    PassHandsDown(index, level, leftmost, fuel);
    if INVALID_BLOCK in LevelDownlinks(index, r.0) {
      DownlinkIsBlock(index, leftmost, r, INVALID_BLOCK);
    }
    FirstIsMatched(index, r.1);
    DownIsFirst(index, level, r.0);
  }

  lemma PassHandsDown(index: Index, level: Level, leftmost: nat, fuel: nat)
    requires leftmost != P_NONE && CheckLevel(index, level, leftmost, fuel).Ok?
    ensures var targets := CheckLevel(index, level, leftmost, fuel).value.0;
            && Linked(index, targets) && OfLevel(index, level, targets)
            && HandedDown(index, level, FirstState(leftmost), fuel) == DownAfter(index, targets)
  {
    PassWalks(index, level, FirstState(leftmost), None, INITIAL, [], [], fuel);
    WalkHandsDown(index, level, leftmost, [], fuel);
    WalkIsOfLevel(index, level, FirstState(leftmost), [], fuel);
  }

  lemma DownlinkIsBlock(index: Index, leftmost: nat, r: (seq<nat>, seq<Visit>), d: nat)
    requires Lockstep(index, leftmost, r) && d in LevelDownlinks(index, r.0)
    ensures d in index
  {
    MatchedIsVisited(r.1, d);
    var i :| 0 <= i < |r.1| && r.1[i].blk == d;
    VisitsAreExcused(index, r.1, i);
  }

  // ---------- at the root a half-dead page can close the walk into a circle ----------

  /** The true root is the live leaf 1, with half-dead leaf 2 on both sides: 1 -> 2 -> 1 by right links, 1 -> 2 ->
      nothing by left links. */
  const CIRCLE: Index :=
    map[1 := BtPage(2, 2, 0, true, true, false, false, false, false, false, false, [Item([0], [], 0)]),
        2 := BtPage(0, 1, 0, true, false, false, true, false, false, false, false, [Item([0], [], 0)])]

  lemma RootCircle()
    ensures Circle(CIRCLE, Level(0, true), 1, [1, 2], 0)
  {
    var level, w := Level(0, true), [1, 2];
    assert HalfDeadRun(CIRCLE, 1, 2, [2]);
    assert Linked(CIRCLE, w);
    assert w[..0] == [] && w[..1] == [1] && [1][..0] == [];
    assert DownAfter(CIRCLE, [1]) == P_NONE;
    assert PassableAt(CIRCLE, level, w, 0) && PassableAt(CIRCLE, level, w, 1);
  }

  /** On a leaf level the pass checks no children, so it lasts as long as the walk. */
  lemma {:induction false} LeafPassLasts(index: Index, level: Level, s: LevelState, lowkey: Option<Item>,
                                         st: CheckState,
                                         targets: seq<nat>, seen: seq<Visit>, fuel: nat)
    requires forall b :: b in index ==> index[b].leaf
    requires LevelWalk(index, level, s, targets, fuel) == OutOfFuel
    ensures LevelPass(index, level, s, lowkey, st, targets, seen, fuel) == OutOfFuel
    decreases fuel
  {
    if fuel > 0 {
      TurnNeverRunsOut(index, level, s, index[s.current]);
      var next := LevelTurn(index, level, s, index[s.current]).value;
      LeafPassLasts(index, level, next, LowKey(index[s.current]).value, st, targets + [s.current], seen, fuel - 1);
    }
  }

  /** No number of turns ends the pass over that root level. */
  lemma RootPassNeverEnds(turns: nat)
    ensures CheckLevel(CIRCLE, Level(0, true), 1, turns) == OutOfFuel
  {
    RootCircle();
    CircleNeverEnds(CIRCLE, Level(0, true), 1, [1, 2], 0, turns);
    LeafPassLasts(CIRCLE, Level(0, true), FirstState(1), None, INITIAL, [], [], turns);
  }
}
