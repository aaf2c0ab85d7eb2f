/** The recheck of sibling links under concurrent page splits and deletions (bt_recheck_sibling_links), against
    the two operations that change sibling links: the first phase of a page split (_bt_split) and the second phase
    of a page deletion (_bt_unlink_halfdead_page). Each holds write locks on every page it changes, so it is one
    step; the verifier's coupled read is two steps with a read lock on the left page in between. */
module BtSiblings {
  import opened Basics
  import opened BtPages

  /** `pastSnapshot` says of a deleted page that its deletion came before the snapshot under which the verifier runs. */
  datatype Link = Link(prev: nat, next: nat, deleted: bool, pastSnapshot: bool)

  /** All pages of the index but the metapage. */
  type Links = map<nat, Link>

  datatype Step =
    | NewRoot(added: nat)              // a root with no siblings, on a level of its own
    | Split(page: nat, added: nat)     // `added` becomes the right half of `page`
    | Unlink(page: nat)                // the page leaves its level, keeping its own links

  /** A block the index can hand out: beyond its end, or recycled. A deleted page is not recycled while a snapshot older
      than its deletion is held. */
  predicate Allocatable(links: Links, b: nat) {
    b != P_NONE && (b in links ==> links[b].deleted && links[b].pastSnapshot)
  }

  predicate Live(links: Links, b: nat) {
    b in links && !links[b].deleted
  }

  /** The right link of b is answered by a left link, or there is none. */
  predicate RightAgrees(links: Links, b: nat)
    requires b in links
  {
    var r := links[b].next;
    r == P_NONE || (Live(links, r) && r != b && links[r].prev == b)
  }

  predicate LeftAgrees(links: Links, b: nat)
    requires b in links
  {
    var l := links[b].prev;
    l == P_NONE || (Live(links, l) && l != b && links[l].next == b)
  }

  // ---------- the steps; each refuses on the link conditions its source checks ----------

  predicate CanSplit(links: Links, b: nat, added: nat) {
    && Live(links, b) && Allocatable(links, added)
    && var s := links[b].next;
       s == P_NONE || (s in links && links[s].prev == b)
  }

  function DoSplit(links: Links, b: nat, added: nat): Links
    requires CanSplit(links, b, added)
  {
    var s := links[b].next;
    var halves := links[b := links[b].(next := added)][added := Link(b, s, false, false)];
    if s == P_NONE then halves else halves[s := links[s].(prev := added)]
  }

  /** Never the rightmost page of its level. */
  predicate CanUnlink(links: Links, t: nat) {
    && Live(links, t)
    && var l, r := links[t].prev, links[t].next;
       && (l == P_NONE || (Live(links, l) && links[l].next == t))
       && r != P_NONE && r in links && links[r].prev == t
  }

  function DoUnlink(links: Links, t: nat): Links
    requires CanUnlink(links, t)
  {
    var l, r := links[t].prev, links[t].next;
    var left := if l == P_NONE then links else links[l := links[l].(next := r)];
    left[r := left[r].(prev := l)][t := links[t].(deleted := true, pastSnapshot := false)]
  }

  predicate Enabled(links: Links, step: Step) {
    match step
    case NewRoot(added) => Allocatable(links, added)
    case Split(b, added) => CanSplit(links, b, added)
    case Unlink(t) => CanUnlink(links, t)
  }

  function Do(links: Links, step: Step): Links
    requires Enabled(links, step)
  {
    match step
    case NewRoot(added) => links[added := Link(P_NONE, P_NONE, false, false)]
    case Split(b, added) => DoSplit(links, b, added)
    case Unlink(t) => DoUnlink(links, t)
  }

  /** Whether the step writes page b, so that it waits while another process holds a lock on b. */
  predicate Writes(links: Links, step: Step, b: nat)
    requires Enabled(links, step)
  {
    match step
    case NewRoot(added) => b == added
    case Split(p, added) => b == p || b == added || b == links[p].next
    case Unlink(t) => b == t || b == links[t].prev || b == links[t].next
  }

  /** A page that was not deleted yet when the snapshot was taken, or has been recycled since. */
  predicate WithinSnapshot(links: Links, b: nat) {
    b in links && !(links[b].deleted && links[b].pastSnapshot)
  }

  // ---------- what every step keeps ----------

  predicate Agree(links: Links) {
    P_NONE !in links && forall b :: b in links && !links[b].deleted ==> RightAgrees(links, b) && LeftAgrees(links, b)
  }

  /** Positions of the live pages grow along right links, so no level is a ring. */
  ghost predicate Ordered(links: Links, pos: map<nat, real>) {
    forall b :: b in links && !links[b].deleted ==>
      b in pos && (links[b].next != P_NONE ==> links[b].next in pos && pos[b] < pos[links[b].next])
  }

  ghost predicate Inv(links: Links) {
    Agree(links) && exists pos :: Ordered(links, pos)
  }

  lemma NewRootKeeps(links: Links, pos: map<nat, real>, added: nat)
    requires Agree(links) && Ordered(links, pos) && Allocatable(links, added)
    ensures Agree(Do(links, NewRoot(added))) && Ordered(Do(links, NewRoot(added)), pos[added := 0.0])
  {
  }

  /** The position given to the right half of a split page: between that page and its old right sibling. */
  ghost function SplitPosition(links: Links, pos: map<nat, real>, b: nat): real
    requires Live(links, b) && Ordered(links, pos)
  {
    if links[b].next == P_NONE then pos[b] + 1.0 else (pos[b] + pos[links[b].next]) / 2.0
  }

  lemma SplitAgrees(links: Links, b: nat, added: nat)
    requires Agree(links) && CanSplit(links, b, added)
    ensures Agree(DoSplit(links, b, added))
  {
    var links' := DoSplit(links, b, added);
    forall x | x in links' && !links'[x].deleted
      ensures RightAgrees(links', x) && LeftAgrees(links', x)
    {
      if x != added {
        assert RightAgrees(links, x) && LeftAgrees(links, x);
      }
    }
  }

  lemma SplitOrders(links: Links, pos: map<nat, real>, b: nat, added: nat)
    requires Agree(links) && Ordered(links, pos) && CanSplit(links, b, added)
    ensures Ordered(DoSplit(links, b, added), pos[added := SplitPosition(links, pos, b)])
  {
    var links', pos' := DoSplit(links, b, added), pos[added := SplitPosition(links, pos, b)];
    forall x | x in links' && !links'[x].deleted
      ensures x in pos' && (links'[x].next != P_NONE ==> links'[x].next in pos' && pos'[x] < pos'[links'[x].next])
    {
      if x != b && x != added {
        assert Live(links, x) && links'[x].next == links[x].next && RightAgrees(links, x);
      }
    }
  }

  /** The two neighbours of a page are different pages. */
  lemma NeighboursDiffer(links: Links, pos: map<nat, real>, t: nat)
    requires Agree(links) && Ordered(links, pos) && CanUnlink(links, t)
    ensures links[t].prev != links[t].next
  {
    assert pos[t] < pos[links[t].next];
    if links[t].prev != P_NONE {
      assert pos[links[t].prev] < pos[t];
    }
  }

  lemma UnlinkAgrees(links: Links, t: nat)
    requires Agree(links) && CanUnlink(links, t) && links[t].prev != links[t].next
    ensures Agree(DoUnlink(links, t))
  {
    var links' := DoUnlink(links, t);
    assert RightAgrees(links, t) && LeftAgrees(links, t);
    forall x | x in links' && !links'[x].deleted
      ensures RightAgrees(links', x) && LeftAgrees(links', x)
    {
      assert RightAgrees(links, x) && LeftAgrees(links, x);
      UnlinkedLink(links, t, x);
    }
  }

  lemma UnlinkedLink(links: Links, t: nat, x: nat)
    requires CanUnlink(links, t) && links[t].prev != links[t].next && x in links && x != t && x != P_NONE
    ensures var links' := DoUnlink(links, t);
            x in links' && links'[x].deleted == links[x].deleted
            && links'[x].next == (if x == links[t].prev then links[t].next else links[x].next)
            && links'[x].prev == (if x == links[t].next then links[t].prev else links[x].prev)
  {
  }

  lemma UnlinkOrders(links: Links, pos: map<nat, real>, t: nat)
    requires Agree(links) && Ordered(links, pos) && CanUnlink(links, t)
    ensures Ordered(DoUnlink(links, t), pos)
  {
  }

  lemma StepKeepsInv(links: Links, step: Step)
    requires Inv(links) && Enabled(links, step)
    ensures Inv(Do(links, step))
  {
    var pos :| Ordered(links, pos);
    match step
    case NewRoot(added) => NewRootKeeps(links, pos, added);
    case Split(b, added) =>
      SplitAgrees(links, b, added);
      SplitOrders(links, pos, b, added);
    case Unlink(t) =>
      NeighboursDiffer(links, pos, t);
      UnlinkAgrees(links, t);
      UnlinkOrders(links, pos, t);
  }

  /** On agreeing links neither operation ever meets the link mismatch it checks for. */
  lemma NeverRefused(links: Links, b: nat, added: nat)
    requires Inv(links) && Live(links, b)
    ensures Allocatable(links, added) ==> CanSplit(links, b, added)
    ensures links[b].next != P_NONE ==> CanUnlink(links, b)
  {
  }

  /** Locks at work: a step changes no page but those it writes. */
  lemma UnwrittenUnchanged(links: Links, step: Step, b: nat)
    requires Enabled(links, step) && b in links && !Writes(links, step, b)
    ensures b in Do(links, step) && Do(links, step)[b] == links[b]
  {
  }

  /** A page within the snapshot that has a right link keeps having one, live or deleted. */
  lemma RightLinkStays(links: Links, step: Step, b: nat)
    requires Inv(links) && Enabled(links, step) && WithinSnapshot(links, b) && links[b].next != P_NONE
    ensures WithinSnapshot(Do(links, step), b) && Do(links, step)[b].next != P_NONE
  {
  }

  // ---------- runs ----------

  predicate ValidRun(links: Links, run: seq<Step>)
    decreases |run|
  {
    run == [] || (Enabled(links, run[0]) && ValidRun(Do(links, run[0]), run[1..]))
  }

  function Final(links: Links, run: seq<Step>): Links
    requires ValidRun(links, run)
    decreases |run|
  {
    if run == [] then links else Final(Do(links, run[0]), run[1..])
  }

  /** No step of the run writes page b. */
  predicate Unwritten(links: Links, run: seq<Step>, b: nat)
    requires ValidRun(links, run)
    decreases |run|
  {
    run == [] || (!Writes(links, run[0], b) && Unwritten(Do(links, run[0]), run[1..], b))
  }

  lemma {:induction false} RunKeepsInv(links: Links, run: seq<Step>)
    requires Inv(links) && ValidRun(links, run)
    ensures Inv(Final(links, run))
    decreases |run|
  {
    if run != [] {
      StepKeepsInv(links, run[0]);
      RunKeepsInv(Do(links, run[0]), run[1..]);
    }
  }

  lemma {:induction false} RightLinkStaysInRun(links: Links, run: seq<Step>, b: nat)
    requires Inv(links) && ValidRun(links, run) && WithinSnapshot(links, b) && links[b].next != P_NONE
    ensures WithinSnapshot(Final(links, run), b) && Final(links, run)[b].next != P_NONE
    decreases |run|
  {
    if run != [] {
      StepKeepsInv(links, run[0]);
      RightLinkStays(links, run[0], b);
      RightLinkStaysInRun(Do(links, run[0]), run[1..], b);
    }
  }

  lemma {:induction false} UnwrittenInRun(links: Links, run: seq<Step>, b: nat)
    requires ValidRun(links, run) && b in links && Unwritten(links, run, b)
    ensures b in Final(links, run) && Final(links, run)[b] == links[b]
    decreases |run|
  {
    if run != [] {
      UnwrittenUnchanged(links, run[0], b);
      UnwrittenInRun(Do(links, run[0]), run[1..], b);
    }
  }

  // ---------- bt_recheck_sibling_links ----------

  datatype Verdict = Harmless | LinksDisagree | Unreadable

  /** The left link found at block b when it is read; block 0 is the metapage, whose links are zero. */
  function LeftLinkRead(links: Links, b: nat): Option<nat> {
    if b == P_NONE then Some(P_NONE) else if b in links then Some(links[b].prev) else None
  }

  /** The left page is read and kept locked; its right sibling is read later, when the links are `later`. */
  function Recheck(links: Links, later: Links, left: nat): Verdict {
    if left !in links then Unreadable
    else if links[left].deleted then Harmless
    else
      var right := links[left].next;
      var backlink := if right != left then LeftLinkRead(later, right) else Some(INVALID_BLOCK);
      match backlink
      case None => Unreadable
      case Some(prev) => if prev == left then Harmless else LinksDisagree
  }

  /** On sound links the recheck alarms exactly when the left page is live and has no right sibling. */
  lemma RecheckOnSoundLinks(links: Links, between: seq<Step>, left: nat)
    requires Inv(links) && left in links && ValidRun(links, between) && Unwritten(links, between, left)
    ensures Recheck(links, Final(links, between), left)
         == if links[left].deleted || links[left].next != P_NONE then Harmless else LinksDisagree
  {
    RunKeepsInv(links, between);
    UnwrittenInRun(links, between, left);
  }

  /** The verifier came from page `left` over its right link, under its snapshot. Whatever splits, deletions and
      recyclings happened before the recheck, and between its two reads, it raises no error. */
  lemma NoFalseAlarm(links: Links, before: seq<Step>, left: nat, between: seq<Step>)
    requires Inv(links) && WithinSnapshot(links, left) && links[left].next != P_NONE && ValidRun(links, before)
    requires ValidRun(Final(links, before), between) && Unwritten(Final(links, before), between, left)
    ensures Recheck(Final(links, before), Final(Final(links, before), between), left) == Harmless
  {
    RunKeepsInv(links, before);
    RightLinkStaysInRun(links, before, left);
    RecheckOnSoundLinks(Final(links, before), between, left);
  }

  /** On any links, corrupt or not: a live left page passes exactly when its right link names another page whose
      left link answers it at the moment both are locked. */
  lemma RecheckIsExact(links: Links, between: seq<Step>, left: nat)
    requires Live(links, left) && left != P_NONE && left != INVALID_BLOCK
    requires ValidRun(links, between) && Unwritten(links, between, left)
    ensures var later := Final(links, between);
            && left in later && later[left] == links[left]
            && (Recheck(links, later, left) == Harmless <==>
                  exists r :: r == later[left].next && r != left && r in later && r != P_NONE && later[r].prev == left)
            && (Recheck(links, later, left) == Unreadable <==>
                  later[left].next != left && later[left].next != P_NONE && later[left].next !in later)
  {
    UnwrittenInRun(links, between, left);
  }
}
