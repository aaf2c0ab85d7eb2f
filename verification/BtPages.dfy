/** Pages of a B-Tree index as the amcheck verifier sees them, and the page fetch with its sanity checks. */
module BtPages {
  /** Result of a check: a value, an ERROR raised for corruption, or more page reads than allowed. */
  datatype Outcome<+T> = Ok(value: T) | Corrupt | OutOfFuel {
    predicate IsFailure() {
      !Ok?
    }

    function PropagateFailure<U>(): Outcome<U>
      requires !Ok?
    {
      if Corrupt? then Outcome<U>.Corrupt else Outcome<U>.OutOfFuel
    }

    function Extract(): T
      requires Ok?
    {
      value
    }
  }

  /** An index tuple: its key attributes (truncated ones left out), its heap TIDs (none for a pivot without
      one, several for a posting list), and the block number of its t_tid, which is the downlink of a pivot
      and the top-parent link of a half-dead leaf's high key. */
  datatype Item = Item(atts: seq<int>, tids: seq<int>, downlink: nat)

  datatype BtPage = BtPage(prev: nat, next: nat, level: nat, leaf: bool, root: bool, deleted: bool, halfDead: bool,
                           incompleteSplit: bool, fullXid: bool, meta: bool, garbage: bool, items: seq<Item>)

  type Index = map<nat, BtPage>

  const P_NONE: nat := 0
  const INVALID_BLOCK: nat := 0xffff_ffff
  const MAX_ITEMS: nat := 408   // MaxIndexTuplesPerPage

  predicate Ignore(p: BtPage) {
    p.deleted || p.halfDead
  }

  predicate Rightmost(p: BtPage) {
    p.next == P_NONE
  }

  /** Offset of the first item that is not the high key. */
  function FirstDataKey(p: BtPage): nat {
    if Rightmost(p) then 1 else 2
  }

  predicate NegativeInfinity(p: BtPage, offset: nat) {
    !p.leaf && offset == FirstDataKey(p)
  }

  /** PageGetItemIdCareful: an offset without a line pointer is corruption. */
  function GetItem(p: BtPage, offset: nat): Outcome<Item> {
    if 1 <= offset <= |p.items| then Ok(p.items[offset - 1]) else Corrupt
  }

  /** The checks of palloc_btree_page on a page that is not the metapage. */
  predicate PageSane(p: BtPage) {
    && !p.meta
    && (!p.deleted || p.fullXid ==> (p.leaf <==> p.level == 0))
    && |p.items| <= MAX_ITEMS
    && (!p.leaf && !p.deleted ==> |p.items| >= FirstDataKey(p))
    && (p.leaf && !p.deleted && !Rightmost(p) ==> |p.items| >= 1)
    && (!p.leaf ==> !p.halfDead && !p.garbage)
    && (p.fullXid ==> p.deleted)
    && !(p.deleted && p.halfDead)
  }

  /** palloc_btree_page */
  function Load(index: Index, b: nat): Outcome<BtPage> {
    if b !in index then Corrupt
    else if b == P_NONE then (if index[b].meta then Ok(index[b]) else Corrupt)
    else if PageSane(index[b]) then Ok(index[b])
    else Corrupt
  }

  /** bt_pivot_tuple_identical: everything but the block number. */
  predicate PivotIdentical(a: Item, b: Item) {
    a.atts == b.atts && a.tids == b.tids
  }

  // ---------- right-link chains ----------

  ghost predicate Distinct(s: seq<nat>) {
    forall i, j :: 0 <= i < j < |s| ==> s[i] != s[j]
  }

  /** Consecutive blocks follow each other by right links. */
  ghost predicate Linked(index: Index, w: seq<nat>) {
    && (forall i :: 0 <= i < |w| ==> w[i] in index && w[i] != P_NONE)
    && forall i :: 0 <= i < |w| - 1 ==> index[w[i]].next == w[i + 1]
  }

  /** A whole level from w[0] on: the last page has no right sibling. */
  ghost predicate Chain(index: Index, w: seq<nat>) {
    w != [] && Linked(index, w) && Rightmost(index[w[|w| - 1]])
  }

  /** Two blocks of a chain are at different distances from its end. */
  lemma {:induction false} ChainDiffers(index: Index, w: seq<nat>, i: nat, j: nat)
    requires Chain(index, w) && i < j < |w|
    ensures w[i] != w[j]
    decreases |w| - j
  {
    assert index[w[i]].next == w[i + 1];
    if j < |w| - 1 {
      assert index[w[j]].next == w[j + 1];
      ChainDiffers(index, w, i + 1, j + 1);
    }
  }

  /** A right-link chain that ends cannot pass a block twice. */
  lemma ChainDistinct(index: Index, w: seq<nat>)
    requires Chain(index, w)
    ensures Distinct(w)
  {
    forall i, j | 0 <= i < j < |w|
      ensures w[i] != w[j]
    {
      ChainDiffers(index, w, i, j);
    }
  }

  lemma {:induction false} DistinctFits(index: Index, w: seq<nat>)
    requires Distinct(w) && forall i :: 0 <= i < |w| ==> w[i] in index
    ensures |w| <= |index|
  {
    var seen := set i | 0 <= i < |w| :: w[i];
    DistinctSize(w);
    assert seen <= index.Keys;
    SubsetSize(seen, index.Keys);
  }

  lemma {:induction false} DistinctSize(w: seq<nat>)
    requires Distinct(w)
    ensures |set i | 0 <= i < |w| :: w[i]| == |w|
  {
    var all := set i | 0 <= i < |w| :: w[i];
    if w == [] {
      assert all == {};
    } else {
      var n := |w| - 1;
      DistinctSize(w[..n]);
      var most := set i | 0 <= i < |w[..n]| :: w[..n][i];
      assert w[n] !in most;
      assert all == most + {w[n]};
    }
  }

  lemma {:induction false} SubsetSize(a: set<nat>, b: set<nat>)
    requires a <= b
    ensures |a| <= |b|
  {
    if a != {} {
      var x :| x in a;
      SubsetSize(a - {x}, b - {x});
    }
  }
}
