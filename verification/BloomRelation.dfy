/** The access method's entry points run without interference: blbuild, blinsert, blbulkdelete,
    blvacuumcleanup and blgetbitmap as methods that update the relation in place, each proved against the
    sections of the concurrent machine. */
module BloomRelation {
  import opened Basics
  import opened BloomSignature
  import opened BloomPage
  import opened BloomMachine
  import opened BloomRuns

  // ---------- from a build to all runs ----------

  /** What is on initialised, non-deleted pages is what was built or inserted minus what vacuum removed, the
      page list stays within the metapage array and lists data blocks only, and a deleted page is empty. */
  ghost predicate Conserved(s: System) {
    && Live(s.ix.pages) + s.removed == s.inserted
    && s.ix.nStart <= s.ix.nEnd <= META_BLOCKS == |s.ix.notFull|
    && (forall i :: s.ix.nStart <= i < s.ix.nEnd ==> 1 <= s.ix.notFull[i] < |s.ix.pages|)
    && forall b :: 0 <= b < |s.ix.pages| && s.ix.pages[b].DataPage? && s.ix.pages[b].deleted ==>
      s.ix.pages[b].tuples == []
  }

  lemma InvConserves(s: System)
    requires Inv(s)
    ensures Conserved(s)
  {
    forall i | s.ix.nStart <= i < s.ix.nEnd
      ensures 1 <= s.ix.notFull[i] < |s.ix.pages|
    {
      assert IsDataBlock(s.ix, s.ix.notFull[i]);
    }
    forall b | 0 <= b < |s.ix.pages| && s.ix.pages[b].DataPage? && s.ix.pages[b].deleted
      ensures s.ix.pages[b].tuples == []
    {
      assert IsDataBlock(s.ix, b);
    }
  }

  ghost function Started(ix: Index, rows: seq<BloomTuple>): System {
    System(ix, None, map[], multiset(rows), multiset{})
  }

  lemma StartedInv(ix: Index, rows: seq<BloomTuple>)
    requires IndexOk(ix) && AllTuples(ix.pages) == rows
    ensures Inv(Started(ix, rows))
  {
    LiveIsAllTuples(ix.pages);
  }

  /** Every run of inserts, vacuums, cleanups, scans and failures that starts from a freshly built index, in
      any interleaving of their locked sections, conserves tuples. */
  lemma BuiltIndexConserves(ix: Index, rows: seq<BloomTuple>, es: seq<Event>)
    requires IndexOk(ix) && AllTuples(ix.pages) == rows && ValidRun(Started(ix, rows), es)
    ensures Conserved(Final(Started(ix, rows), es))
  {
    StartedInv(ix, rows);
    RunKeepsInv(Started(ix, rows), es);
    InvConserves(Final(Started(ix, rows), es));
  }

  // ---------- what the methods compute ----------

  /** All tuples in block order. */
  ghost function AllTuples(pages: seq<Page>): seq<BloomTuple> {
    if pages == [] then [] else AllTuples(pages[..|pages| - 1]) + Tuples(pages[|pages| - 1])
  }

  lemma {:induction false} LiveIsAllTuples(pages: seq<Page>)
    ensures Live(pages) == multiset(AllTuples(pages))
  {
    if pages != [] {
      LiveIsAllTuples(pages[..|pages| - 1]);
    }
  }

  lemma AllTuplesAppend(pages: seq<Page>, p: Page)
    ensures AllTuples(pages + [p]) == AllTuples(pages) + Tuples(p)
  {
    assert (pages + [p])[..|pages|] == pages;
  }

  predicate Full(words: nat, p: Page) {
    p.DataPage? && FreeSpace(words, |p.tuples|) < TupleSize(words)
  }

  /** The i-th listed page has room for the tuple. */
  ghost predicate Takes(ix: Index, i: nat, t: BloomTuple)
    requires ListOk(ix) && PagesOk(ix) && ix.nStart <= i < ix.nEnd
  {
    TryPage(ix, ix.notFull[i], t).Some?
  }

  /** The tuple went on the i-th listed page, the first one with room. */
  ghost predicate InsertedListed(ix: Index, i: nat, t: BloomTuple, ix': Index)
    requires IndexOk(ix)
  {
    && ix.nStart <= i < ix.nEnd && Takes(ix, i, t) && (forall j :: ix.nStart <= j < i ==> !Takes(ix, j, t))
    && Some(ix') == TryListed(ix, i, t)
  }

  /** The tuple went on a page of its own: a free block of the FSM, or a block past the end once the FSM is used up. */
  ghost predicate AloneOn(ix: Index, t: BloomTuple, ix': Index, b: nat, free: set<nat>)
    requires IndexOk(ix)
  {
    && b <= |ix.pages| && free <= ix.fsm && ix' == OnNewPage(ix.(fsm := free), b, t)
    && ((b in ix.fsm && b !in free && Recyclable(ix.pages[b])) || (b == |ix.pages| && free == {}))
  }

  ghost predicate InsertedAlone(ix: Index, t: BloomTuple, ix': Index)
    requires IndexOk(ix)
  {
    exists b, free :: AloneOn(ix, t, ix', b, free)
  }

  /** blinsert puts the tuple on the first listed page with room, and alone on a page if there is none. */
  ghost predicate Inserted(ix: Index, t: BloomTuple, ix': Index)
    requires IndexOk(ix)
  {
    || (exists i :: InsertedListed(ix, i, t, ix'))
    || (InsertedAlone(ix, t, ix') && forall i :: ix.nStart <= i < ix.nEnd ==> !Takes(ix, i, t))
  }

  lemma ListedAddsOne(ix: Index, i: nat, t: BloomTuple, ix': Index)
    requires IndexOk(ix) && |t.sign| == ix.words && InsertedListed(ix, i, t, ix')
    ensures IndexOk(ix') && Live(ix'.pages) == Live(ix.pages) + multiset{t}
  {
    TryPageOk(ix, ix.notFull[i], t);
    var r := TryPage(ix, ix.notFull[i], t).value;
    assert ix' == r.(nStart := i);
    assert forall k :: i <= k < r.nEnd ==> IsDataBlock(r, r.notFull[k]);
  }

  lemma AloneAddsOne(ix: Index, t: BloomTuple, ix': Index, b: nat, free: set<nat>)
    requires IndexOk(ix) && |t.sign| == ix.words && AloneOn(ix, t, ix', b, free)
    ensures IndexOk(ix') && Live(ix'.pages) == Live(ix.pages) + multiset{t}
  {
    OnNewPageOk(ix.(fsm := free), b, t);
  }

  /** Either way exactly one copy of the tuple is added, and nothing else changes hands. */
  lemma InsertedAddsOne(ix: Index, t: BloomTuple, ix': Index)
    requires IndexOk(ix) && |t.sign| == ix.words && Inserted(ix, t, ix')
    ensures IndexOk(ix') && Live(ix'.pages) == Live(ix.pages) + multiset{t}
  {
    if InsertedAlone(ix, t, ix') {
      var b, free :| AloneOn(ix, t, ix', b, free);
      AloneAddsOne(ix, t, ix', b, free);
    } else {
      var i :| InsertedListed(ix, i, t, ix');
      ListedAddsOne(ix, i, t, ix');
    }
  }

  /** The list bulk delete has collected after the first n blocks. */
  ghost function Collected(words: nat, pages: seq<Page>, dead: set<ItemPointer>, n: nat): (list: seq<nat>)
    requires n <= |pages|
    ensures |list| <= META_BLOCKS
  {
    if n <= 1 then []
    else ListAfter(Collected(words, pages, dead, n - 1), words, pages[n - 1], VacuumedPage(words, pages[n - 1], dead),
                   n - 1)
  }

  /** Number of tuples on the first n blocks that the callback claims. */
  ghost function Claimed(pages: seq<Page>, dead: set<ItemPointer>, n: nat): nat
    requires n <= |pages|
  {
    if n <= 1 then 0 else Claimed(pages, dead, n - 1) + |Drop(Tuples(pages[n - 1]), dead)|
  }

  ghost function FreeBlocks(pages: seq<Page>, n: nat): set<nat>
    requires n <= |pages|
  {
    set b: nat | 1 <= b < n && Recyclable(pages[b])
  }

  /** The index and the two counters after cleanup has visited the blocks below n. */
  ghost function CleanedBelow(ix: Index, n: nat): (Index, nat, nat)
    requires 1 <= n <= |ix.pages|
  {
    if n == 1 then (ix, 0, 0)
    else
      var (r, free, tuples) := CleanedBelow(ix, n - 1);
      (r.(fsm := r.fsm + if Recyclable(ix.pages[n - 1]) then {n - 1} else {}),
       free + (if Recyclable(ix.pages[n - 1]) then 1 else 0), tuples + |Tuples(ix.pages[n - 1])|)
  }

  /** Heap pointers of the tuples on the first n blocks that cover the query. */
  ghost function Found(pages: seq<Page>, query: Signature, n: nat): set<ItemPointer>
    requires n <= |pages|
  {
    if n <= 1 then {} else Found(pages, query, n - 1) + Matching(Tuples(pages[n - 1]), query)
  }

  ghost function CountCovering(tuples: seq<BloomTuple>, query: Signature): nat {
    if tuples == [] then 0
    else CountCovering(tuples[..|tuples| - 1], query)
         + if |tuples[|tuples| - 1].sign| == |query| && CoversWords(tuples[|tuples| - 1].sign, query) then 1 else 0
  }

  // ---------- what the vacuum pass leaves behind ----------

  /** The index after bulk delete has processed the blocks below n. */
  ghost function VacuumedBelow(ix: Index, dead: set<ItemPointer>, n: nat): (r: Index)
    requires 1 <= n <= |ix.pages|
    ensures |r.pages| == |ix.pages| && r == ix.(pages := r.pages)
  {
    if n == 1 then ix else VacuumPageOf(VacuumedBelow(ix, dead, n - 1), n - 1, dead)
  }

  ghost function OkIndexes(): iset<Index> {
    iset ix: Index | IndexOk(ix)
  }

  lemma VacuumOne(ix: Index, b: nat, dead: set<ItemPointer>)
    requires ix in OkIndexes() && 1 <= b < |ix.pages|
    ensures VacuumPageOf(ix, b, dead) in OkIndexes()
  {
    VacuumPageOfOk(ix, b, dead);
  }

  lemma {:induction false} VacuumedBelowIn(ix: Index, dead: set<ItemPointer>, n: nat)
    requires 1 <= n <= |ix.pages| && ix in OkIndexes()
    ensures VacuumedBelow(ix, dead, n) in OkIndexes()
  {
    if n > 1 {
      VacuumedBelowIn(ix, dead, n - 1);
      VacuumOne(VacuumedBelow(ix, dead, n - 1), n - 1, dead);
    }
  }

  lemma VacuumedBelowOk(ix: Index, dead: set<ItemPointer>, n: nat)
    requires 1 <= n <= |ix.pages| && IndexOk(ix)
    ensures IndexOk(VacuumedBelow(ix, dead, n))
  {
    VacuumedBelowIn(ix, dead, n);
    assert VacuumedBelow(ix, dead, n) in OkIndexes();
  }

  lemma {:induction false} VacuumedBelowAt(ix: Index, dead: set<ItemPointer>, n: nat, b: nat)
    requires 1 <= n <= |ix.pages| && 1 <= b < |ix.pages|
    ensures VacuumedBelow(ix, dead, n).pages[b]
         == if b < n then VacuumedPage(ix.words, ix.pages[b], dead) else ix.pages[b]
  {
    if n > 1 {
      VacuumedBelowAt(ix, dead, n - 1, b);
    }
  }

  /** The page whose turn it is has not been touched yet. */
  lemma VacuumedBelowNext(ix: Index, dead: set<ItemPointer>, n: nat)
    requires 1 <= n < |ix.pages| && IndexOk(ix)
    ensures var r := VacuumedBelow(ix, dead, n);
            IndexOk(r) && IsDataBlock(r, n) && r.pages[n] == ix.pages[n]
  {
    VacuumedBelowOk(ix, dead, n);
    VacuumedBelowAt(ix, dead, n, n);
    assert IsDataBlock(ix, n);
  }

  /** Every processed page is the vacuumed image of the original, and the others are as they were. */
  lemma VacuumedBelowPages(ix: Index, dead: set<ItemPointer>, n: nat)
    requires 1 <= n <= |ix.pages| && IndexOk(ix)
    ensures var r := VacuumedBelow(ix, dead, n);
            && IndexOk(r) && (forall b :: 1 <= b < n ==> r.pages[b] == VacuumedPage(ix.words, ix.pages[b], dead))
            && forall b :: n <= b < |ix.pages| ==> r.pages[b] == ix.pages[b]
  {
    VacuumedBelowOk(ix, dead, n);
    var r := VacuumedBelow(ix, dead, n);
    forall b | 1 <= b < |ix.pages|
      ensures r.pages[b] == if b < n then VacuumedPage(ix.words, ix.pages[b], dead) else ix.pages[b]
    {
      VacuumedBelowAt(ix, dead, n, b);
    }
  }

  /** The new list: ascending data blocks, each with room for another tuple after the pass; a page with room
      is missing only when the list is full. */
  ghost predicate ListsFreeBlocks(words: nat, pages: seq<Page>, dead: set<ItemPointer>, n: nat, list: seq<nat>)
    requires n <= |pages|
  {
    && |list| <= META_BLOCKS
    && (forall i :: 0 <= i < |list| ==> 1 <= list[i] < n && Listable(words, VacuumedPage(words, pages[list[i]], dead)))
    && (forall i, j :: 0 <= i < j < |list| ==> list[i] < list[j])
    && (|list| < META_BLOCKS ==>
        forall b :: 1 <= b < n && Listable(words, VacuumedPage(words, pages[b], dead)) ==> b in list)
  }

  lemma ListsOneMore(words: nat, pages: seq<Page>, dead: set<ItemPointer>, n: nat, list: seq<nat>)
    requires 1 <= n < |pages| && ListsFreeBlocks(words, pages, dead, n, list)
    ensures ListsFreeBlocks(words, pages, dead, n + 1,
                            ListAfter(list, words, pages[n], VacuumedPage(words, pages[n], dead), n))
  {
    var after := ListAfter(list, words, pages[n], VacuumedPage(words, pages[n], dead), n);
    forall b | 1 <= b < n + 1 && Listable(words, VacuumedPage(words, pages[b], dead)) && |after| < META_BLOCKS
      ensures b in after
    {
      if b < n {
        assert b in list;
      }
    }
  }

  lemma {:induction false} CollectedOk(words: nat, pages: seq<Page>, dead: set<ItemPointer>, n: nat)
    requires 1 <= n <= |pages|
    ensures ListsFreeBlocks(words, pages, dead, n, Collected(words, pages, dead, n))
  {
    if n > 1 {
      CollectedOk(words, pages, dead, n - 1);
      ListsOneMore(words, pages, dead, n - 1, Collected(words, pages, dead, n - 1));
    }
  }

  lemma LiveSize(pages: seq<Page>, n: nat)
    requires 1 <= n <= |pages|
    ensures |Live(pages[..n])| == |Live(pages[..n - 1])| + |Tuples(pages[n - 1])|
  {
    assert pages[..n][..n - 1] == pages[..n - 1];
  }

  /** The count of removed tuples is exact over the whole index. */
  lemma {:induction false} ClaimedIsDifference(ix: Index, dead: set<ItemPointer>, n: nat)
    requires 1 <= n <= |ix.pages| && IndexOk(ix)
    ensures |Live(VacuumedBelow(ix, dead, n).pages)| + Claimed(ix.pages, dead, n) == |Live(ix.pages)|
  {
    if n > 1 {
      ClaimedIsDifference(ix, dead, n - 1);
      VacuumedBelowNext(ix, dead, n - 1);
      VacuumPageOfOk(VacuumedBelow(ix, dead, n - 1), n - 1, dead);
      KeepDropSplit(Tuples(ix.pages[n - 1]), dead);
    }
  }

  lemma {:induction false} CleanedBelowIndex(ix: Index, n: nat)
    requires 1 <= n <= |ix.pages|
    ensures CleanedBelow(ix, n).0 == ix.(fsm := ix.fsm + FreeBlocks(ix.pages, n))
  {
    if n > 1 {
      CleanedBelowIndex(ix, n - 1);
      FreeBlocksStep(ix.pages, n - 1);
    } else {
      assert FreeBlocks(ix.pages, 1) == {};
      assert ix.fsm + {} == ix.fsm;
    }
  }

  lemma {:induction false} CleanedBelowCounts(ix: Index, n: nat)
    requires 1 <= n <= |ix.pages| && ix.pages[0].MetaPage?
    ensures CleanedBelow(ix, n).1 == |FreeBlocks(ix.pages, n)| && CleanedBelow(ix, n).2 == |Live(ix.pages[..n])|
  {
    if n > 1 {
      CleanedBelowCounts(ix, n - 1);
      LiveSize(ix.pages, n);
      FreeBlocksStep(ix.pages, n - 1);
    } else {
      assert ix.pages[..1] == [MetaPage];
      assert FreeBlocks(ix.pages, 1) == {};
    }
  }

  /** Cleanup records exactly the free blocks, and its statistics are exact. */
  lemma CleanedBelowExact(ix: Index, n: nat)
    requires 1 <= n <= |ix.pages| && IndexOk(ix)
    ensures var (r, free, tuples) := CleanedBelow(ix, n);
            && r == ix.(fsm := ix.fsm + FreeBlocks(ix.pages, n)) && IndexOk(r)
            && free == |FreeBlocks(ix.pages, n)| && tuples == |Live(ix.pages[..n])|
  {
    CleanedBelowIndex(ix, n);
    CleanedBelowCounts(ix, n);
  }

  lemma CleanedBelowOk(ix: Index, n: nat)
    requires 1 <= n <= |ix.pages| && IndexOk(ix)
    ensures IndexOk(CleanedBelow(ix, n).0) && CleanedBelow(ix, n).0.pages == ix.pages
  {
    CleanedBelowExact(ix, n);
  }

  lemma FreeBlocksStep(pages: seq<Page>, n: nat)
    requires 1 <= n < |pages|
    ensures FreeBlocks(pages, n + 1) == FreeBlocks(pages, n) + (if Recyclable(pages[n]) then {n} else {})
    ensures |FreeBlocks(pages, n + 1)| == |FreeBlocks(pages, n)| + (if Recyclable(pages[n]) then 1 else 0)
  {
    assert FreeBlocks(pages, n + 1) == FreeBlocks(pages, n) + (if Recyclable(pages[n]) then {n} else {});
    assert n !in FreeBlocks(pages, n);
  }

  lemma {:induction false} FoundOnPage(pages: seq<Page>, query: Signature, n: nat, h: ItemPointer)
    requires n <= |pages|
    ensures h in Found(pages, query, n) <==> exists b :: 1 <= b < n && h in Matching(Tuples(pages[b]), query)
  {
    if n > 1 {
      FoundOnPage(pages, query, n - 1, h);
      if h in Matching(Tuples(pages[n - 1]), query) {
        assert 1 <= n - 1 < n;
      }
    }
  }

  lemma MatchingAppend(tuples: seq<BloomTuple>, t: BloomTuple, query: Signature)
    ensures Matching(tuples + [t], query)
            == Matching(tuples, query) + if |t.sign| == |query| && CoversWords(t.sign, query) then {t.heapPtr} else {}
  {
    var longer := tuples + [t];
    assert longer[|tuples|] == t;
    assert forall i :: 0 <= i < |tuples| ==> longer[i] == tuples[i];
  }

  /** Some tuple of the index has this heap pointer and covers the query. */
  ghost predicate HasCovering(pages: seq<Page>, query: Signature, h: ItemPointer) {
    exists b, i :: 1 <= b < |pages| && 0 <= i < |Tuples(pages[b])| && Tuples(pages[b])[i].heapPtr == h
                   && Bits(query) <= Bits(Tuples(pages[b])[i].sign)
  }

  lemma FoundMeaning(ix: Index, query: Signature, h: ItemPointer)
    requires PagesOk(ix) && |query| == ix.words
    ensures (exists b :: 1 <= b < |ix.pages| && h in Matching(Tuples(ix.pages[b]), query))
            <==> HasCovering(ix.pages, query, h)
  {
    forall b, i | 1 <= b < |ix.pages| && 0 <= i < |Tuples(ix.pages[b])|
      ensures |Tuples(ix.pages[b])[i].sign| == |query|
      ensures CoversWords(Tuples(ix.pages[b])[i].sign, query) <==> Bits(query) <= Bits(Tuples(ix.pages[b])[i].sign)
    {
      assert IsDataBlock(ix, b);
      CoversIsInclusion(Tuples(ix.pages[b])[i].sign, query);
    }
  }

  lemma FoundIsCovering(ix: Index, query: Signature)
    requires PagesOk(ix) && |query| == ix.words
    ensures forall h :: h in Found(ix.pages, query, |ix.pages|) <==> HasCovering(ix.pages, query, h)
  {
    forall h
      ensures h in Found(ix.pages, query, |ix.pages|) <==> HasCovering(ix.pages, query, h)
    {
      FoundOnPage(ix.pages, query, |ix.pages|, h);
      FoundMeaning(ix, query, h);
    }
  }

  ghost predicate AllFull(words: nat, pages: seq<Page>) {
    forall b :: 1 <= b < |pages| ==> Full(words, pages[b])
  }

  ghost predicate FullButLast(words: nat, pages: seq<Page>) {
    forall b :: 1 <= b < |pages| - 1 ==> Full(words, pages[b])
  }

  lemma FlushedFacts(words: nat, pages: seq<Page>, image: Page)
    requires AllFull(words, pages)
    ensures AllTuples(pages + [image]) == AllTuples(pages) + Tuples(image)
    ensures FullButLast(words, pages) && FullButLast(words, pages + [image])
    ensures Tuples(image) == [] ==> AllTuples(pages) == AllTuples(pages) + Tuples(image)
  {
    AllTuplesAppend(pages, image);
  }

  /** A page that is new or deleted takes the tuple as its only one. */
  lemma FreshTakes(words: nat, p: Page, t: BloomTuple)
    requires 1 <= words <= 256 && Recyclable(p) && !p.MetaPage?
    ensures TakeAndAdd(words, p, t) == Some(DataPage([t], false, Lower(words, 1)))
  {
    EmptyPageTakesTuple(words, t);
  }

  lemma NewBlockSame(ix: Index, pages: seq<Page>, free: set<nat>, b: nat, t: BloomTuple)
    requires 1 <= ix.words <= 256 && |ix.notFull| > 0 && b < |pages| && Recyclable(pages[b]) && !pages[b].MetaPage?
    requires if b < |ix.pages| then pages == ix.pages else b == |ix.pages| && pages == ix.pages + [NewPage]
    ensures var ix1 := ix.(pages := pages, fsm := free);
            && TryPage(ix1, b, t).Some?
            && TryPage(ix1, b, t).value.(nStart := 0, nEnd := 1, notFull := ix.notFull[0 := b])
              == OnNewPage(ix.(fsm := free), b, t)
  {
    var page := DataPage([t], false, Lower(ix.words, 1));
    FreshTakes(ix.words, pages[b], t);
    assert b == |ix.pages| ==> pages[b := page] == ix.pages + [page];
  }

  /** A block from BloomNewBuffer takes the tuple, with the pages the fallback of blinsert would leave. */
  lemma NewBlockTakes(ix: Index, pages: seq<Page>, free: set<nat>, b: nat, t: BloomTuple)
    requires IndexOk(ix) && |t.sign| == ix.words && free <= ix.fsm
    requires (b in ix.fsm && b !in free && pages == ix.pages) || (b == |ix.pages| && pages == ix.pages + [NewPage])
    requires 1 <= b < |pages| && Recyclable(pages[b]) && !pages[b].MetaPage?
    ensures var ix1 := ix.(pages := pages, fsm := free);
            && TryPage(ix1, b, t).Some?
            && TryPage(ix1, b, t).value.(nStart := 0, nEnd := 1, notFull := ix.notFull[0 := b])
              == OnNewPage(ix.(fsm := free), b, t)
    ensures IndexOk(OnNewPage(ix.(fsm := free), b, t))
  {
    NewBlockSame(ix, pages, free, b, t);
    OnNewPageOk(ix.(fsm := free), b, t);
  }

  lemma TakeNext(rows: seq<BloomTuple>, i: nat)
    requires i < |rows|
    ensures rows[..i] + [rows[i]] == rows[..i + 1]
  {
  }

  ghost predicate AllBlocks(ix: Index, list: seq<nat>) {
    forall i :: 0 <= i < |list| ==> IsDataBlock(ix, list[i])
  }

  /** The blocks collected by a whole pass are data blocks of the index it leaves. */
  lemma ListedAreBlocks(ix: Index, dead: set<ItemPointer>)
    requires IndexOk(ix)
    ensures var n := |ix.pages|;
            && IndexOk(VacuumedBelow(ix, dead, n)) && |Collected(ix.words, ix.pages, dead, n)| <= META_BLOCKS
            && AllBlocks(VacuumedBelow(ix, dead, n), Collected(ix.words, ix.pages, dead, n))
  {
    VacuumedBelowOk(ix, dead, |ix.pages|);
    CollectedOk(ix.words, ix.pages, dead, |ix.pages|);
  }

  class Relation {
    const words: nat
    const notFull: array<nat>
    var nStart: nat
    var nEnd: nat
    var pages: seq<Page>
    var fsm: set<nat>

    ghost function Snapshot(): Index
      reads this, notFull
    {
      Index(nStart, nEnd, notFull[..], words, pages, fsm)
    }

    ghost predicate Valid()
      reads this, notFull
    {
      notFull.Length == META_BLOCKS && IndexOk(Snapshot())
    }

    /** blbuildempty: nothing but the metapage. */
    constructor Empty(words: nat)
      requires 1 <= words <= 256
      ensures Valid() && fresh(notFull) && this.words == words
      ensures pages == [MetaPage] && nStart == nEnd == 0 && fsm == {}
    {
      this.words := words;
      notFull := new nat[META_BLOCKS](_ => 0);
      nStart, nEnd := 0, 0;
      pages := [MetaPage];
      fsm := {};
    }

    /** What a build has consumed: the flushed pages and then the cached one. */
    ghost function Consumed(cached: WorkingPage): seq<BloomTuple>
      reads this, cached, cached.slots
      requires cached.maxoff <= cached.slots.Length
    {
      AllTuples(pages) + Tuples(cached.Image())
    }

    ghost predicate Building(cached: WorkingPage)
      reads this, notFull, cached, cached.slots
    {
      && Valid() && cached.Valid() && cached.words == words && !cached.isNew && !cached.deleted
      && AllFull(words, pages)
    }

    /** bloomBuildCallback: add to the cached page, flushing it first when it is full. */
    method BuildCallback(cached: WorkingPage, itup: BloomTuple)
      requires Building(cached) && |itup.sign| == words
      modifies this`pages, cached, cached.slots
      ensures Building(cached) && cached.maxoff > 0
      ensures Consumed(cached) == old(Consumed(cached)) + [itup]
    {
      ghost var page := cached.Image();
      var ok := cached.Add(itup);
      if ok {
        assert AllTuples(pages) + (page.tuples + [itup]) == (AllTuples(pages) + page.tuples) + [itup];
      } else {
        AllTuplesAppend(pages, page);
        Flush(cached);
        cached.Init();
        EmptyPageTakesTuple(words, itup);
        ok := cached.Add(itup);
      }
    }

    /** table_index_build_scan: the callback for every heap tuple, in heap order. */
    method BuildScan(cached: WorkingPage, rows: seq<BloomTuple>)
      requires Building(cached) && Consumed(cached) == []
      requires forall i :: 0 <= i < |rows| ==> |rows[i].sign| == words
      modifies this`pages, cached, cached.slots
      ensures Building(cached) && Consumed(cached) == rows
    {
      var i := 0;
      while i < |rows|
        invariant 0 <= i <= |rows|
        invariant Building(cached)
        invariant Consumed(cached) == rows[..i]
      {
        TakeNext(rows, i);
        BuildCallback(cached, rows[i]);
        i := i + 1;
      }
      assert rows[..|rows|] == rows;
    }

    /** The end of blbuild: the cached page is flushed if it holds anything. */
    method FlushLast(cached: WorkingPage)
      requires Building(cached)
      modifies this`pages
      ensures Valid() && AllTuples(pages) == old(Consumed(cached)) && FullButLast(words, pages)
    {
      ghost var image := cached.Image();
      FlushedFacts(words, pages, image);
      if cached.maxoff > 0 {
        Flush(cached);
      }
    }

    /** blbuild: all rows in heap order, every page but the last one filled up. */
    method Build(rows: seq<BloomTuple>)
      requires Valid() && pages == [MetaPage]
      requires forall i :: 0 <= i < |rows| ==> |rows[i].sign| == words
      modifies this`pages
      ensures Valid()
      ensures AllTuples(pages) == rows && FullButLast(words, pages)
    {
      var cached := new WorkingPage(words, FRESH);
      assert AllTuples([MetaPage]) == [] + [];
      BuildScan(cached, rows);
      FlushLast(cached);
    }

    /** flushCachedPage: the FSM of an index under construction is empty, so the file is extended. */
    method Flush(cached: WorkingPage)
      requires Valid() && cached.Valid() && cached.words == words && !cached.isNew
      modifies this`pages
      ensures Valid() && pages == old(pages) + [cached.Image()]
    {
      AppendOk(Snapshot(), cached.Image());
      var image := DataPage(cached.slots[..cached.maxoff], cached.deleted, cached.lower);
      pages := pages + [image];
    }

    /** The section under one page's exclusive lock: edit a copy, then finish or abort. */
    method TryBlock(b: nat, t: BloomTuple) returns (ok: bool)
      requires Valid() && IsDataBlock(Snapshot(), b) && |t.sign| == words
      modifies this`pages
      ensures var r := TryPage(old(Snapshot()), b, t);
              ok == r.Some? && Snapshot() == (if ok then r.value else old(Snapshot()))
      ensures Valid()
    {
      TryPageOk(Snapshot(), b, t);
      var page := new WorkingPage(words, pages[b]);
      if page.isNew || page.deleted {
        page.Init();
      }
      ok := page.Add(t);
      if ok {
        pages := pages[b := DataPage(page.slots[..page.maxoff], page.deleted, page.lower)];
      }
    }

    /** BloomNewBuffer: recycle a block the FSM offers if it is still free, otherwise extend the file. */
    method NewBuffer() returns (b: nat)
      requires Valid()
      modifies this`pages, this`fsm
      ensures Valid() && fsm <= old(fsm) && IsDataBlock(Snapshot(), b) && Recyclable(pages[b])
      ensures (b in old(fsm) && b !in fsm && pages == old(pages))
              || (b == |old(pages)| && fsm == {} && pages == old(pages) + [NewPage])
    {
      while fsm != {}
        invariant Valid() && fsm <= old(fsm) && pages == old(pages)
        decreases fsm
      {
        b :| b in fsm;
        fsm := fsm - {b};
        if Recyclable(pages[b]) {
          return;
        }
      }
      AppendOk(Snapshot(), NewPage);
      b := |pages|;
      pages := pages + [NewPage];
    }

    /** The list shrinks to one block. */
    method ListOnly(b: nat)
      requires notFull.Length == META_BLOCKS
      modifies this`nStart, this`nEnd, notFull
      ensures Snapshot() == old(Snapshot()).(nStart := 0, nEnd := 1, notFull := old(notFull[..])[0 := b])
    {
      nStart := 0;
      nEnd := 1;
      notFull[0] := b;
    }

    /** The fallback of blinsert: the tuple on a page of its own, which becomes the whole list. */
    method InsertOnNewPage(t: BloomTuple)
      requires Valid() && |t.sign| == words
      modifies this, notFull
      ensures Valid()
      ensures InsertedAlone(old(Snapshot()), t, Snapshot())
    {
      ghost var ix := Snapshot();
      var b := NewBuffer();
      ghost var free := fsm;
      NewBlockTakes(ix, pages, free, b, t);
      var ok := TryBlock(b, t);
      ListOnly(b);
      assert AloneOn(ix, t, Snapshot(), b, free);
    }

    /** The loop of blinsert over the listed pages from position `start`, under the metapage lock. */
    method TryListedFrom(start: nat, t: BloomTuple) returns (ok: bool)
      requires Valid() && |t.sign| == words && nStart <= start <= nEnd
      requires forall j :: nStart <= j < start ==> !Takes(Snapshot(), j, t)
      modifies this`pages, this`nStart
      ensures ok ==> exists i :: InsertedListed(old(Snapshot()), i, t, Snapshot())
      ensures !ok ==> Snapshot() == old(Snapshot()) && forall j :: nStart <= j < nEnd ==> !Takes(old(Snapshot()), j, t)
    {
      ghost var ix := Snapshot();
      var at := start;
      while at < nEnd
        invariant Valid() && Snapshot() == ix && start <= at <= nEnd
        invariant forall j :: nStart <= j < at ==> !Takes(ix, j, t)
      {
        ok := TryBlock(notFull[at], t);
        if ok {
          nStart := at;
          assert InsertedListed(ix, at, t, Snapshot());
          return;
        }
        at := at + 1;
      }
      ok := false;
    }

    /** The fast path of blinsert: the first listed page, if any. */
    method TryFirstListed(t: BloomTuple) returns (ok: bool, tried: Option<nat>)
      requires Valid() && |t.sign| == words
      modifies this`pages
      ensures ok ==> exists i :: InsertedListed(old(Snapshot()), i, t, Snapshot())
      ensures !ok ==> Snapshot() == old(Snapshot()) && tried == FirstListed(Snapshot())
      ensures !ok && nStart < nEnd ==> !Takes(Snapshot(), nStart, t)
    {
      ghost var ix := Snapshot();
      tried := None;
      ok := false;
      if nEnd > nStart {
        tried := Some(notFull[nStart]);
        ok := TryBlock(tried.value, t);
        if ok {
          assert InsertedListed(ix, nStart, t, Snapshot());
        }
      }
    }

    /** blinsert */
    method Insert(t: BloomTuple)
      requires Valid() && |t.sign| == words
      modifies this, notFull
      ensures Inserted(old(Snapshot()), t, Snapshot())
      ensures Valid() && Live(pages) == old(Live(pages)) + multiset{t}
    {
      ghost var ix := Snapshot();
      var ok, tried := TryFirstListed(t);
      if !ok {
        var start := if nStart < nEnd && tried == Some(notFull[nStart]) then nStart + 1 else nStart;
        ok := TryListedFrom(start, t);
        if !ok {
          InsertOnNewPage(t);
        }
      }
      InsertedAddsOne(ix, t, Snapshot());
    }

    /** What blbulkdelete makes of a page in use. */
    method VacuumImage(b: nat, dead: set<ItemPointer>) returns (image: Page, finished: bool, removed: nat)
      requires Valid() && IsDataBlock(Snapshot(), b) && !Recyclable(pages[b])
      ensures image == VacuumedPage(words, pages[b], dead) && (finished <==> image != pages[b])
      ensures removed == |Drop(Tuples(pages[b]), dead)|
    {
      var page := new WorkingPage(words, pages[b]);
      finished, removed := page.BulkDelete(dead);
      image := DataPage(page.slots[..page.maxoff], page.deleted, page.lower);
    }

    /** One page of blbulkdelete. */
    method BulkDeleteBlock(b: nat, dead: set<ItemPointer>) returns (removed: nat)
      requires Valid() && IsDataBlock(Snapshot(), b)
      modifies this`pages
      ensures Valid() && pages == old(pages)[b := VacuumedPage(words, old(pages)[b], dead)]
      ensures removed == |Drop(Tuples(old(pages)[b]), dead)|
    {
      if Recyclable(pages[b]) {
        return 0;
      }
      VacuumPageOfOk(Snapshot(), b, dead);
      ghost var vacuumed := VacuumPageOf(Snapshot(), b, dead);
      var image, finished;
      image, finished, removed := VacuumImage(b, dead);
      if finished {
        pages := pages[b := image];
      } else {
        assert pages[b := pages[b]] == pages;
      }
      assert Snapshot() == vacuumed;
    }

    /** The last section of blbulkdelete: the collected blocks become the list. */
    method InstallBlocks(list: array<nat>, count: nat)
      requires Valid() && list != notFull && count <= list.Length == META_BLOCKS
      requires AllBlocks(Snapshot(), list[..count])
      modifies this`nStart, this`nEnd, notFull
      ensures Valid() && Snapshot() == InstallList(old(Snapshot()), list[..count])
    {
      ghost var ix := Snapshot();
      forall i | 0 <= i < count {
        notFull[i] := list[i];
      }
      nStart := 0;
      nEnd := count;
      assert notFull[..] == list[..count] + ix.notFull[count..];
      assert forall i :: 0 <= i < count ==> notFull[..][i] == list[..count][i];
    }

    /** One turn of the page loop of blbulkdelete: the page, and whether it goes on the new list. */
    method BulkDeleteTurn(b: nat, dead: set<ItemPointer>, list: array<nat>, count: nat)
      returns (removed: nat, count': nat)
      requires Valid() && IsDataBlock(Snapshot(), b) && list != notFull && count <= list.Length == META_BLOCKS
      modifies this`pages, list
      ensures Valid() && pages == old(pages)[b := VacuumedPage(words, old(pages)[b], dead)]
      ensures removed == |Drop(Tuples(old(pages)[b]), dead)|
      ensures count' <= META_BLOCKS
              && list[..count'] == ListAfter(old(list[..count]), words, old(pages)[b], pages[b], b)
    {
      var skip := Recyclable(pages[b]);
      removed := BulkDeleteBlock(b, dead);
      count' := count;
      if !skip && Listable(words, pages[b]) && count < META_BLOCKS {
        list[count] := b;
        count' := count + 1;
      }
    }

    /** The pass over index ix has come to block blk, with `count` blocks on the new list and `removed` tuples gone. */
    ghost predicate Passing(ix: Index, dead: set<ItemPointer>, blk: nat, list: array<nat>, count: nat, removed: nat)
      reads this, notFull, list
    {
      && IndexOk(ix) && notFull.Length == META_BLOCKS && list != notFull && count <= list.Length == META_BLOCKS
      && 1 <= blk <= |ix.pages| && words == ix.words && Snapshot() == VacuumedBelow(ix, dead, blk)
      && list[..count] == Collected(words, ix.pages, dead, blk) && removed == Claimed(ix.pages, dead, blk)
    }

    method PassTurn(ghost ix: Index, blk: nat, dead: set<ItemPointer>, list: array<nat>, count: nat, removed: nat)
      returns (count': nat, removed': nat)
      requires Passing(ix, dead, blk, list, count, removed) && blk < |ix.pages|
      modifies this`pages, list
      ensures Passing(ix, dead, blk + 1, list, count', removed')
    {
      VacuumedBelowNext(ix, dead, blk);
      var gone;
      gone, count' := BulkDeleteTurn(blk, dead, list, count);
      removed' := removed + gone;
    }

    /** The page loop of blbulkdelete. */
    method BulkDeletePages(dead: set<ItemPointer>, list: array<nat>) returns (removed: nat, count: nat)
      requires Valid() && list != notFull && list.Length == META_BLOCKS
      modifies this`pages, list
      ensures Passing(old(Snapshot()), dead, |old(pages)|, list, count, removed)
    {
      count, removed := 0, 0;
      ghost var ix := Snapshot();
      var npages := |pages|;
      var blk: nat := 1;
      while blk < npages
        invariant blk <= npages && Passing(ix, dead, blk, list, count, removed)
      {
        count, removed := PassTurn(ix, blk, dead, list, count, removed);
        blk := blk + 1;
      }
    }

    /** blbulkdelete: every page, then the new list on the metapage. */
    method BulkDelete(dead: set<ItemPointer>) returns (removed: nat)
      requires Valid()
      modifies this`pages, this`nStart, this`nEnd, notFull
      ensures Valid()
      ensures Snapshot() == InstallList(VacuumedBelow(old(Snapshot()), dead, |old(pages)|),
                                        Collected(words, old(pages), dead, |old(pages)|))
      ensures removed == |old(Live(pages))| - |Live(pages)|
    {
      var list := new nat[META_BLOCKS](_ => 0);
      ghost var ix := Snapshot();
      var count;
      removed, count := BulkDeletePages(dead, list);
      ListedAreBlocks(ix, dead);
      ClaimedIsDifference(ix, dead, |ix.pages|);
      assert list[..count] == Collected(words, ix.pages, dead, |ix.pages|);
      InstallBlocks(list, count);
    }

    /** One page of blvacuumcleanup. */
    method CleanupBlock(b: nat) returns (free: bool, tuples: nat)
      requires Valid() && IsDataBlock(Snapshot(), b)
      modifies this`fsm
      ensures Valid() && fsm == old(fsm) + (if Recyclable(pages[b]) then {b} else {})
      ensures free == Recyclable(pages[b]) && tuples == |Tuples(pages[b])|
    {
      free := Recyclable(pages[b]);
      tuples := 0;
      if free {
        fsm := fsm + {b};
      } else {
        tuples := |pages[b].tuples|;
      }
    }

    /** The page loop of blvacuumcleanup. */
    method CleanupPages() returns (pagesFree: nat, numTuples: nat)
      requires Valid()
      modifies this`fsm
      ensures (Snapshot(), pagesFree, numTuples) == CleanedBelow(old(Snapshot()), |pages|)
    {
      ghost var ix := Snapshot();
      pagesFree, numTuples := 0, 0;
      var blk: nat := 1;
      while blk < |pages|
        invariant 1 <= blk <= |pages| && pages == ix.pages
        invariant (Snapshot(), pagesFree, numTuples) == CleanedBelow(ix, blk)
      {
        CleanedBelowOk(ix, blk);
        var free, tuples := CleanupBlock(blk);
        pagesFree := pagesFree + (if free then 1 else 0);
        numTuples := numTuples + tuples;
        blk := blk + 1;
      }
    }

    /** blvacuumcleanup: free pages go to the FSM, and the statistics are exact. */
    method VacuumCleanup() returns (numPages: nat, pagesFree: nat, numTuples: nat)
      requires Valid()
      modifies this`fsm
      ensures Valid() && fsm == old(fsm) + FreeBlocks(pages, |pages|)
      ensures numPages == |pages| && pagesFree == |FreeBlocks(pages, |pages|)| && numTuples == |Live(pages)|
    {
      CleanedBelowExact(Snapshot(), |pages|);
      assert pages[..|pages|] == pages;
      numPages := |pages|;
      pagesFree, numTuples := CleanupPages();
    }

    /** The tuple loop of blgetbitmap on one page. */
    method ScanBlock(b: nat, query: Signature) returns (tbm: set<ItemPointer>, ntids: nat)
      requires Valid() && IsDataBlock(Snapshot(), b) && |query| == words
      ensures tbm == Matching(Tuples(pages[b]), query) && ntids == CountCovering(Tuples(pages[b]), query)
    {
      tbm, ntids := {}, 0;
      var page := pages[b];
      if page.DataPage? && !page.deleted {
        var offset := 0;
        while offset < |page.tuples|
          invariant 0 <= offset <= |page.tuples|
          invariant tbm == Matching(page.tuples[..offset], query)
          invariant ntids == CountCovering(page.tuples[..offset], query)
        {
          var itup := page.tuples[offset];
          assert page.tuples[..offset + 1] == page.tuples[..offset] + [itup];
          MatchingAppend(page.tuples[..offset], itup, query);
          CoversIsInclusion(itup.sign, query);
          var res := Covers(itup.sign, query);
          if res {
            tbm := tbm + {itup.heapPtr};
            ntids := ntids + 1;
          }
          offset := offset + 1;
        }
        assert page.tuples[..|page.tuples|] == page.tuples;
      }
    }

    /** Second half of blgetbitmap: all pages, in block order. */
    method GetBitmap(query: Signature) returns (tbm: set<ItemPointer>)
      requires Valid() && |query| == words
      ensures forall h :: h in tbm <==> HasCovering(pages, query, h)
    {
      tbm := {};
      var blk := 1;
      while blk < |pages|
        invariant 1 <= blk <= |pages|
        invariant tbm == Found(pages, query, blk)
      {
        var here, n := ScanBlock(blk, query);
        tbm := tbm + here;
        blk := blk + 1;
      }
      FoundIsCovering(Snapshot(), query);
    }
  }
}
