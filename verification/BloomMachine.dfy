/** The bloom index as a concurrent state machine.

    Every section that the code runs under one buffer lock is one atomic step.  An insertion is several
    such sections (read the metapage, try the first listed page, take the metapage lock, try the listed
    pages one by one, recycle or extend), bulk delete and cleanup take one step per page, a scan reads one
    page per step, and any number of these processes interleave freely.  The exclusive metapage lock that
    blinsert keeps through its loop is explicit.  A finished GenericXLog replaces page images in one step
    and an aborted one changes nothing. */
module BloomMachine {
  import opened Basics
  import opened BloomSignature
  import opened BloomPage

  // ---------- the index and its locked sections ----------

  /** Block 0 is the metapage: its list fields are the first three fields here. */
  datatype Index = Index(nStart: nat, nEnd: nat, notFull: seq<nat>, words: nat, pages: seq<Page>, fsm: set<nat>)

  ghost predicate IsDataBlock(ix: Index, b: nat) {
    1 <= b < |ix.pages|
  }

  ghost predicate ListOk(ix: Index) {
    && |ix.notFull| == META_BLOCKS
    && ix.nStart <= ix.nEnd <= META_BLOCKS
    && forall i :: ix.nStart <= i < ix.nEnd ==> IsDataBlock(ix, ix.notFull[i])
  }

  ghost predicate PagesOk(ix: Index) {
    && 1 <= ix.words <= 256
    && |ix.pages| >= 1 && ix.pages[0] == MetaPage
    && forall b: nat :: IsDataBlock(ix, b) ==> !ix.pages[b].MetaPage? && PageOk(ix.words, ix.pages[b])
  }

  ghost predicate IndexOk(ix: Index) {
    PagesOk(ix) && ListOk(ix) && forall b :: b in ix.fsm ==> IsDataBlock(ix, b)
  }

  /** Every tuple on every page, with multiplicity. */
  ghost function Live(pages: seq<Page>): multiset<BloomTuple> {
    if pages == [] then multiset{} else Live(pages[..|pages| - 1]) + multiset(Tuples(pages[|pages| - 1]))
  }

  /** Shared-lock section: the first listed block, if any. */
  function FirstListed(ix: Index): Option<nat>
    requires ix.nEnd <= |ix.notFull|
  {
    if ix.nEnd > ix.nStart then Some(ix.notFull[ix.nStart]) else None
  }

  /** Exclusive-lock section on one data page: add the tuple, or None when it does not fit. */
  function TryPage(ix: Index, b: nat, t: BloomTuple): Option<Index>
    requires b < |ix.pages| && !ix.pages[b].MetaPage?
  {
    match TakeAndAdd(ix.words, ix.pages[b], t)
    case None => None
    case Some(p) => Some(ix.(pages := ix.pages[b := p]))
  }

  /** Where the loop over listed pages starts, given the block the fast path tried. */
  function LoopStart(ix: Index, tried: Option<nat>): nat
    requires ix.nEnd <= |ix.notFull|
  {
    if ix.nStart < ix.nEnd && tried == Some(ix.notFull[ix.nStart]) then ix.nStart + 1 else ix.nStart
  }

  /** One turn of the loop: page and metapage are replaced together. */
  function TryListed(ix: Index, at: nat, t: BloomTuple): Option<Index>
    requires at < |ix.notFull| && ix.notFull[at] < |ix.pages| && !ix.pages[ix.notFull[at]].MetaPage?
  {
    match TryPage(ix, ix.notFull[at], t)
    case None => None
    case Some(ix') => Some(ix'.(nStart := at))
  }

  /** Fallback: the tuple goes alone on block b, recycled or just past the end of the file, and the list
      is reset to that block. */
  function OnNewPage(ix: Index, b: nat, t: BloomTuple): Index
    requires b <= |ix.pages| && |ix.notFull| > 0
  {
    var p := DataPage([t], false, Lower(ix.words, 1));
    ix.(nStart := 0, nEnd := 1, notFull := ix.notFull[0 := b],
        pages := if b == |ix.pages| then ix.pages + [p] else ix.pages[b := p])
  }

  /** One page of bulk delete. */
  function VacuumPageOf(ix: Index, b: nat, dead: set<ItemPointer>): Index
    requires b < |ix.pages|
  {
    ix.(pages := ix.pages[b := VacuumedPage(ix.words, ix.pages[b], dead)])
  }

  /** Whether bulk delete lists the page it has just processed. */
  predicate Listable(words: nat, p: Page) {
    p.DataPage? && !p.deleted && |p.tuples| != 0 && FreeSpace(words, |p.tuples|) >= TupleSize(words)
  }

  function ListAfter(list: seq<nat>, words: nat, before: Page, after: Page, b: nat): seq<nat> {
    if !Recyclable(before) && Listable(words, after) && |list| < META_BLOCKS then list + [b] else list
  }

  /** End of bulk delete: the new list replaces the front of the array. */
  function InstallList(ix: Index, list: seq<nat>): Index
    requires |list| <= |ix.notFull|
  {
    ix.(nStart := 0, nEnd := |list|, notFull := list + ix.notFull[|list|..])
  }

  /** One page of cleanup. */
  function CleanupPageOf(ix: Index, b: nat): Index
    requires b < |ix.pages|
  {
    if Recyclable(ix.pages[b]) then ix.(fsm := ix.fsm + {b}) else ix
  }

  // ---------- processes ----------

  datatype Proc =
    | InsertStart(t: BloomTuple)                        // nothing read yet
    | InsertFast(t: BloomTuple, blk: nat)               // metapage read, no lock held
    | InsertSlow(t: BloomTuple, tried: Option<nat>)     // about to lock the metapage
    | InsertLoop(t: BloomTuple, at: nat)                // holds the metapage lock
    | InsertDone(t: BloomTuple)
    | BulkDelete(dead: set<ItemPointer>, npages: nat, blk: nat, list: seq<nat>)
    | BulkDone(dead: set<ItemPointer>)
    | Cleanup(npages: nat, blk: nat)
    | Scan(query: Signature, npages: nat, blk: nat, tbm: set<ItemPointer>)

  datatype System = System(ix: Index, lock: Option<nat>, procs: map<nat, Proc>,
                           inserted: multiset<BloomTuple>, removed: multiset<BloomTuple>)

  datatype Event =
    | BeginInsert(p: nat, t: BloomTuple)
    | BeginBulkDelete(p: nat, dead: set<ItemPointer>)
    | BeginCleanup(p: nat)
    | BeginScan(p: nat, query: Signature)
    | ReadMeta(p: nat)
    | TryFast(p: nat)
    | LockMeta(p: nat)
    | TryNext(p: nat)
    | TakeFree(p: nat, b: nat)      // a block from the FSM that is indeed new or deleted
    | RejectFree(p: nat, b: nat)    // a block from the FSM that is in use or locked by another backend
    | Extend(p: nat)
    | ExtendOnly                    // a backend extends the file and fails before it writes the page
    | Fail(p: nat)                  // a backend gives up between two sections and drops its lock
    | VacuumPage(p: nat)
    | VacuumFinish(p: nat)
    | CleanupPage(p: nat)
    | ScanPage(p: nat)

  /** The tuple an insertion process carries. */
  predicate IsInsert(q: Proc) {
    q.InsertStart? || q.InsertFast? || q.InsertSlow? || q.InsertLoop?
  }

  function SetProc(s: System, p: nat, q: Proc): System {
    s.(procs := s.procs[p := q])
  }

  /** Process p has put its tuple on a page: the index is ix and the insertion returns. */
  function InsertReturns(s: System, p: nat, t: BloomTuple, ix: Index): System {
    s.(ix := ix, procs := s.procs[p := InsertDone(t)], inserted := s.inserted + multiset{t},
       lock := if s.lock == Some(p) then None else s.lock)
  }

  // Insertion: read the metapage under a shared lock

  predicate CanReadMeta(s: System, p: nat) {
    p in s.procs && s.procs[p].InsertStart? && s.lock.None? && s.ix.nEnd <= |s.ix.notFull|
  }

  function DoReadMeta(s: System, p: nat): System
    requires CanReadMeta(s, p)
  {
    var t := s.procs[p].t;
    SetProc(s, p, match FirstListed(s.ix) case Some(b) => InsertFast(t, b) case None => InsertSlow(t, None))
  }

  // Insertion: try the first listed page, no lock on the metapage

  predicate CanTryFast(s: System, p: nat) {
    p in s.procs && s.procs[p].InsertFast? && s.procs[p].blk < |s.ix.pages| && !s.ix.pages[s.procs[p].blk].MetaPage?
  }

  function DoTryFast(s: System, p: nat): System
    requires CanTryFast(s, p)
  {
    var InsertFast(t, b) := s.procs[p];
    match TryPage(s.ix, b, t)
    case Some(ix) => InsertReturns(s, p, t, ix)
    case None => SetProc(s, p, InsertSlow(t, Some(b)))
  }

  // Insertion: lock the metapage exclusively

  predicate CanLockMeta(s: System, p: nat) {
    p in s.procs && s.procs[p].InsertSlow? && s.lock.None? && s.ix.nEnd <= |s.ix.notFull|
  }

  function DoLockMeta(s: System, p: nat): System
    requires CanLockMeta(s, p)
  {
    var InsertSlow(t, tried) := s.procs[p];
    SetProc(s, p, InsertLoop(t, LoopStart(s.ix, tried))).(lock := Some(p))
  }

  // Insertion: one turn of the loop over listed pages

  predicate CanTryNext(s: System, p: nat) {
    && p in s.procs && s.procs[p].InsertLoop? && s.procs[p].at < s.ix.nEnd <= |s.ix.notFull|
    && s.ix.notFull[s.procs[p].at] < |s.ix.pages| && !s.ix.pages[s.ix.notFull[s.procs[p].at]].MetaPage?
  }

  function DoTryNext(s: System, p: nat): System
    requires CanTryNext(s, p)
  {
    var InsertLoop(t, at) := s.procs[p];
    match TryListed(s.ix, at, t)
    case Some(ix) => InsertReturns(s, p, t, ix)
    case None => SetProc(s, p, InsertLoop(t, at + 1))
  }

  // Insertion: the list is exhausted, so recycle a block the FSM offers, or extend the file

  predicate Exhausted(s: System, p: nat) {
    p in s.procs && s.procs[p].InsertLoop? && s.procs[p].at >= s.ix.nEnd && |s.ix.notFull| > 0
  }

  predicate CanTakeFree(s: System, p: nat, b: nat) {
    Exhausted(s, p) && b in s.ix.fsm && b < |s.ix.pages| && Recyclable(s.ix.pages[b])
  }

  function DoTakeFree(s: System, p: nat, b: nat): System
    requires CanTakeFree(s, p, b)
  {
    InsertReturns(s, p, s.procs[p].t, OnNewPage(s.ix.(fsm := s.ix.fsm - {b}), b, s.procs[p].t))
  }

  function DoExtend(s: System, p: nat): System
    requires Exhausted(s, p)
  {
    InsertReturns(s, p, s.procs[p].t, OnNewPage(s.ix, |s.ix.pages|, s.procs[p].t))
  }

  function DoExtendOnly(s: System): System {
    s.(ix := s.ix.(pages := s.ix.pages + [NewPage]))
  }

  function DoFail(s: System, p: nat): System {
    s.(procs := s.procs - {p}, lock := if s.lock == Some(p) then None else s.lock)
  }

  // Bulk delete: one page, then the list on the metapage

  predicate CanVacuumPage(s: System, p: nat) {
    p in s.procs && s.procs[p].BulkDelete? && s.procs[p].blk < s.procs[p].npages && s.procs[p].blk < |s.ix.pages|
  }

  function DoVacuumPage(s: System, p: nat): System
    requires CanVacuumPage(s, p)
  {
    var BulkDelete(dead, npages, b, list) := s.procs[p];
    var ix := VacuumPageOf(s.ix, b, dead);
    SetProc(s, p, BulkDelete(dead, npages, b + 1, ListAfter(list, s.ix.words, s.ix.pages[b], ix.pages[b], b)))
    .(ix := ix, removed := s.removed + multiset(Drop(Tuples(s.ix.pages[b]), dead)))
  }

  predicate CanVacuumFinish(s: System, p: nat) {
    && p in s.procs && s.procs[p].BulkDelete? && s.procs[p].blk >= s.procs[p].npages && s.lock.None?
    && |s.procs[p].list| <= |s.ix.notFull|
  }

  function DoVacuumFinish(s: System, p: nat): System
    requires CanVacuumFinish(s, p)
  {
    SetProc(s, p, BulkDone(s.procs[p].dead)).(ix := InstallList(s.ix, s.procs[p].list))
  }

  // Cleanup and scan: one page

  predicate CanCleanupPage(s: System, p: nat) {
    p in s.procs && s.procs[p].Cleanup? && s.procs[p].blk < s.procs[p].npages && s.procs[p].blk < |s.ix.pages|
  }

  function DoCleanupPage(s: System, p: nat): System
    requires CanCleanupPage(s, p)
  {
    var Cleanup(npages, b) := s.procs[p];
    SetProc(s, p, Cleanup(npages, b + 1)).(ix := CleanupPageOf(s.ix, b))
  }

  function Matching(tuples: seq<BloomTuple>, query: Signature): set<ItemPointer> {
    set i | 0 <= i < |tuples| && |tuples[i].sign| == |query| && CoversWords(tuples[i].sign, query) :: tuples[i].heapPtr
  }

  predicate CanScanPage(s: System, p: nat) {
    p in s.procs && s.procs[p].Scan? && s.procs[p].blk < s.procs[p].npages && s.procs[p].blk < |s.ix.pages|
  }

  function DoScanPage(s: System, p: nat): System
    requires CanScanPage(s, p)
  {
    var Scan(query, npages, b, tbm) := s.procs[p];
    SetProc(s, p, Scan(query, npages, b + 1, tbm + Matching(Tuples(s.ix.pages[b]), query)))
  }

  // ---------- all steps ----------

  predicate Enabled(s: System, e: Event) {
    match e
    case BeginInsert(p, t) => p !in s.procs && |t.sign| == s.ix.words
    case BeginBulkDelete(p, _) => p !in s.procs
    case BeginCleanup(p) => p !in s.procs
    case BeginScan(p, query) => p !in s.procs && |query| == s.ix.words
    case ReadMeta(p) => CanReadMeta(s, p)
    case TryFast(p) => CanTryFast(s, p)
    case LockMeta(p) => CanLockMeta(s, p)
    case TryNext(p) => CanTryNext(s, p)
    case TakeFree(p, b) => CanTakeFree(s, p, b)
    case RejectFree(p, b) => Exhausted(s, p) && b in s.ix.fsm
    case Extend(p) => Exhausted(s, p)
    case ExtendOnly => true
    case Fail(p) => p in s.procs
    case VacuumPage(p) => CanVacuumPage(s, p)
    case VacuumFinish(p) => CanVacuumFinish(s, p)
    case CleanupPage(p) => CanCleanupPage(s, p)
    case ScanPage(p) => CanScanPage(s, p)
  }

  function Step(s: System, e: Event): System
    requires Enabled(s, e)
  {
    match e
    case BeginInsert(p, t) => SetProc(s, p, InsertStart(t))
    case BeginBulkDelete(p, dead) => SetProc(s, p, BulkDelete(dead, |s.ix.pages|, 1, []))
    case BeginCleanup(p) => SetProc(s, p, Cleanup(|s.ix.pages|, 1))
    case BeginScan(p, query) => SetProc(s, p, Scan(query, |s.ix.pages|, 1, {}))
    case ReadMeta(p) => DoReadMeta(s, p)
    case TryFast(p) => DoTryFast(s, p)
    case LockMeta(p) => DoLockMeta(s, p)
    case TryNext(p) => DoTryNext(s, p)
    case TakeFree(p, b) => DoTakeFree(s, p, b)
    case RejectFree(p, b) => s.(ix := s.ix.(fsm := s.ix.fsm - {b}))
    case Extend(p) => DoExtend(s, p)
    case ExtendOnly => DoExtendOnly(s)
    case Fail(p) => DoFail(s, p)
    case VacuumPage(p) => DoVacuumPage(s, p)
    case VacuumFinish(p) => DoVacuumFinish(s, p)
    case CleanupPage(p) => DoCleanupPage(s, p)
    case ScanPage(p) => DoScanPage(s, p)
  }

  // ---------- the invariant of every run ----------

  ghost predicate ProcOk(s: System, p: nat)
    requires p in s.procs
  {
    match s.procs[p]
    case InsertStart(t) => |t.sign| == s.ix.words
    case InsertFast(t, b) => |t.sign| == s.ix.words && IsDataBlock(s.ix, b)
    case InsertSlow(t, _) => |t.sign| == s.ix.words
    case InsertLoop(t, at) => |t.sign| == s.ix.words && s.lock == Some(p) && s.ix.nStart <= at <= s.ix.nEnd
    case InsertDone(_) => true
    case BulkDelete(_, npages, b, list) =>
      && 1 <= b && npages <= |s.ix.pages| && |list| <= META_BLOCKS
      && forall i :: 0 <= i < |list| ==> IsDataBlock(s.ix, list[i])
    case BulkDone(_) => true
    case Cleanup(npages, b) => 1 <= b && npages <= |s.ix.pages|
    case Scan(query, npages, b, _) => 1 <= b && npages <= |s.ix.pages| && |query| == s.ix.words
  }

  /** Nothing is lost and nothing appears: what is on the pages plus what vacuum removed is what was inserted. */
  ghost predicate Balanced(s: System) {
    Live(s.ix.pages) + s.removed == s.inserted
  }

  ghost predicate Inv(s: System) {
    && IndexOk(s.ix)
    && Balanced(s)
    && (forall p :: p in s.procs ==> ProcOk(s, p))
    && (s.lock.Some? ==> s.lock.value in s.procs && s.procs[s.lock.value].InsertLoop?)
  }

  lemma AddToBoth(a: multiset<BloomTuple>, x: multiset<BloomTuple>, b: multiset<BloomTuple>, y: multiset<BloomTuple>,
                  z: multiset<BloomTuple>)
    requires a + x == b + y
    ensures (a + z) + x == (b + z) + y
  {
    assert (a + z) + x == (a + x) + z;
    assert (b + z) + y == (b + y) + z;
  }

  lemma {:induction false} LiveReplace(pages: seq<Page>, b: nat, p: Page)
    requires b < |pages|
    ensures Live(pages[b := p]) + multiset(Tuples(pages[b])) == Live(pages) + multiset(Tuples(p))
  {
    var n := |pages| - 1;
    var replaced := pages[b := p];
    if b == n {
      assert replaced[..n] == pages[..n];
    } else {
      LiveReplace(pages[..n], b, p);
      assert replaced[..n] == pages[..n][b := p];
      AddToBoth(Live(replaced[..n]), multiset(Tuples(pages[b])), Live(pages[..n]), multiset(Tuples(p)),
                multiset(Tuples(pages[n])));
    }
  }

  lemma LiveAppend(pages: seq<Page>, p: Page)
    ensures Live(pages + [p]) == Live(pages) + multiset(Tuples(p))
  {
    assert (pages + [p])[..|pages|] == pages;
  }

  lemma {:induction false} LiveContains(pages: seq<Page>, b: nat, t: BloomTuple)
    requires b < |pages| && t in Tuples(pages[b])
    ensures t in Live(pages)
  {
    if b < |pages| - 1 {
      LiveContains(pages[..|pages| - 1], b, t);
    }
  }

  // ---------- each section keeps the index well formed and accounts for its tuples ----------

  lemma LiveAdd(pages: seq<Page>, b: nat, p: Page, t: BloomTuple)
    requires b < |pages| && Tuples(p) == Tuples(pages[b]) + [t]
    ensures Live(pages[b := p]) == Live(pages) + multiset{t}
  {
    LiveReplace(pages, b, p);
    var there := multiset(Tuples(pages[b]));
    assert multiset(Tuples(p)) == there + multiset{t};
    assert Live(pages) + multiset(Tuples(p)) == (Live(pages) + multiset{t}) + there;
    Cancel(Live(pages[b := p]), Live(pages) + multiset{t}, there);
  }

  lemma LiveDrop(pages: seq<Page>, b: nat, p: Page, dead: set<ItemPointer>)
    requires b < |pages| && Tuples(p) == Keep(Tuples(pages[b]), dead)
    ensures Live(pages[b := p]) + multiset(Drop(Tuples(pages[b]), dead)) == Live(pages)
  {
    LiveReplace(pages, b, p);
    KeepDropSplit(Tuples(pages[b]), dead);
    var kept, dropped := multiset(Tuples(p)), multiset(Drop(Tuples(pages[b]), dead));
    assert Live(pages[b := p]) + (kept + dropped) == (Live(pages[b := p]) + dropped) + kept;
    Cancel(Live(pages[b := p]) + dropped, Live(pages), kept);
  }

  lemma Cancel(a: multiset<BloomTuple>, b: multiset<BloomTuple>, x: multiset<BloomTuple>)
    requires a + x == b + x
    ensures a == b
  {
    assert a == (a + x) - x;
    assert b == (b + x) - x;
  }

  lemma PagesOkReplace(ix: Index, b: nat, p: Page)
    requires IndexOk(ix) && IsDataBlock(ix, b) && !p.MetaPage? && PageOk(ix.words, p)
    ensures IndexOk(ix.(pages := ix.pages[b := p]))
  {
    var r := ix.(pages := ix.pages[b := p]);
    assert forall c: nat :: IsDataBlock(r, c) <==> IsDataBlock(ix, c);
    assert forall c: nat :: IsDataBlock(r, c) && c != b ==> r.pages[c] == ix.pages[c];
  }

  lemma TakeAndAddOk(words: nat, p: Page, t: BloomTuple)
    requires !p.MetaPage? && PageOk(words, p) && |t.sign| == words && 1 <= words <= 256
    ensures var r := TakeAndAdd(words, p, t);
            && (r.Some? ==> r.value.DataPage? && PageOk(words, r.value) && Tuples(r.value) == Tuples(p) + [t])
            && (Recyclable(p) ==> r == Some(DataPage([t], false, Lower(words, 1))))
  {
    if Recyclable(p) {
      EmptyPageTakesTuple(words, t);
    }
    AddItemOk(words, if Recyclable(p) then FRESH else p, t);
  }

  lemma TryPageOk(ix: Index, b: nat, t: BloomTuple)
    requires IndexOk(ix) && IsDataBlock(ix, b) && |t.sign| == ix.words
    ensures var r := TryPage(ix, b, t);
            r.Some? ==> && IndexOk(r.value) && |r.value.pages| == |ix.pages| && r.value == ix.(pages := r.value.pages)
                        && Live(r.value.pages) == Live(ix.pages) + multiset{t}
  {
    TakeAndAddOk(ix.words, ix.pages[b], t);
    var r := TakeAndAdd(ix.words, ix.pages[b], t);
    if r.Some? {
      LiveAdd(ix.pages, b, r.value, t);
      PagesOkReplace(ix, b, r.value);
    }
  }

  lemma OnNewPageOk(ix: Index, b: nat, t: BloomTuple)
    requires IndexOk(ix) && |t.sign| == ix.words && 1 <= b <= |ix.pages|
    requires b < |ix.pages| ==> Recyclable(ix.pages[b])
    ensures var r := OnNewPage(ix, b, t);
            IndexOk(r) && |r.pages| >= |ix.pages| && Live(r.pages) == Live(ix.pages) + multiset{t}
  {
    var p := DataPage([t], false, Lower(ix.words, 1));
    TakeAndAddOk(ix.words, NewPage, t);
    if b == |ix.pages| {
      LiveAppend(ix.pages, p);
      AppendOk(ix, p);
    } else {
      LiveAdd(ix.pages, b, p, t);
      PagesOkReplace(ix, b, p);
    }
  }

  lemma AppendOk(ix: Index, p: Page)
    requires IndexOk(ix) && !p.MetaPage? && PageOk(ix.words, p)
    ensures IndexOk(ix.(pages := ix.pages + [p]))
  {
    var r := ix.(pages := ix.pages + [p]);
    assert forall c: nat :: IsDataBlock(ix, c) ==> IsDataBlock(r, c) && r.pages[c] == ix.pages[c];
  }

  lemma VacuumPageOfOk(ix: Index, b: nat, dead: set<ItemPointer>)
    requires IndexOk(ix) && IsDataBlock(ix, b)
    ensures var r := VacuumPageOf(ix, b, dead);
            && IndexOk(r) && |r.pages| == |ix.pages|
            && Live(r.pages) + multiset(Drop(Tuples(ix.pages[b]), dead)) == Live(ix.pages)
  {
    var p := VacuumedPage(ix.words, ix.pages[b], dead);
    VacuumedPageShape(ix.words, ix.pages[b], dead);
    LiveDrop(ix.pages, b, p, dead);
    PagesOkReplace(ix, b, p);
  }

  // ---------- every step of every process keeps the invariant ----------

  /** The other processes do not notice a step of p: only the holder of the metapage lock may move the list. */
  ghost predicate Unnoticed(s: System, s': System, p: nat) {
    && s'.ix.words == s.ix.words && |s'.ix.pages| >= |s.ix.pages|
    && (forall q :: q != p ==> (q in s'.procs <==> q in s.procs))
    && (forall q :: q != p && q in s.procs && q in s'.procs ==> s'.procs[q] == s.procs[q])
    && (s.lock.None? || s.lock == Some(p)
        || (s'.lock == s.lock && s'.ix.nStart == s.ix.nStart && s'.ix.nEnd == s.ix.nEnd))
  }

  ghost predicate LockOk(s: System) {
    s.lock.Some? ==> s.lock.value in s.procs && s.procs[s.lock.value].InsertLoop?
  }

  lemma ConcludeInv(s: System, s': System, p: nat)
    requires Inv(s) && Unnoticed(s, s', p)
    requires IndexOk(s'.ix) && Balanced(s') && LockOk(s')
    requires p in s'.procs ==> ProcOk(s', p)
    ensures Inv(s')
  {
    forall q | q in s'.procs
      ensures ProcOk(s', q)
    {
      if q != p {
        assert ProcOk(s, q);
      }
    }
  }

  lemma InsertReturnsOk(s: System, p: nat, ix: Index)
    requires Inv(s) && p in s.procs && IsInsert(s.procs[p])
    requires IndexOk(ix) && ix.words == s.ix.words && |ix.pages| >= |s.ix.pages|
    requires s.lock == Some(p) || (ix.nStart == s.ix.nStart && ix.nEnd == s.ix.nEnd)
    requires Live(ix.pages) == Live(s.ix.pages) + multiset{s.procs[p].t}
    ensures Inv(InsertReturns(s, p, s.procs[p].t, ix))
  {
    var s' := InsertReturns(s, p, s.procs[p].t, ix);
    assert Balanced(s') by {
      assert (Live(s.ix.pages) + multiset{s.procs[p].t}) + s.removed
             == (Live(s.ix.pages) + s.removed) + multiset{s.procs[p].t};
    }
    assert s.lock.Some? && s.lock != Some(p) ==> s'.procs[s.lock.value] == s.procs[s.lock.value];
    assert ProcOk(s, p);
    ConcludeInv(s, s', p);
  }

  lemma VacuumPageBalanced(s: System, p: nat)
    requires Balanced(s) && IndexOk(s.ix) && CanVacuumPage(s, p) && IsDataBlock(s.ix, s.procs[p].blk)
    ensures Balanced(DoVacuumPage(s, p)) && IndexOk(DoVacuumPage(s, p).ix)
  {
    var b, dead := s.procs[p].blk, s.procs[p].dead;
    VacuumPageOfOk(s.ix, b, dead);
    var pages := VacuumPageOf(s.ix, b, dead).pages;
    var dropped := multiset(Drop(Tuples(s.ix.pages[b]), dead));
    assert Live(pages) + (s.removed + dropped) == (Live(pages) + dropped) + s.removed;
  }

  lemma VacuumPageProcOk(s: System, p: nat)
    requires Inv(s) && CanVacuumPage(s, p)
    ensures p in DoVacuumPage(s, p).procs && ProcOk(DoVacuumPage(s, p), p)
  {
    assert ProcOk(s, p);
  }

  lemma VacuumPageKeepsInv(s: System, p: nat)
    requires Inv(s) && CanVacuumPage(s, p)
    ensures Inv(DoVacuumPage(s, p))
  {
    assert ProcOk(s, p);
    VacuumPageBalanced(s, p);
    VacuumPageProcOk(s, p);
    ConcludeInv(s, DoVacuumPage(s, p), p);
  }

  lemma TryFastKeepsInv(s: System, p: nat)
    requires Inv(s) && CanTryFast(s, p)
    ensures Inv(DoTryFast(s, p))
  {
    assert ProcOk(s, p);
    TryPageOk(s.ix, s.procs[p].blk, s.procs[p].t);
    var r := TryPage(s.ix, s.procs[p].blk, s.procs[p].t);
    if r.Some? {
      InsertReturnsOk(s, p, r.value);
    } else {
      ConcludeInv(s, DoTryFast(s, p), p);
    }
  }

  lemma TryNextKeepsInv(s: System, p: nat)
    requires Inv(s) && CanTryNext(s, p)
    ensures Inv(DoTryNext(s, p))
  {
    assert ProcOk(s, p);
    TryPageOk(s.ix, s.ix.notFull[s.procs[p].at], s.procs[p].t);
    var r := TryListed(s.ix, s.procs[p].at, s.procs[p].t);
    if r.Some? {
      InsertReturnsOk(s, p, r.value);
    } else {
      ConcludeInv(s, DoTryNext(s, p), p);
    }
  }

  lemma TakeFreeKeepsInv(s: System, p: nat, b: nat)
    requires Inv(s) && CanTakeFree(s, p, b)
    ensures Inv(DoTakeFree(s, p, b))
  {
    assert ProcOk(s, p);
    OnNewPageOk(s.ix.(fsm := s.ix.fsm - {b}), b, s.procs[p].t);
    InsertReturnsOk(s, p, OnNewPage(s.ix.(fsm := s.ix.fsm - {b}), b, s.procs[p].t));
  }

  lemma ExtendKeepsInv(s: System, p: nat)
    requires Inv(s) && Exhausted(s, p)
    ensures Inv(DoExtend(s, p))
  {
    assert ProcOk(s, p);
    OnNewPageOk(s.ix, |s.ix.pages|, s.procs[p].t);
    InsertReturnsOk(s, p, OnNewPage(s.ix, |s.ix.pages|, s.procs[p].t));
  }

  lemma ExtendOnlyKeepsInv(s: System)
    requires Inv(s)
    ensures Inv(DoExtendOnly(s))
  {
    LiveAppend(s.ix.pages, NewPage);
    AppendOk(s.ix, NewPage);
    var s' := DoExtendOnly(s);
    forall q | q in s'.procs
      ensures ProcOk(s', q)
    {
      assert ProcOk(s, q);
    }
  }

  lemma MetaStepsKeepInv(s: System, p: nat)
    requires Inv(s)
    ensures CanReadMeta(s, p) ==> Inv(DoReadMeta(s, p))
    ensures CanLockMeta(s, p) ==> Inv(DoLockMeta(s, p))
  {
    if CanReadMeta(s, p) {
      assert ProcOk(s, p);
      ConcludeInv(s, DoReadMeta(s, p), p);
    }
    if CanLockMeta(s, p) {
      assert ProcOk(s, p);
      ConcludeInv(s, DoLockMeta(s, p), p);
    }
  }

  lemma VacuumFinishKeepsInv(s: System, p: nat)
    requires Inv(s) && CanVacuumFinish(s, p)
    ensures Inv(DoVacuumFinish(s, p))
  {
    assert ProcOk(s, p);
    var s' := DoVacuumFinish(s, p);
    var list := s.procs[p].list;
    assert forall i :: 0 <= i < |list| ==> s'.ix.notFull[i] == list[i] && IsDataBlock(s.ix, list[i]);
    ConcludeInv(s, s', p);
  }

  lemma FailKeepsInv(s: System, p: nat)
    requires Inv(s) && p in s.procs
    ensures Inv(DoFail(s, p))
  {
    assert ProcOk(s, p);
    ConcludeInv(s, DoFail(s, p), p);
  }

  lemma CleanupIndexOk(ix: Index, b: nat)
    requires IndexOk(ix) && IsDataBlock(ix, b)
    ensures IndexOk(CleanupPageOf(ix, b)) && CleanupPageOf(ix, b).pages == ix.pages
  {
    var r := CleanupPageOf(ix, b);
    forall x: nat | IsDataBlock(r, x)
      ensures !r.pages[x].MetaPage? && PageOk(r.words, r.pages[x])
    {
      assert IsDataBlock(ix, x);
    }
  }

  lemma CleanupPageKeepsInv(s: System, p: nat)
    requires Inv(s) && CanCleanupPage(s, p)
    ensures Inv(DoCleanupPage(s, p))
  {
    assert ProcOk(s, p);
    CleanupIndexOk(s.ix, s.procs[p].blk);
    ConcludeInv(s, DoCleanupPage(s, p), p);
  }

  lemma ScanPageKeepsInv(s: System, p: nat)
    requires Inv(s) && CanScanPage(s, p)
    ensures Inv(DoScanPage(s, p))
  {
    assert ProcOk(s, p);
    ConcludeInv(s, DoScanPage(s, p), p);
  }

  predicate Begins(e: Event) {
    e.BeginInsert? || e.BeginBulkDelete? || e.BeginCleanup? || e.BeginScan? || e.RejectFree?
  }

  lemma BeginKeepsInv(s: System, e: Event)
    requires Inv(s) && Enabled(s, e) && Begins(e)
    ensures Inv(Step(s, e))
  {
    if e.RejectFree? {
      assert ProcOk(s, e.p);
    }
    ConcludeInv(s, Step(s, e), e.p);
  }

  /** Every step of every process keeps the invariant, whatever the other processes are in the middle of. */
  lemma StepKeepsInv(s: System, e: Event)
    requires Inv(s) && Enabled(s, e)
    ensures Inv(Step(s, e))
  {
    match e
    case TryFast(p) => TryFastKeepsInv(s, p);
    case TryNext(p) => TryNextKeepsInv(s, p);
    case TakeFree(p, b) => TakeFreeKeepsInv(s, p, b);
    case Extend(p) => ExtendKeepsInv(s, p);
    case ExtendOnly => ExtendOnlyKeepsInv(s);
    case VacuumPage(p) => VacuumPageKeepsInv(s, p);
    case VacuumFinish(p) => VacuumFinishKeepsInv(s, p);
    case ReadMeta(p) => MetaStepsKeepInv(s, p);
    case LockMeta(p) => MetaStepsKeepInv(s, p);
    case Fail(p) => FailKeepsInv(s, p);
    case CleanupPage(p) => CleanupPageKeepsInv(s, p);
    case ScanPage(p) => ScanPageKeepsInv(s, p);
    case _ => BeginKeepsInv(s, e);
  }
}
