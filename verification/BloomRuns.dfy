/** Properties of whole runs of the bloom index machine: conservation of tuples, complete and sound
    scans under concurrent inserts and vacuums, and completeness of a bulk delete pass. */
module BloomRuns {
  import opened Basics
  import opened BloomSignature
  import opened BloomPage
  import opened BloomMachine

  ghost predicate ValidRun(s: System, es: seq<Event>)
    decreases |es|
  {
    es == [] || (Enabled(s, es[0]) && ValidRun(Step(s, es[0]), es[1..]))
  }

  ghost function Final(s: System, es: seq<Event>): System
    requires ValidRun(s, es)
    decreases |es|
  {
    if es == [] then s else Final(Step(s, es[0]), es[1..])
  }

  lemma {:induction false} RunKeepsInv(s: System, es: seq<Event>)
    requires Inv(s) && ValidRun(s, es)
    ensures Inv(Final(s, es))
    decreases |es|
  {
    if es != [] {
      StepKeepsInv(s, es[0]);
      RunKeepsInv(Step(s, es[0]), es[1..]);
    }
  }

  // ---------- what one step can do to the tuples of a page ----------

  /** The process an event belongs to is an insertion carrying t. */
  ghost predicate Inserts(s: System, e: Event, t: BloomTuple) {
    && (e.TryFast? || e.TryNext? || e.TakeFree? || e.Extend?)
    && e.p in s.procs && IsInsert(s.procs[e.p]) && s.procs[e.p].t == t
  }

  ghost predicate TupleOn(ix: Index, b: nat, t: BloomTuple) {
    IsDataBlock(ix, b) && t in Tuples(ix.pages[b])
  }

  /** A tuple leaves its page only by being vacuumed, and comes to a page only by being inserted. */
  ghost predicate PagesFollow(s: System, e: Event, s': System) {
    && |s'.ix.pages| >= |s.ix.pages| && s.removed <= s'.removed
    && (forall b: nat, t :: TupleOn(s.ix, b, t) ==> TupleOn(s'.ix, b, t) || s'.removed[t] > s.removed[t])
    && (forall b: nat, t :: TupleOn(s'.ix, b, t) ==> TupleOn(s.ix, b, t) || Inserts(s, e, t))
  }

  lemma TryPageFollows(s: System, e: Event, b: nat, t: BloomTuple, s': System)
    requires Inv(s) && IsDataBlock(s.ix, b) && |t.sign| == s.ix.words && Inserts(s, e, t)
    requires TryPage(s.ix, b, t).Some? && s'.ix.pages == TryPage(s.ix, b, t).value.pages && s'.removed == s.removed
    ensures PagesFollow(s, e, s')
  {
    TakeAndAddOk(s.ix.words, s.ix.pages[b], t);
    assert Tuples(s'.ix.pages[b]) == Tuples(s.ix.pages[b]) + [t];
  }

  lemma OnNewPageFollows(s: System, e: Event, b: nat, t: BloomTuple, s': System)
    requires Inv(s) && 1 <= b <= |s.ix.pages| && Inserts(s, e, t)
    requires b < |s.ix.pages| ==> Recyclable(s.ix.pages[b])
    requires s'.ix.pages == OnNewPage(s.ix, b, t).pages && s'.removed == s.removed
    ensures PagesFollow(s, e, s')
  {
    assert Tuples(s'.ix.pages[b]) == [t];
    assert b < |s.ix.pages| ==> Tuples(s.ix.pages[b]) == [];
  }

  lemma VacuumPageFollows(s: System, p: nat)
    requires Inv(s) && CanVacuumPage(s, p)
    ensures PagesFollow(s, VacuumPage(p), DoVacuumPage(s, p))
  {
    var b, dead := s.procs[p].blk, s.procs[p].dead;
    assert ProcOk(s, p);
    var s' := DoVacuumPage(s, p);
    VacuumedPageShape(s.ix.words, s.ix.pages[b], dead);
    var tuples := Tuples(s.ix.pages[b]);
    forall t
      ensures t in Keep(tuples, dead) <==> t in tuples && t.heapPtr !in dead
      ensures t in Drop(tuples, dead) <==> t in tuples && t.heapPtr in dead
    {
      KeepIn(tuples, dead, t);
      DropIn(tuples, dead, t);
    }
    forall t | t in tuples && t.heapPtr in dead
      ensures s'.removed[t] > s.removed[t]
    {
      assert t in multiset(Drop(tuples, dead));
    }
  }

  /** The other steps leave all pages as they are, or add a new one. */
  lemma OtherStepKeepsPages(s: System, e: Event)
    requires Enabled(s, e) && !e.TryFast? && !e.TryNext? && !e.TakeFree? && !e.Extend? && !e.VacuumPage?
    ensures Step(s, e).removed == s.removed
    ensures Step(s, e).ix.pages == s.ix.pages || Step(s, e).ix.pages == s.ix.pages + [NewPage]
  {
  }

  lemma SamePagesFollow(s: System, e: Event, s': System)
    requires s'.removed == s.removed && (s'.ix.pages == s.ix.pages || s'.ix.pages == s.ix.pages + [NewPage])
    ensures PagesFollow(s, e, s')
  {
  }

  lemma TryFollows(s: System, e: Event, p: nat)
    requires Inv(s) && Enabled(s, e) && (e == TryFast(p) || e == TryNext(p))
    ensures PagesFollow(s, e, Step(s, e))
  {
    assert ProcOk(s, p);
    var b, t := if e.TryFast? then s.procs[p].blk else s.ix.notFull[s.procs[p].at], s.procs[p].t;
    if TryPage(s.ix, b, t).Some? {
      TryPageFollows(s, e, b, t, Step(s, e));
    }
  }

  lemma NewPageFollows(s: System, e: Event, p: nat)
    requires Inv(s) && Enabled(s, e) && (e == Extend(p) || (e.TakeFree? && e.p == p))
    ensures PagesFollow(s, e, Step(s, e))
  {
    assert ProcOk(s, p);
    OnNewPageFollows(s, e, if e.Extend? then |s.ix.pages| else e.b, s.procs[p].t, Step(s, e));
  }

  lemma StepFollows(s: System, e: Event)
    requires Inv(s) && Enabled(s, e)
    ensures PagesFollow(s, e, Step(s, e))
  {
    match e
    case TryFast(p) => TryFollows(s, e, p);
    case TryNext(p) => TryFollows(s, e, p);
    case TakeFree(p, _) => NewPageFollows(s, e, p);
    case Extend(p) => NewPageFollows(s, e, p);
    case VacuumPage(p) => VacuumPageFollows(s, p);
    case _ =>
      OtherStepKeepsPages(s, e);
      SamePagesFollow(s, e, Step(s, e));
  }

  ghost predicate ByProcess(e: Event, q: nat) {
    !e.ExtendOnly? && e.p == q
  }

  lemma OthersUntouched(s: System, e: Event, q: nat)
    requires Enabled(s, e) && !ByProcess(e, q)
    ensures q in Step(s, e).procs <==> q in s.procs
    ensures q in s.procs ==> Step(s, e).procs[q] == s.procs[q]
  {
  }

  // ---------- the metapage lock ----------

  lemma OthersKeepLock(s: System, e: Event, p: nat)
    requires Inv(s) && Enabled(s, e) && s.lock == Some(p) && !ByProcess(e, p)
    ensures Step(s, e).lock == Some(p) && s.inserted <= Step(s, e).inserted
  {
    if !e.ExtendOnly? && e.p in s.procs {
      assert ProcOk(s, e.p);
    }
  }

  /** The list and the lock are the holder's alone. */
  lemma OthersKeepList(s: System, e: Event, p: nat)
    requires Inv(s) && Enabled(s, e) && s.lock == Some(p) && !ByProcess(e, p)
    ensures var s' := Step(s, e);
            && s'.lock == Some(p) && p in s'.procs && s'.procs[p] == s.procs[p] && s.inserted <= s'.inserted
            && s'.ix.nStart == s.ix.nStart && s'.ix.nEnd == s.ix.nEnd && s'.ix.notFull == s.ix.notFull
  {
    OthersUntouched(s, e, p);
    OthersKeepLock(s, e, p);
    if !e.ExtendOnly? && e.p in s.procs {
      assert ProcOk(s, e.p);
    }
  }

  /** One's own turn returns, or goes on to the next listed page. */
  lemma OwnTurn(s: System, e: Event, p: nat)
    requires Inv(s) && Enabled(s, e) && s.lock == Some(p) && ByProcess(e, p) && e != Fail(p)
    ensures p in s.procs && s.procs[p].InsertLoop?
    ensures var s' := Step(s, e);
            || s' == InsertReturns(s, p, s.procs[p].t, s'.ix)
            || (&& s'.lock == s.lock && s'.inserted == s.inserted && s'.ix == s.ix.(fsm := s'.ix.fsm) && p in s'.procs
                && s'.procs[p] == InsertLoop(s.procs[p].t, s.procs[p].at + if e == TryNext(p) then 1 else 0))
  {
    assert ProcOk(s, p);
  }

  /** While an insertion holds the metapage lock nobody else moves the page list, so each of its own turns
      either returns or leaves one listed page fewer to try. */
  lemma LockedLoopProgresses(s: System, e: Event, p: nat)
    requires Inv(s) && Enabled(s, e) && s.lock == Some(p) && e != Fail(p)
    ensures var s' := Step(s, e);
            || (p in s'.procs && s'.procs[p] == InsertDone(s.procs[p].t)
                && s'.inserted == s.inserted + multiset{s.procs[p].t})
            || (&& s'.lock == Some(p) && p in s'.procs && s'.procs[p].InsertLoop?
                && s'.inserted[s.procs[p].t] >= s.inserted[s.procs[p].t]
                && s'.ix.nEnd == s.ix.nEnd && s'.ix.notFull == s.ix.notFull && s'.ix.nStart == s.ix.nStart
                && s'.ix.nEnd - s'.procs[p].at == s.ix.nEnd - s.procs[p].at - (if e == TryNext(p) then 1 else 0))
  {
    assert ProcOk(s, p);
    if ByProcess(e, p) {
      OwnTurn(s, e, p);
    } else {
      OthersKeepList(s, e, p);
    }
  }

  // ---------- scans ----------

  /** What process p, a scan begun in state s0, owes to the tuples that were there when it began. */
  ghost predicate ScanOwes(s0: System, s: System, p: nat, query: Signature) {
    && p in s.procs && s.procs[p].Scan? && s.procs[p].query == query && s.procs[p].npages == |s0.ix.pages|
    && s0.removed <= s.removed && |s0.ix.pages| <= |s.ix.pages|
    && forall b: nat, t :: TupleOn(s0.ix, b, t) && s.removed[t] == s0.removed[t] ==>
         if b < s.procs[p].blk then CoversSign(t, query) ==> t.heapPtr in s.procs[p].tbm
         else TupleOn(s.ix, b, t)
  }

  ghost predicate CoversSign(t: BloomTuple, query: Signature) {
    |t.sign| == |query| && CoversWords(t.sign, query)
  }

  lemma MatchingContains(tuples: seq<BloomTuple>, query: Signature, t: BloomTuple)
    requires t in tuples && CoversSign(t, query)
    ensures t.heapPtr in Matching(tuples, query)
  {
    var i :| 0 <= i < |tuples| && tuples[i] == t;
  }

  /** A scan advances by its own page reads only. */
  lemma ScanAfter(s: System, e: Event, p: nat)
    requires Enabled(s, e) && e != Fail(p) && p in s.procs && s.procs[p].Scan?
    ensures p in Step(s, e).procs
    ensures Step(s, e).procs[p] == if e == ScanPage(p) then DoScanPage(s, p).procs[p] else s.procs[p]
  {
    if !ByProcess(e, p) {
      OthersUntouched(s, e, p);
    }
  }

  lemma ScanOwesStep(s0: System, s: System, e: Event, p: nat, query: Signature)
    requires Inv(s) && Enabled(s, e) && e != Fail(p) && ScanOwes(s0, s, p, query)
    ensures ScanOwes(s0, Step(s, e), p, query)
  {
    StepFollows(s, e);
    ScanAfter(s, e, p);
    var s' := Step(s, e);
    forall b: nat, t | TupleOn(s0.ix, b, t) && s'.removed[t] == s0.removed[t]
      ensures if b < s'.procs[p].blk then CoversSign(t, query) ==> t.heapPtr in s'.procs[p].tbm
              else TupleOn(s'.ix, b, t)
    {
      assert s0.removed[t] <= s.removed[t] <= s'.removed[t];
      if e == ScanPage(p) && b == s.procs[p].blk && CoversSign(t, query) {
        assert TupleOn(s.ix, b, t);
        MatchingContains(Tuples(s.ix.pages[b]), query, t);
      }
    }
  }

  lemma {:induction false} ScanOwesRun(s0: System, s: System, es: seq<Event>, p: nat, query: Signature)
    requires Inv(s) && ValidRun(s, es) && Fail(p) !in es && ScanOwes(s0, s, p, query)
    ensures ScanOwes(s0, Final(s, es), p, query)
    decreases |es|
  {
    if es != [] {
      ScanOwesStep(s0, s, es[0], p, query);
      StepKeepsInv(s, es[0]);
      ScanOwesRun(s0, Step(s, es[0]), es[1..], p, query);
    }
  }

  ghost predicate ScanFinished(s: System, p: nat) {
    p in s.procs && s.procs[p].Scan? && s.procs[p].blk >= s.procs[p].npages
  }

  /** A scan reads pages one at a time while any other steps run in between.  When it is finished, its
      bitmap holds every tuple that was on a page when it began, was not vacuumed since, and covers the
      search signature. */
  lemma ScanIsComplete(s0: System, p: nat, query: Signature, es: seq<Event>, b: nat, t: BloomTuple)
    requires Inv(s0) && Enabled(s0, BeginScan(p, query)) && Fail(p) !in es
    requires ValidRun(Step(s0, BeginScan(p, query)), es)
    requires var s1 := Final(Step(s0, BeginScan(p, query)), es); ScanFinished(s1, p) && s1.removed[t] == s0.removed[t]
    requires TupleOn(s0.ix, b, t) && Bits(query) <= Bits(t.sign)
    ensures t.heapPtr in Final(Step(s0, BeginScan(p, query)), es).procs[p].tbm
  {
    var s := Step(s0, BeginScan(p, query));
    StepKeepsInv(s0, BeginScan(p, query));
    ScanOwesRun(s0, s, es, p, query);
    assert PageOk(s0.ix.words, s0.ix.pages[b]);
    CoversIsInclusion(t.sign, query);
  }

  /** End to end: a row that was in the index when the scan began, was not vacuumed since, and satisfies
      every scan key is in the bitmap. */
  lemma ScanFindsMatchingRow<V(!new)>(s0: System, p: nat, es: seq<Event>, b: nat, t: BloomTuple, query: Signature,
                                      row: seq<Option<V>>, keys: seq<ScanKey<V>>, hash: (nat, V) -> uint32,
                                      eq: (nat, V, V) -> bool, opts: Options)
    requires Inv(s0) && Enabled(s0, BeginScan(p, query)) && Fail(p) !in es
    requires ValidRun(Step(s0, BeginScan(p, query)), es)
    requires var s1 := Final(Step(s0, BeginScan(p, query)), es); ScanFinished(s1, p) && s1.removed[t] == s0.removed[t]
    requires TupleOn(s0.ix, b, t)
    requires opts.Valid() && |row| == |opts.bitSize| && KeysSignable(keys, hash, opts)
    requires RowMatches(row, keys, eq) && HashRespects(hash, eq)
    requires Bits(t.sign) == RowBits(row, hash, opts, |row|) && Bits(query) == KeyBits(keys, hash, opts, |keys|)
    ensures t.heapPtr in Final(Step(s0, BeginScan(p, query)), es).procs[p].tbm
  {
    MatchingRowCovers(row, keys, hash, eq, opts, |keys|);
    ScanIsComplete(s0, p, query, es, b, t);
  }

  /** Everything in the bitmap belongs to a tuple that was really inserted and covers the signature. */
  ghost predicate ScanSound(s: System, p: nat) {
    p in s.procs && s.procs[p].Scan? ==>
      forall h :: h in s.procs[p].tbm ==>
        exists t :: t in s.inserted && t.heapPtr == h && CoversSign(t, s.procs[p].query)
  }

  lemma InsertedGrows(s: System, e: Event)
    requires Enabled(s, e)
    ensures s.inserted <= Step(s, e).inserted
  {
  }

  lemma ScannedTupleInserted(s: System, p: nat, h: ItemPointer) returns (t: BloomTuple)
    requires Inv(s) && CanScanPage(s, p) && h in Matching(Tuples(s.ix.pages[s.procs[p].blk]), s.procs[p].query)
    ensures t in s.inserted && t.heapPtr == h && CoversSign(t, s.procs[p].query)
  {
    var tuples := Tuples(s.ix.pages[s.procs[p].blk]);
    var i :| 0 <= i < |tuples| && CoversSign(tuples[i], s.procs[p].query) && tuples[i].heapPtr == h;
    t := tuples[i];
    LiveContains(s.ix.pages, s.procs[p].blk, t);
    assert t in Live(s.ix.pages) + s.removed;
  }

  lemma ScanSoundStep(s: System, e: Event, p: nat)
    requires Inv(s) && Enabled(s, e) && ScanSound(s, p)
    ensures ScanSound(Step(s, e), p)
  {
    var s' := Step(s, e);
    InsertedGrows(s, e);
    if !ByProcess(e, p) {
      OthersUntouched(s, e, p);
    } else if e.ScanPage? {
      forall h | h in s'.procs[p].tbm && h !in s.procs[p].tbm
        ensures exists t :: t in s'.inserted && t.heapPtr == h && CoversSign(t, s.procs[p].query)
      {
        var t := ScannedTupleInserted(s, p, h);
      }
    }
  }

  lemma {:induction false} ScanIsSound(s: System, es: seq<Event>, p: nat)
    requires Inv(s) && ValidRun(s, es) && ScanSound(s, p)
    ensures ScanSound(Final(s, es), p)
    decreases |es|
  {
    if es != [] {
      ScanSoundStep(s, es[0], p);
      StepKeepsInv(s, es[0]);
      ScanIsSound(Step(s, es[0]), es[1..], p);
    }
  }

  // ---------- bulk delete ----------

  /** No insertion under way carries a heap pointer the vacuum is about to free. */
  ghost predicate NoDeadInsert(s: System, dead: set<ItemPointer>) {
    forall q :: q in s.procs && IsInsert(s.procs[q]) ==> s.procs[q].t.heapPtr !in dead
  }

  ghost predicate NoDeadBegins(es: seq<Event>, dead: set<ItemPointer>) {
    forall i :: 0 <= i < |es| && es[i].BeginInsert? ==> es[i].t.heapPtr !in dead
  }

  /** Pages already visited, and pages added since, hold no dead pointer. */
  ghost predicate Swept(s: System, p: nat, dead: set<ItemPointer>) {
    && p in s.procs && NoDeadInsert(s, dead)
    && match s.procs[p]
       case BulkDelete(d, npages, blk, _) =>
         d == dead && forall b: nat, t :: TupleOn(s.ix, b, t) && (b < blk || b >= npages) ==> t.heapPtr !in dead
       case BulkDone(d) => d == dead && forall b: nat, t :: TupleOn(s.ix, b, t) ==> t.heapPtr !in dead
       case _ => false
  }

  lemma NoDeadInsertStep(s: System, e: Event, dead: set<ItemPointer>)
    requires Inv(s) && Enabled(s, e) && NoDeadInsert(s, dead) && (e.BeginInsert? ==> e.t.heapPtr !in dead)
    ensures NoDeadInsert(Step(s, e), dead)
  {
    var s' := Step(s, e);
    forall q | q in s'.procs && IsInsert(s'.procs[q])
      ensures s'.procs[q].t.heapPtr !in dead
    {
      if !ByProcess(e, q) {
        OthersUntouched(s, e, q);
      }
    }
  }

  lemma SweptPageStep(s: System, p: nat, dead: set<ItemPointer>)
    requires Inv(s) && CanVacuumPage(s, p) && Swept(s, p, dead)
    ensures Swept(DoVacuumPage(s, p), p, dead)
  {
    NoDeadInsertStep(s, VacuumPage(p), dead);
    VacuumPageFollows(s, p);
    var s' := DoVacuumPage(s, p);
    var b := s.procs[p].blk;
    assert ProcOk(s, p);
    VacuumedPageShape(s.ix.words, s.ix.pages[b], dead);
    forall t | TupleOn(s'.ix, b, t)
      ensures t.heapPtr !in dead
    {
      KeepIn(Tuples(s.ix.pages[b]), dead, t);
    }
  }

  lemma SweptByOthers(s: System, e: Event, p: nat, dead: set<ItemPointer>)
    requires Inv(s) && Enabled(s, e) && !ByProcess(e, p) && Swept(s, p, dead)
    requires e.BeginInsert? ==> e.t.heapPtr !in dead
    ensures Swept(Step(s, e), p, dead)
  {
    NoDeadInsertStep(s, e, dead);
    StepFollows(s, e);
    OthersUntouched(s, e, p);
  }

  lemma SweptStep(s: System, e: Event, p: nat, dead: set<ItemPointer>)
    requires Inv(s) && Enabled(s, e) && e != Fail(p) && Swept(s, p, dead)
    requires e.BeginInsert? ==> e.t.heapPtr !in dead
    ensures Swept(Step(s, e), p, dead)
  {
    if !ByProcess(e, p) {
      SweptByOthers(s, e, p, dead);
    } else if e == VacuumPage(p) {
      SweptPageStep(s, p, dead);
    } else {
      NoDeadInsertStep(s, e, dead);
      StepFollows(s, e);
    }
  }

  lemma {:induction false} SweptRun(s: System, es: seq<Event>, p: nat, dead: set<ItemPointer>)
    requires Inv(s) && ValidRun(s, es) && Fail(p) !in es && Swept(s, p, dead) && NoDeadBegins(es, dead)
    ensures Swept(Final(s, es), p, dead)
    decreases |es|
  {
    if es != [] {
      SweptStep(s, es[0], p, dead);
      StepKeepsInv(s, es[0]);
      SweptRun(Step(s, es[0]), es[1..], p, dead);
    }
  }

  /** When a bulk delete pass is done, no page holds a pointer it was told to delete, although inserts kept
      filling, recycling and adding pages meanwhile: it may ignore pages added after it began because
      nothing inserts a pointer that is being vacuumed. */
  lemma BulkDeleteIsComplete(s0: System, p: nat, dead: set<ItemPointer>, es: seq<Event>, b: nat, t: BloomTuple)
    requires Inv(s0) && Enabled(s0, BeginBulkDelete(p, dead)) && Fail(p) !in es
    requires ValidRun(Step(s0, BeginBulkDelete(p, dead)), es)
    requires NoDeadInsert(s0, dead) && NoDeadBegins(es, dead)
    requires var s1 := Final(Step(s0, BeginBulkDelete(p, dead)), es);
             p in s1.procs && s1.procs[p].BulkDone? && TupleOn(s1.ix, b, t)
    ensures t.heapPtr !in dead
  {
    StepKeepsInv(s0, BeginBulkDelete(p, dead));
    SweptRun(Step(s0, BeginBulkDelete(p, dead)), es, p, dead);
  }

  /** A tuple whose pointer no vacuum claims stays where it is for ever. */
  lemma {:induction false} UnclaimedTupleStays(s: System, es: seq<Event>, b: nat, t: BloomTuple)
    requires Inv(s) && ValidRun(s, es) && TupleOn(s.ix, b, t) && Final(s, es).removed[t] == s.removed[t]
    ensures TupleOn(Final(s, es).ix, b, t)
    decreases |es|
  {
    if es != [] {
      StepFollows(s, es[0]);
      StepKeepsInv(s, es[0]);
      RemovedGrows(Step(s, es[0]), es[1..]);
      UnclaimedTupleStays(Step(s, es[0]), es[1..], b, t);
    }
  }

  lemma {:induction false} RemovedGrows(s: System, es: seq<Event>)
    requires Inv(s) && ValidRun(s, es)
    ensures s.removed <= Final(s, es).removed
    decreases |es|
  {
    if es != [] {
      StepFollows(s, es[0]);
      StepKeepsInv(s, es[0]);
      RemovedGrows(Step(s, es[0]), es[1..]);
    }
  }
}
