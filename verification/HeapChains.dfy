/** Update chains on a heap page (the three loops over line pointers in verify_heapam): who follows whom, that no two
    line pointers lead to the same tuple, and that a chain does not start with a heap-only tuple. */
module HeapChains {
  import opened Basics

  datatype Status = Committed | InProgress | Aborted

  /** A tuple header. `status` is what check_tuple finds out about xmin, None if it gives up; `updateXid` is 0 if the
      tuple has not been updated. */
  datatype Tuple = Tuple(ctidBlock: nat, ctidOffset: nat, xmin: nat, updateXid: nat, hotUpdated: bool, heapOnly: bool,
                         status: Option<Status>)

  datatype LinePointer = Unused | Dead | Redirect(target: nat) | Normal(off: nat, len: nat, tuple: Tuple)

  /** Line pointers have offsets from 1; `running` are the transactions in progress when that is looked up again. */
  datatype Page = Page(block: nat, items: seq<LinePointer>, running: set<nat>)

  datatype Report =
    | BadRedirect(offset: nat, target: nat)
    | BadLinePointer(offset: nat)
    | RedirectToNonHeapOnly(offset: nat, target: nat)
    | Intersection(offset: nat, target: nat, other: nat)
    | NonHotMadeHeapOnly(offset: nat, target: nat)
    | HotMadeNonHeapOnly(offset: nat, target: nat)
    | RunningMadeCommitted(offset: nat, target: nat)
    | AbortedMadeOther(offset: nat, target: nat)
    | RootIsHeapOnly(offset: nat)

  const HEADER_SIZE: nat := 24   // MAXALIGN(SizeofHeapTupleHeader)
  const BLCKSZ: nat := 8192

  predicate InPage(p: Page, o: nat) {
    1 <= o <= |p.items|
  }

  function At(p: Page, o: nat): LinePointer
    requires InPage(p, o)
  {
    p.items[o - 1]
  }

  // ---------- first loop: line pointers ----------

  function PointerReports(p: Page, o: nat): seq<Report>
    requires InPage(p, o)
  {
    match At(p, o)
    case Redirect(t) => if InPage(p, t) && At(p, t).Normal? then [] else [BadRedirect(o, t)]
    case Normal(off, len, _) =>
      if off % 8 != 0 || len < HEADER_SIZE || off + len > BLCKSZ then [BadLinePointer(o)] else []
    case _ => []
  }

  predicate LpValid(p: Page, o: nat)
    requires InPage(p, o)
  {
    (At(p, o).Redirect? || At(p, o).Normal?) && PointerReports(p, o) == []
  }

  /** The offset a line pointer leads to, 0 if none. */
  function Successor(p: Page, o: nat): (n: nat)
    requires InPage(p, o)
    ensures n != 0 ==> InPage(p, n) && LpValid(p, o)
  {
    if !LpValid(p, o) then 0
    else match At(p, o)
      case Redirect(t) => t
      case Normal(_, _, tup) =>
        if tup.ctidBlock == p.block && tup.ctidOffset != o && InPage(p, tup.ctidOffset) then tup.ctidOffset else 0
  }

  function StatusOf(p: Page, o: nat): Option<Status>
    requires InPage(p, o)
  {
    if LpValid(p, o) && At(p, o).Normal? then At(p, o).tuple.status else None
  }

  // ---------- second loop: links ----------

  /** Line pointer i leads to tuple n as part of an update chain. */
  predicate Links(p: Page, i: nat, n: nat)
    requires InPage(p, i)
  {
    && n != 0 && Successor(p, i) == n && LpValid(p, n)
    && (At(p, i).Redirect? ||
        (At(p, n).Normal? && At(p, i).tuple.updateXid != 0 && At(p, i).tuple.updateXid == At(p, n).tuple.xmin))
  }

  /** The least offset below k that links to n, 0 if there is none. */
  function Predecessor(p: Page, n: nat, k: nat): nat
    requires k <= |p.items| + 1
  {
    if k <= 1 then 0
    else
      var before := Predecessor(p, n, k - 1);
      if before != 0 then before else if Links(p, k - 1, n) then k - 1 else 0
  }

  function MarkReports(p: Page, i: nat, n: nat): seq<Report>
    requires InPage(p, i) && InPage(p, n) && At(p, i).Normal? && At(p, n).Normal?
  {
    var hot, heapOnly := At(p, i).tuple.hotUpdated, At(p, n).tuple.heapOnly;
    (if !hot && heapOnly then [NonHotMadeHeapOnly(i, n)] else [])
    + (if hot && !heapOnly then [HotMadeNonHeapOnly(i, n)] else [])
  }

  function StatusReports(p: Page, i: nat, n: nat): seq<Report>
    requires InPage(p, i) && InPage(p, n) && At(p, i).Normal? && At(p, n).Normal?
  {
    var mine, next := StatusOf(p, i), StatusOf(p, n);
    (if mine == Some(InProgress) && next == Some(Committed) && At(p, i).tuple.xmin in p.running
     then [RunningMadeCommitted(i, n)] else [])
    + (if mine == Some(Aborted) && (next == Some(InProgress) || next == Some(Committed)) then [AbortedMadeOther(i, n)]
       else [])
  }

  /** What the turn for offset i reports, when `other` links to the same tuple already (0 if nothing does). */
  function LinkReports(p: Page, i: nat, other: nat): seq<Report>
    requires InPage(p, i)
  {
    var n := Successor(p, i);
    if n == 0 || !LpValid(p, n) then []
    else if At(p, i).Redirect? then
      (if At(p, n).tuple.heapOnly then [] else [RedirectToNonHeapOnly(i, n)])
      + (if other != 0 then [Intersection(i, n, other)] else [])
    else if !Links(p, i, n) then []
    else if other != 0 then [Intersection(i, n, other)]
    else MarkReports(p, i, n) + StatusReports(p, i, n)
  }

  // ---------- third loop: roots ----------

  predicate KnownAlive(p: Page, o: nat)
    requires InPage(p, o)
  {
    StatusOf(p, o) == Some(Committed) || StatusOf(p, o) == Some(InProgress)
  }

  function RootReports(p: Page, o: nat): seq<Report>
    requires InPage(p, o)
  {
    if KnownAlive(p, o) && Predecessor(p, o, |p.items| + 1) == 0 && At(p, o).tuple.heapOnly then [RootIsHeapOnly(o)]
    else []
  }

  // ---------- all reports of a page ----------

  function PointersUpTo(p: Page, k: nat): seq<Report>
    requires k <= |p.items|
  {
    if k == 0 then [] else PointersUpTo(p, k - 1) + PointerReports(p, k)
  }

  /** The turn of the second loop for offset i. */
  function TurnReports(p: Page, i: nat): seq<Report>
    requires InPage(p, i)
  {
    LinkReports(p, i, Predecessor(p, Successor(p, i), i))
  }

  function LinksUpTo(p: Page, k: nat): seq<Report>
    requires k <= |p.items|
  {
    if k == 0 then [] else LinksUpTo(p, k - 1) + TurnReports(p, k)
  }

  function RootsUpTo(p: Page, k: nat): seq<Report>
    requires k <= |p.items|
  {
    if k == 0 then [] else RootsUpTo(p, k - 1) + RootReports(p, k)
  }

  // ---------- the arrays ----------

  /** What the first loop finds out about the offsets below k. */
  ghost predicate Found(p: Page, succ: seq<nat>, valid: seq<bool>, status: seq<Option<Status>>, k: nat) {
    && |succ| == |valid| == |status| == |p.items| + 1 && k <= |p.items| + 1
    && forall o :: 1 <= o < k ==> succ[o] == Successor(p, o) && valid[o] == LpValid(p, o) && status[o] == StatusOf(p, o)
  }

  /** The predecessors as of the turn for offset k. */
  ghost predicate Preds(p: Page, pred: seq<nat>, k: nat) {
    |pred| == |p.items| + 1 && k <= |p.items| + 1 && forall n :: 0 <= n < |pred| ==> pred[n] == Predecessor(p, n, k)
  }

  ghost function PredArrays(p: Page, k: nat): iset<seq<nat>> {
    iset pred: seq<nat> | Preds(p, pred, k)
  }

  ghost function FoundArrays(p: Page): iset<(seq<nat>, seq<bool>, seq<Option<Status>>)> {
    iset succ: seq<nat>, valid: seq<bool>, status: seq<Option<Status>> |
      Found(p, succ, valid, status, |p.items| + 1) :: (succ, valid, status)
  }

  /** The link of offset i is recorded unless its target has a predecessor already. */
  predicate Records(p: Page, i: nat)
    requires InPage(p, i)
  {
    Links(p, i, Successor(p, i)) && Predecessor(p, Successor(p, i), i) == 0
  }

  lemma PredsNext(p: Page, pred: seq<nat>, i: nat)
    requires Preds(p, pred, i) && InPage(p, i)
    ensures Preds(p, if Records(p, i) then pred[Successor(p, i) := i] else pred, i + 1)
  {
    var pred' := if Records(p, i) then pred[Successor(p, i) := i] else pred;
    forall n | 0 <= n < |pred'|
      ensures pred'[n] == Predecessor(p, n, i + 1)
    {
      PredecessorNext(p, n, i);
      assert pred[n] == Predecessor(p, n, i);
    }
  }

  lemma PredecessorNext(p: Page, n: nat, i: nat)
    requires InPage(p, i)
    ensures Predecessor(p, n, i + 1) == if Records(p, i) && n == Successor(p, i) then i else Predecessor(p, n, i)
  {
  }

  /** The arrays of one page, and the three loops that fill and read them. */
  class ChainCheck {
    const page: Page
    const successor: array<nat>
    const predecessor: array<nat>
    const lpValid: array<bool>
    const status: array<Option<Status>>
    var reports: seq<Report>

    ghost predicate Allocated() {
      var n := |page.items| + 1;
      && successor.Length == n && predecessor.Length == n && lpValid.Length == n && status.Length == n
      && successor != predecessor
    }

    ghost predicate FoundBelow(k: nat)
      reads successor, lpValid, status
    {
      Found(page, successor[..], lpValid[..], status[..], k)
    }

    ghost predicate AllFound()
      reads successor, lpValid, status
    {
      FoundBelow(|page.items| + 1)
    }

    constructor (p: Page)
      ensures Allocated() && page == p && reports == [] && fresh(successor) && fresh(predecessor) && fresh(lpValid)
              && fresh(status)
      ensures Preds(p, predecessor[..], 1)
    {
      page := p;
      successor := new nat[|p.items| + 1];
      predecessor := new nat[|p.items| + 1](_ => 0);
      lpValid := new bool[|p.items| + 1];
      status := new Option<Status>[|p.items| + 1](_ => None);
      reports := [];
    }

    /** One turn of the first loop. */
    method CheckPointer(o: nat)
      requires Allocated() && InPage(page, o) && FoundBelow(o)
      modifies this, successor, lpValid, status
      ensures FoundBelow(o + 1) && reports == old(reports) + PointerReports(page, o)
    {
      successor[o], lpValid[o], status[o] := 0, false, None;
      var item := page.items[o - 1];
      match item
      case Unused =>
      case Dead =>
      case Redirect(t) =>
        if t < 1 || t > |page.items| || !page.items[t - 1].Normal? {
          reports := reports + [BadRedirect(o, t)];
          return;
        }
        lpValid[o], successor[o] := true, t;
      case Normal(off, len, tup) =>
        if off % 8 != 0 || len < HEADER_SIZE || off + len > BLCKSZ {
          reports := reports + [BadLinePointer(o)];
          return;
        }
        lpValid[o], status[o] := true, tup.status;
        if tup.ctidBlock == page.block && tup.ctidOffset != o && 1 <= tup.ctidOffset <= |page.items| {
          successor[o] := tup.ctidOffset;
        }
    }

    /** The first loop. */
    method CheckPointers()
      requires Allocated()
      modifies this, successor, lpValid, status
      ensures AllFound() && reports == old(reports) + PointersUpTo(page, |page.items|)
    {
      var o := 1;
      while o <= |page.items|
        invariant 1 <= o <= |page.items| + 1 && FoundBelow(o) && reports == old(reports) + PointersUpTo(page, o - 1)
      {
        Assoc(old(reports), PointersUpTo(page, o - 1), PointerReports(page, o));
        CheckPointer(o);
        o := o + 1;
      }
    }

    /** One turn of the second loop. */
    method CheckLink(i: nat)
      requires Allocated() && InPage(page, i) && AllFound() && Preds(page, predecessor[..], i)
      modifies this, predecessor
      ensures reports == old(reports) + TurnReports(page, i)
      ensures predecessor[..]
           == if Records(page, i) then old(predecessor[..])[Successor(page, i) := i] else old(predecessor[..])
    {
      var next := successor[i];
      if next == 0 || !lpValid[next] {
        return;
      }
      assert predecessor[next] == Predecessor(page, next, i);
      if page.items[i - 1].Redirect? {
        CheckRedirectLink(i, next);
        return;
      }
      var curr, target := page.items[i - 1].tuple, page.items[next - 1];
      if target.Redirect? || curr.updateXid == 0 || curr.updateXid != target.tuple.xmin {
        return;
      }
      if predecessor[next] != 0 {
        reports := reports + [Intersection(i, next, predecessor[next])];
        return;
      }
      predecessor[next] := i;
      ReportMarks(i, next);
      ReportStatus(i, next);
      Assoc(old(reports), MarkReports(page, i, next), StatusReports(page, i, next));
    }

    method CheckRedirectLink(i: nat, next: nat)
      requires Allocated() && InPage(page, i) && At(page, i).Redirect? && next != 0 && next == Successor(page, i)
               && LpValid(page, next)
      requires predecessor[next] == Predecessor(page, next, i)
      modifies this, predecessor
      ensures reports == old(reports) + LinkReports(page, i, Predecessor(page, next, i))
      ensures predecessor[..] == if Records(page, i) then old(predecessor[..])[next := i] else old(predecessor[..])
    {
      if !page.items[next - 1].tuple.heapOnly {
        reports := reports + [RedirectToNonHeapOnly(i, next)];
      }
      if predecessor[next] != 0 {
        reports := reports + [Intersection(i, next, predecessor[next])];
        return;
      }
      predecessor[next] := i;
    }

    method ReportMarks(i: nat, n: nat)
      requires InPage(page, i) && InPage(page, n) && At(page, i).Normal? && At(page, n).Normal?
      modifies this
      ensures reports == old(reports) + MarkReports(page, i, n)
    {
      if !page.items[i - 1].tuple.hotUpdated && page.items[n - 1].tuple.heapOnly {
        reports := reports + [NonHotMadeHeapOnly(i, n)];
      }
      if page.items[i - 1].tuple.hotUpdated && !page.items[n - 1].tuple.heapOnly {
        reports := reports + [HotMadeNonHeapOnly(i, n)];
      }
    }

    method ReportStatus(i: nat, n: nat)
      requires Allocated() && InPage(page, i) && InPage(page, n) && At(page, i).Normal? && At(page, n).Normal?
               && AllFound()
      modifies this
      ensures reports == old(reports) + StatusReports(page, i, n)
    {
      if status[i] == Some(InProgress) && status[n] == Some(Committed) && page.items[i - 1].tuple.xmin in page.running {
        reports := reports + [RunningMadeCommitted(i, n)];
      }
      if status[i] == Some(Aborted) && (status[n] == Some(InProgress) || status[n] == Some(Committed)) {
        reports := reports + [AbortedMadeOther(i, n)];
      }
    }

    /** Where the second loop stands before offset i, having begun with the reports in `before`. */
    ghost predicate AtTurn(i: nat, before: seq<Report>)
      reads this, successor, predecessor, lpValid, status
    {
      && Allocated() && (successor[..], lpValid[..], status[..]) in FoundArrays(page)
      && 1 <= i <= |page.items| + 1 && predecessor[..] in PredArrays(page, i)
      && reports == before + LinksUpTo(page, i - 1)
    }

    method LinkTurn(i: nat, ghost before: seq<Report>)
      requires AtTurn(i, before) && i <= |page.items|
      modifies this, predecessor
      ensures AtTurn(i + 1, before)
    {
      Assoc(before, LinksUpTo(page, i - 1), TurnReports(page, i));
      PredsNext(page, predecessor[..], i);
      CheckLink(i);
    }

    lemma LinksBegin()
      requires Allocated() && AllFound() && Preds(page, predecessor[..], 1)
      ensures AtTurn(1, reports)
    {
      assert reports + [] == reports;
    }

    /** The second loop; it leaves in predecessor[n] the least offset that links to n. */
    method CheckLinks()
      requires Allocated() && AllFound() && Preds(page, predecessor[..], 1)
      modifies this, predecessor
      ensures AtTurn(|page.items| + 1, old(reports))
    {
      ghost var before := reports;
      LinksBegin();
      var i := 1;
      while i <= |page.items|
        invariant AtTurn(i, before)
      {
        LinkTurn(i, before);
        i := i + 1;
      }
    }

    method CheckAll()
      requires Allocated() && reports == [] && Preds(page, predecessor[..], 1)
      modifies this, successor, predecessor, lpValid, status
      ensures reports == PointersUpTo(page, |page.items|) + LinksUpTo(page, |page.items|)
                         + RootsUpTo(page, |page.items|)
    {
      CheckPointers();
      assert [] + PointersUpTo(page, |page.items|) == PointersUpTo(page, |page.items|);
      CheckLinks();
      assert AllFound() && Preds(page, predecessor[..], |page.items| + 1);
      assert reports == PointersUpTo(page, |page.items|) + LinksUpTo(page, |page.items|);
      CheckRoots();
    }

    /** The third loop. */
    method CheckRoots()
      requires Allocated() && AllFound() && Preds(page, predecessor[..], |page.items| + 1)
      modifies this
      ensures reports == old(reports) + RootsUpTo(page, |page.items|)
    {
      var o := 1;
      while o <= |page.items|
        invariant 1 <= o <= |page.items| + 1 && reports == old(reports) + RootsUpTo(page, o - 1)
      {
        Assoc(old(reports), RootsUpTo(page, o - 1), RootReports(page, o));
        assert predecessor[o] == Predecessor(page, o, |page.items| + 1);
        if (status[o] == Some(Committed) || status[o] == Some(InProgress)) && predecessor[o] == 0 {
          if !page.items[o - 1].Redirect? && page.items[o - 1].tuple.heapOnly {
            reports := reports + [RootIsHeapOnly(o)];
          }
        }
        o := o + 1;
      }
    }
  }

  /** All three loops over one page. */
  method CheckPage(p: Page) returns (reports: seq<Report>)
    ensures reports == PointersUpTo(p, |p.items|) + LinksUpTo(p, |p.items|) + RootsUpTo(p, |p.items|)
  {
    var check := new ChainCheck(p);
    check.CheckAll();
    reports := check.reports;
  }

  // ---------- what the reports mean ----------

  /** predecessor[n] is the least offset that links to n. */
  lemma {:induction false} PredecessorIsLeast(p: Page, n: nat, k: nat)
    requires k <= |p.items| + 1
    ensures var r := Predecessor(p, n, k);
            if r == 0 then forall i: nat :: 1 <= i < k ==> !Links(p, i, n)
            else 1 <= r < k && Links(p, r, n) && forall i: nat :: 1 <= i < r ==> !Links(p, i, n)
  {
    if k > 1 {
      PredecessorIsLeast(p, n, k - 1);
    }
  }

  /** A report about the shape of chains, rather than about line pointers or transaction status. */
  predicate AboutChains(r: Report) {
    r.RedirectToNonHeapOnly? || r.Intersection? || r.NonHotMadeHeapOnly? || r.HotMadeNonHeapOnly? || r.RootIsHeapOnly?
  }

  ghost predicate Quiet(rs: seq<Report>) {
    forall i :: 0 <= i < |rs| ==> !AboutChains(rs[i])
  }

  lemma QuietConcat(a: seq<Report>, b: seq<Report>)
    ensures Quiet(a + b) <==> Quiet(a) && Quiet(b)
  {
    if Quiet(a + b) {
      assert forall i :: 0 <= i < |a| ==> (a + b)[i] == a[i];
      assert forall i :: 0 <= i < |b| ==> (a + b)[|a| + i] == b[i];
    }
  }

  /** Redirects lead to heap-only tuples; an update makes a heap-only tuple exactly if it is marked as such. */
  predicate MarksAgree(p: Page, i: nat, n: nat)
    requires InPage(p, i) && Links(p, i, n)
  {
    At(p, n).tuple.heapOnly == (At(p, i).Redirect? || At(p, i).tuple.hotUpdated)
  }

  lemma LinkQuietExactly(p: Page, i: nat, other: nat)
    requires InPage(p, i)
    ensures var n := Successor(p, i);
            Quiet(LinkReports(p, i, other)) <==> (Links(p, i, n) ==> MarksAgree(p, i, n) && other == 0)
  {
    var n, rs := Successor(p, i), LinkReports(p, i, other);
    if Links(p, i, n) {
      if !(MarksAgree(p, i, n) && other == 0) {
        assert rs != [] && AboutChains(rs[0]);
      } else if At(p, i).Normal? {
        QuietConcat(MarkReports(p, i, n), StatusReports(p, i, n));
      }
    }
  }

  /** If offset i links to a tuple, it is the first to do so and the marks agree. */
  predicate GoodTurn(p: Page, i: nat)
    requires InPage(p, i)
  {
    var n := Successor(p, i);
    Links(p, i, n) ==> MarksAgree(p, i, n) && Predecessor(p, n, i) == 0
  }

  predicate GoodTurns(p: Page, k: nat)
    requires k <= |p.items|
  {
    k == 0 || (GoodTurns(p, k - 1) && GoodTurn(p, k))
  }

  lemma TurnQuietExactly(p: Page, i: nat)
    requires InPage(p, i)
    ensures Quiet(TurnReports(p, i)) <==> GoodTurn(p, i)
  {
    LinkQuietExactly(p, i, Predecessor(p, Successor(p, i), i));
  }

  lemma LinksQuietNext(p: Page, k: nat)
    requires 0 < k <= |p.items|
    ensures Quiet(LinksUpTo(p, k)) <==> Quiet(LinksUpTo(p, k - 1)) && GoodTurn(p, k)
  {
    QuietConcat(LinksUpTo(p, k - 1), TurnReports(p, k));
    TurnQuietExactly(p, k);
  }

  lemma {:induction false} LinksQuietExactly(p: Page, k: nat)
    requires k <= |p.items|
    ensures Quiet(LinksUpTo(p, k)) <==> GoodTurns(p, k)
  {
    if k > 0 {
      LinksQuietExactly(p, k - 1);
      LinksQuietNext(p, k);
    }
  }

  lemma {:induction false} GoodTurnsAll(p: Page, k: nat)
    requires k <= |p.items|
    ensures GoodTurns(p, k) <==> forall i: nat :: 1 <= i <= k ==> GoodTurn(p, i)
  {
    if k > 0 {
      GoodTurnsAll(p, k - 1);
    }
  }

  lemma {:induction false} RootsQuietExactly(p: Page, k: nat)
    requires k <= |p.items|
    ensures Quiet(RootsUpTo(p, k)) <==> forall o: nat :: 1 <= o <= k ==> RootReports(p, o) == []
  {
    if k > 0 {
      RootsQuietExactly(p, k - 1);
      QuietConcat(RootsUpTo(p, k - 1), RootReports(p, k));
      if RootReports(p, k) != [] {
        assert AboutChains(RootReports(p, k)[0]);
      }
    }
  }

  /** No tuple has two incoming links. */
  ghost predicate NoIntersection(p: Page) {
    forall i: nat, j: nat, n: nat :: InPage(p, i) && InPage(p, j) && i < j ==> !(Links(p, i, n) && Links(p, j, n))
  }

  /** The heap-only marks agree along every link. */
  ghost predicate AllMarksAgree(p: Page) {
    forall i: nat, n: nat :: InPage(p, i) && Links(p, i, n) ==> MarksAgree(p, i, n)
  }

  /** Every heap-only tuple whose inserting transaction is known to have committed or to be in progress is led to. */
  ghost predicate NoHeapOnlyRoot(p: Page) {
    forall o: nat :: InPage(p, o) && KnownAlive(p, o) && At(p, o).tuple.heapOnly ==>
      exists i: nat :: InPage(p, i) && Links(p, i, o)
  }

  lemma NoIntersectionExactly(p: Page)
    ensures NoIntersection(p) <==>
              forall i: nat :: InPage(p, i) && Links(p, i, Successor(p, i)) ==> Predecessor(p, Successor(p, i), i) == 0
  {
    forall i: nat | InPage(p, i)
      ensures Predecessor(p, Successor(p, i), i) == 0 <==> forall j: nat :: 1 <= j < i ==> !Links(p, j, Successor(p, i))
    {
      PredecessorIsLeast(p, Successor(p, i), i);
    }
  }

  lemma NoHeapOnlyRootExactly(p: Page)
    ensures NoHeapOnlyRoot(p) <==> forall o: nat :: InPage(p, o) ==> RootReports(p, o) == []
  {
    forall o: nat | InPage(p, o)
      ensures Predecessor(p, o, |p.items| + 1) == 0 <==> !exists i: nat :: InPage(p, i) && Links(p, i, o)
    {
      PredecessorIsLeast(p, o, |p.items| + 1);
    }
  }

  lemma LinksSoundExactly(p: Page)
    ensures Quiet(LinksUpTo(p, |p.items|)) <==> NoIntersection(p) && AllMarksAgree(p)
  {
    LinksQuietExactly(p, |p.items|);
    GoodTurnsAll(p, |p.items|);
    NoIntersectionExactly(p);
    if NoIntersection(p) && AllMarksAgree(p) {
      forall i: nat | 1 <= i <= |p.items|
        ensures GoodTurn(p, i)
      {
        assert Links(p, i, Successor(p, i)) ==> MarksAgree(p, i, Successor(p, i));
      }
    }
    if GoodTurns(p, |p.items|) {
      forall i: nat | InPage(p, i) && Links(p, i, Successor(p, i))
        ensures MarksAgree(p, i, Successor(p, i)) && Predecessor(p, Successor(p, i), i) == 0
      {
        assert GoodTurn(p, i);
      }
    }
  }

  /** The loops report nothing about chains exactly when no two line pointers lead to the same tuple, the heap-only
      marks agree along every link, and every live heap-only tuple is led to. */
  lemma QuietExactly(p: Page)
    ensures Quiet(LinksUpTo(p, |p.items|) + RootsUpTo(p, |p.items|))
            <==> NoIntersection(p) && AllMarksAgree(p) && NoHeapOnlyRoot(p)
  {
    QuietConcat(LinksUpTo(p, |p.items|), RootsUpTo(p, |p.items|));
    LinksSoundExactly(p);
    RootsQuietExactly(p, |p.items|);
    NoHeapOnlyRootExactly(p);
  }
}
