/** Transaction ids in the heap verifier (verify_heapam.c): a 32-bit id is widened to 64 bits relative to a cached
    next id, which may be stale. */
module HeapXid {

  const EPOCH: nat := 0x1_0000_0000
  const HALF: nat := 0x8000_0000
  const FIRST_NORMAL: nat := 3

  /** A 64-bit id that can be given out: its low 32 bits are not one of the three special ids. */
  predicate Normal(full: nat) {
    full % EPOCH >= FIRST_NORMAL
  }

  /** (int32) of an unsigned difference. */
  function Int32Diff(a: nat, b: nat): int {
    var d := (a - b) % EPOCH;
    if d < HALF then d else d - EPOCH
  }

  /** FullTransactionIdFromXidAndCtx */
  function Widen(xid: nat, next: nat): int {
    if xid < FIRST_NORMAL then xid
    else
      var diff := Int32Diff(next % EPOCH, xid);
      if diff > 0 && next - FIRST_NORMAL < diff then FIRST_NORMAL else next - diff
  }

  lemma DiffIsCongruent(next: nat, xid: nat)
    requires xid < EPOCH
    ensures (next - Int32Diff(next % EPOCH, xid)) % EPOCH == xid
    ensures -(HALF as int) <= Int32Diff(next % EPOCH, xid) < HALF
  {
  }

  /** Two numbers with the same low bits, less than 2^32 apart, are the same. */
  lemma CongruentIsEqual(a: int, b: int)
    requires a % EPOCH == b % EPOCH && -(EPOCH as int) < a - b < EPOCH
    ensures a == b
  {
  }

  /** A normal 32-bit id is widened to a normal 64-bit id. */
  lemma WidenIsNormal(xid: nat, next: nat)
    requires FIRST_NORMAL <= xid < EPOCH && Normal(next)
    ensures Widen(xid, next) >= FIRST_NORMAL && Normal(Widen(xid, next))
  {
    DiffIsCongruent(next, xid);
  }

  /** Widening recovers a 64-bit id exactly when it is at most 2^31 ahead of the next id and less than 2^31 behind. */
  lemma WidenRecoversExactly(full: nat, next: nat)
    requires Normal(full) && Normal(next)
    ensures Widen(full % EPOCH, next) == full <==> next - HALF < full <= next + HALF
  {
    var diff := Int32Diff(next % EPOCH, full % EPOCH);
    DiffIsCongruent(next, full % EPOCH);
    if next - HALF < full <= next + HALF {
      CongruentIsEqual(next - diff, full);
    } else if diff > 0 && next - FIRST_NORMAL < diff {
      ClampedIsOther(full, next);
    }
  }

  /** An id before the first one is replaced by the first, never mistaken for it. */
  lemma ClampedIsOther(full: nat, next: nat)
    requires Normal(full) && Normal(next)
    requires var diff := Int32Diff(next % EPOCH, full % EPOCH); diff > 0 && next - FIRST_NORMAL < diff
    requires !(next - HALF < full <= next + HALF)
    ensures full != FIRST_NORMAL
  {
    DiffIsCongruent(next, full % EPOCH);
  }

  // ---------- the cached range ----------

  /** The shared counters at one moment. */
  datatype Shared = Shared(next: nat, oldest: nat)

  datatype Bounds = Invalid | InFuture | PrecedesClusterMin | PrecedesRelMin | BoundsOk

  /** The cached copies and the relation's horizon. */
  datatype Cache = Cache(nextFull: nat, oldestFull: int, relfrozenFull: int)

  predicate SharedOk(s: Shared) {
    Normal(s.next) && s.oldest < EPOCH
  }

  /** update_cached_xid_range */
  function Refresh(c: Cache, s: Shared): Cache {
    c.(nextFull := s.next, oldestFull := Widen(s.oldest, s.next))
  }

  predicate InCachedRange(full: int, c: Cache) {
    c.oldestFull <= full < c.nextFull
  }

  function CheckBounds(full: int, c: Cache): Bounds {
    if c.nextFull <= full then InFuture
    else if full < c.oldestFull then PrecedesClusterMin
    else if full < c.relfrozenFull then PrecedesRelMin
    else BoundsOk
  }

  /** The bounds part of get_xid_status: the cache afterwards, and the verdict. */
  function Status(c: Cache, xid: nat, s: Shared): (Cache, Bounds) {
    if xid == 0 then (c, Invalid)
    else if xid < FIRST_NORMAL then (c, BoundsOk)
    else if InCachedRange(Widen(xid, c.nextFull), c) then (c, CheckBounds(Widen(xid, c.nextFull), c))
    else
      var c' := Refresh(c, s);
      (c', CheckBounds(Widen(xid, c'.nextFull), c'))
  }

  /** HeapCheckContext, as far as transaction ids go. */
  class CheckContext {
    var nextFull: nat
    var nextXid: nat
    var oldestXid: nat
    var oldestFull: int
    var relfrozenFull: int

    ghost predicate Valid()
      reads this
    {
      Normal(nextFull) && nextXid == nextFull % EPOCH && oldestXid < EPOCH
    }

    ghost function Cached(): Cache
      reads this
    {
      Cache(nextFull, oldestFull, relfrozenFull)
    }

    /** The context as the check of a relation sets it up; the relation's horizon becomes the cached oldest id, while
        the widened oldest id stays that of the cluster. */
    constructor (s: Shared, relfrozenxid: nat)
      requires SharedOk(s) && relfrozenxid < EPOCH
      ensures Valid() && Cached() == Refresh(Cache(s.next, 0, Widen(relfrozenxid, s.next)), s)
    {
      nextFull := s.next;
      nextXid := s.next % EPOCH;
      oldestXid := if relfrozenxid >= FIRST_NORMAL then relfrozenxid else s.oldest;
      oldestFull := Widen(s.oldest, s.next);
      relfrozenFull := Widen(relfrozenxid, s.next);
    }

    method UpdateCachedXidRange(s: Shared)
      requires SharedOk(s)
      modifies this
      ensures Valid() && Cached() == Refresh(old(Cached()), s)
    {
      nextFull := s.next;
      oldestXid := s.oldest;
      nextXid := nextFull % EPOCH;
      oldestFull := Widen(oldestXid, nextFull);
    }

    method GetXidStatus(xid: nat, s: Shared) returns (r: Bounds)
      requires Valid() && SharedOk(s)
      modifies this
      ensures Valid() && (Cached(), r) == Status(old(Cached()), xid, s)
    {
      if xid == 0 {
        return Invalid;
      } else if xid == 1 || xid == 2 {
        return BoundsOk;
      }
      var full := Widen(xid, nextFull);
      if !(oldestFull <= full < nextFull) {
        UpdateCachedXidRange(s);
        full := Widen(xid, nextFull);
      }
      if nextFull <= full {
        return InFuture;
      }
      if full < oldestFull {
        return PrecedesClusterMin;
      }
      if full < relfrozenFull {
        return PrecedesRelMin;
      }
      r := BoundsOk;
    }
  }

  // ---------- what the verdict means ----------

  /** The id has been given out, and not so long ago that ids have wrapped around. */
  predicate Assigned(full: nat, s: Shared) {
    Normal(full) && s.next - HALF < full < s.next
  }

  /** However stale the cache, an id that has been given out is not reported as being in the future. */
  lemma AssignedIsNotInFuture(c: Cache, full: nat, s: Shared)
    requires SharedOk(s) && Assigned(full, s)
    ensures Status(c, full % EPOCH, s).1 != InFuture
  {
    WidenRecoversExactly(full, s.next);
  }

  /** While the cache lags by less than 2^31 ids, the verdict is about the id itself: in the future exactly if it has
      not been given out, and otherwise by the horizons. */
  lemma StatusIsAboutTheId(c: Cache, full: nat, s: Shared)
    requires SharedOk(s) && Normal(full) && Normal(c.nextFull) && c.nextFull <= s.next
    requires s.next - HALF < full <= c.nextFull + HALF
    ensures var (c', r) := Status(c, full % EPOCH, s);
            && (r == InFuture <==> full >= s.next)
            && (full < s.next ==> r == CheckBounds(full, c'))
            && c'.nextFull <= s.next
  {
    WidenRecoversExactly(full, c.nextFull);
    WidenRecoversExactly(full, s.next);
  }

  // ---------- whole runs ----------

  /** One call: the id met on the page, and the shared counters at that moment. */
  datatype Call = Call(full: nat, shared: Shared)

  /** The shared counter never goes back. */
  ghost predicate History(calls: seq<Call>, next: nat) {
    calls == [] ||
    (SharedOk(calls[0].shared) && next <= calls[0].shared.next && History(calls[1..], calls[0].shared.next))
  }

  function Verdicts(c: Cache, calls: seq<Call>): (rs: seq<Bounds>)
    ensures |rs| == |calls|
    decreases |calls|
  {
    if calls == [] then []
    else
      var (c', r) := Status(c, calls[0].full % EPOCH, calls[0].shared);
      [r] + Verdicts(c', calls[1..])
  }

  /** In any run over ids that have been given out, however the counters move in between, no id is reported as being
      in the future. */
  lemma {:induction false} RunHasNoFuture(c: Cache, calls: seq<Call>)
    requires forall i :: 0 <= i < |calls| ==> SharedOk(calls[i].shared) && Assigned(calls[i].full, calls[i].shared)
    ensures forall i :: 0 <= i < |calls| ==> Verdicts(c, calls)[i] != InFuture
    decreases |calls|
  {
    if calls != [] {
      var (c', r) := Status(c, calls[0].full % EPOCH, calls[0].shared);
      AssignedIsNotInFuture(c, calls[0].full, calls[0].shared);
      RunHasNoFuture(c', calls[1..]);
    }
  }

  /** Under a counter that never goes back, as long as no id is 2^31 ahead of the cache the run began with, each
      verdict tells exactly whether the id has been given out by then. */
  lemma {:induction false} RunIsExact(c: Cache, calls: seq<Call>, next: nat)
    requires Normal(c.nextFull) && c.nextFull <= next && History(calls, next)
    requires forall i :: 0 <= i < |calls| ==>
               Normal(calls[i].full) && calls[i].shared.next - HALF < calls[i].full <= c.nextFull + HALF
    ensures forall i :: 0 <= i < |calls| ==>
              (Verdicts(c, calls)[i] == InFuture <==> calls[i].full >= calls[i].shared.next)
    decreases |calls|
  {
    if calls != [] {
      var (c', r) := Status(c, calls[0].full % EPOCH, calls[0].shared);
      StatusIsAboutTheId(c, calls[0].full, calls[0].shared);
      RunIsExact(c', calls[1..], calls[0].shared.next);
    }
  }
}
