/** Pages of a bloom index: layout arithmetic (bloom.h), page images as values, and the working copy
    that GenericXLogRegisterBuffer hands out, which the code edits in place before it either replaces
    the page (GenericXLogFinish) or is thrown away (GenericXLogAbort). */
module BloomPage {
  import opened Basics
  import opened BloomSignature

  datatype ItemPointer = ItemPointer(blkno: nat, posid: nat)

  datatype BloomTuple = BloomTuple(heapPtr: ItemPointer, sign: Signature)

  /** A page image. `tuples` are the first maxoff tuples; `lower` is pd_lower. */
  datatype Page =
    | NewPage
    | MetaPage
    | DataPage(tuples: seq<BloomTuple>, deleted: bool, lower: nat)

  const BLCKSZ := 8192
  const HEADER := 24   // SizeOfPageHeaderData, already aligned
  const OPAQUE := 8    // sizeof(BloomPageOpaqueData), already aligned
  const META_BLOCKS := 2004   // BloomMetaBlockN

  /** sizeOfBloomTuple for a signature of that many words. */
  function TupleSize(words: nat): nat {
    6 + 2 * words
  }

  /** n * sizeOfBloomTuple, added up tuple by tuple (see BytesIsProduct). */
  function Bytes(words: nat, n: nat): nat {
    if n == 0 then 0 else Bytes(words, n - 1) + TupleSize(words)
  }

  /** BloomPageGetFreeSpace of a page with n tuples. */
  function FreeSpace(words: nat, n: nat): int {
    BLCKSZ - HEADER - Bytes(words, n) - OPAQUE
  }

  /** pd_lower of a page with n tuples. */
  function Lower(words: nat, n: nat): nat {
    HEADER + Bytes(words, n)
  }

  /** The tuples that count: those on an initialised page that is not deleted. */
  function Tuples(p: Page): seq<BloomTuple> {
    if p.DataPage? && !p.deleted then p.tuples else []
  }

  /** PageIsNew || BloomPageIsDeleted: the page may be taken over. */
  predicate Recyclable(p: Page) {
    p.NewPage? || (p.DataPage? && p.deleted)
  }

  predicate PageOk(words: nat, p: Page) {
    p.DataPage? ==>
      && FreeSpace(words, |p.tuples|) >= 0
      && p.lower == Lower(words, |p.tuples|)
      && (p.deleted ==> p.tuples == [])
      && forall i :: 0 <= i < |p.tuples| ==> |p.tuples[i].sign| == words
  }

  // BloomInitPage(page, 0)
  const FRESH := DataPage([], false, HEADER)

  /** BloomPageAddItem: None when the tuple does not fit. */
  function AddItem(words: nat, p: Page, t: BloomTuple): Option<Page>
    requires p.DataPage? && !p.deleted
  {
    if FreeSpace(words, |p.tuples|) < TupleSize(words) then None
    else Some(DataPage(p.tuples + [t], false, Lower(words, |p.tuples| + 1)))
  }

  /** What every insertion into a page does under the page lock: take it over if it is new or deleted, then add. */
  function TakeAndAdd(words: nat, p: Page, t: BloomTuple): Option<Page>
    requires !p.MetaPage?
  {
    AddItem(words, if Recyclable(p) then FRESH else p, t)
  }

  /** The tuples whose heap pointer the vacuum callback does not claim, in order. */
  function Keep(tuples: seq<BloomTuple>, dead: set<ItemPointer>): (kept: seq<BloomTuple>)
    ensures |kept| <= |tuples|
  {
    if tuples == [] then []
    else
      var rest := Keep(tuples[..|tuples| - 1], dead);
      if tuples[|tuples| - 1].heapPtr in dead then rest else rest + [tuples[|tuples| - 1]]
  }

  /** The tuples the callback does claim. */
  function Drop(tuples: seq<BloomTuple>, dead: set<ItemPointer>): (dropped: seq<BloomTuple>)
  {
    if tuples == [] then []
    else
      var rest := Drop(tuples[..|tuples| - 1], dead);
      if tuples[|tuples| - 1].heapPtr in dead then rest + [tuples[|tuples| - 1]] else rest
  }

  /** The page image one bulk-delete section leaves behind. */
  function VacuumedPage(words: nat, p: Page, dead: set<ItemPointer>): Page {
    if !p.DataPage? || p.deleted then p
    else
      var kept := Keep(p.tuples, dead);
      if |kept| == |p.tuples| then p else DataPage(kept, kept == [], Lower(words, |kept|))
  }

  // ---------- facts about layout ----------

  lemma {:induction false} BytesIsProduct(words: nat, n: nat)
    ensures Bytes(words, n) == n * TupleSize(words) >= 6 * n
  {
    if n > 0 {
      BytesIsProduct(words, n - 1);
    }
  }

  lemma {:induction false} BytesMonotone(words: nat, m: nat, n: nat)
    requires m <= n
    ensures Bytes(words, m) <= Bytes(words, n)
  {
    if m < n {
      BytesMonotone(words, m, n - 1);
    }
  }

  /** A tuple always fits on an empty page, for every signature length the options allow. */
  lemma EmptyPageTakesTuple(words: nat, t: BloomTuple)
    requires 1 <= words <= 256
    ensures AddItem(words, FRESH, t) == Some(DataPage([t], false, Lower(words, 1)))
  {
    assert [] + [t] == [t];
  }

  lemma AddItemOk(words: nat, p: Page, t: BloomTuple)
    requires p.DataPage? && !p.deleted && PageOk(words, p) && |t.sign| == words
    ensures var r := AddItem(words, p, t); r.Some? ==> PageOk(words, r.value) && r.value.lower <= BLCKSZ - OPAQUE
  {
  }

  lemma SlotsSuffice(words: nat, n: nat)
    requires FreeSpace(words, n) >= TupleSize(words)
    ensures n + 1 <= SLOTS
  {
    BytesIsProduct(words, n + 1);
  }

  // ---------- facts about vacuum's filter ----------

  lemma {:induction false} KeepIn(tuples: seq<BloomTuple>, dead: set<ItemPointer>, t: BloomTuple)
    ensures t in Keep(tuples, dead) <==> t in tuples && t.heapPtr !in dead
  {
    if tuples != [] {
      KeepIn(tuples[..|tuples| - 1], dead, t);
      assert tuples == tuples[..|tuples| - 1] + [tuples[|tuples| - 1]];
    }
  }

  lemma {:induction false} KeepDropSplit(tuples: seq<BloomTuple>, dead: set<ItemPointer>)
    ensures multiset(Keep(tuples, dead)) + multiset(Drop(tuples, dead)) == multiset(tuples)
    ensures |Keep(tuples, dead)| + |Drop(tuples, dead)| == |tuples|
  {
    if tuples != [] {
      KeepDropSplit(tuples[..|tuples| - 1], dead);
      assert tuples == tuples[..|tuples| - 1] + [tuples[|tuples| - 1]];
    }
  }

  lemma {:induction false} DropIn(tuples: seq<BloomTuple>, dead: set<ItemPointer>, t: BloomTuple)
    ensures t in Drop(tuples, dead) <==> t in tuples && t.heapPtr in dead
  {
    if tuples != [] {
      DropIn(tuples[..|tuples| - 1], dead, t);
      assert tuples == tuples[..|tuples| - 1] + [tuples[|tuples| - 1]];
    }
  }

  lemma {:induction false} KeepAll(tuples: seq<BloomTuple>, dead: set<ItemPointer>)
    requires |Keep(tuples, dead)| == |tuples|
    ensures Keep(tuples, dead) == tuples
  {
    if tuples != [] {
      KeepAll(tuples[..|tuples| - 1], dead);
      assert tuples == tuples[..|tuples| - 1] + [tuples[|tuples| - 1]];
    }
  }

  lemma VacuumedPageShape(words: nat, p: Page, dead: set<ItemPointer>)
    requires PageOk(words, p)
    ensures PageOk(words, VacuumedPage(words, p, dead))
    ensures Tuples(VacuumedPage(words, p, dead)) == Keep(Tuples(p), dead)
    ensures |Keep(Tuples(p), dead)| < |Tuples(p)| ==> VacuumedPage(words, p, dead) != p
  {
    var kept := Keep(Tuples(p), dead);
    if |kept| == |Tuples(p)| {
      KeepAll(Tuples(p), dead);
    } else {
      BytesMonotone(words, |kept|, |Tuples(p)|);
      forall i | 0 <= i < |kept|
        ensures |kept[i].sign| == words
      {
        KeepIn(Tuples(p), dead, kept[i]);
      }
    }
  }

  /** A bulk-delete section keeps the page well formed and leaves exactly the kept tuples, in order; the
      page is marked deleted by this section exactly when something went and nothing stayed. */
  lemma VacuumedPageOk(words: nat, p: Page, dead: set<ItemPointer>)
    requires PageOk(words, p)
    ensures PageOk(words, VacuumedPage(words, p, dead))
    ensures Tuples(VacuumedPage(words, p, dead)) == Keep(Tuples(p), dead)
    ensures Recyclable(VacuumedPage(words, p, dead)) && !Recyclable(p) <==>
            Tuples(p) != [] && forall t :: t in Tuples(p) ==> t.heapPtr in dead
    ensures VacuumedPage(words, p, dead) == p <==> forall t :: t in Tuples(p) ==> t.heapPtr !in dead
  {
    var kept := Keep(Tuples(p), dead);
    VacuumedPageShape(words, p, dead);
    forall t
      ensures t in kept <==> t in Tuples(p) && t.heapPtr !in dead
    {
      KeepIn(Tuples(p), dead, t);
    }
    if |kept| < |Tuples(p)| {
      KeepDropSplit(Tuples(p), dead);
      var d := Drop(Tuples(p), dead)[0];
      DropIn(Tuples(p), dead, d);
      assert d in Tuples(p) && d.heapPtr in dead;
    }
    if kept == [] && Tuples(p) != [] {
      assert forall t :: t in Tuples(p) ==> t !in kept;
    }
    if kept != [] {
      assert kept[0] in kept;
    }
  }

  // ---------- the working copy ----------

  // No more tuples than this fit on a page: a tuple is at least six bytes
  const SLOTS := 1360

  /** The private copy of a page that GenericXLogRegisterBuffer returns, edited in place. */
  class WorkingPage {
    const words: nat
    const slots: array<BloomTuple>
    var maxoff: nat
    var isNew: bool
    var deleted: bool
    var lower: nat

    ghost predicate Valid()
      reads this, slots
    {
      slots.Length == SLOTS && maxoff <= SLOTS && PageOk(words, Image()) && (isNew ==> maxoff == 0)
    }

    ghost function Image(): Page
      requires maxoff <= slots.Length
      reads this, slots
    {
      if isNew then NewPage else DataPage(slots[..maxoff], deleted, lower)
    }

    /** GenericXLogRegisterBuffer */
    constructor (words: nat, p: Page)
      requires !p.MetaPage? && PageOk(words, p)
      ensures Valid() && fresh(slots) && this.words == words && Image() == p
    {
      this.words := words;
      var tuples := Tuples(p);
      BytesIsProduct(words, |tuples|);
      slots := new BloomTuple[SLOTS](i => if 0 <= i < |tuples| then tuples[i] else BloomTuple(ItemPointer(0, 0), []));
      maxoff := |tuples|;
      isNew := p.NewPage?;
      deleted := p.DataPage? && p.deleted;
      lower := if p.DataPage? then p.lower else 0;
      new;
      assert slots[..maxoff] == tuples;
    }

    /** BloomInitPage(page, 0) */
    method Init()
      requires Valid()
      modifies this
      ensures Valid() && Image() == FRESH
    {
      maxoff := 0;
      isNew := false;
      deleted := false;
      lower := HEADER;
    }

    /** BloomPageAddItem */
    method Add(t: BloomTuple) returns (ok: bool)
      requires Valid() && !isNew && !deleted && |t.sign| == words
      modifies this, slots
      ensures Valid()
      ensures var r := AddItem(words, old(Image()), t);
              ok == r.Some? && Image() == (if ok then r.value else old(Image()))
    {
      ghost var before := Image();
      if FreeSpace(words, maxoff) < TupleSize(words) {
        return false;
      }
      AddItemOk(words, before, t);
      SlotsSuffice(words, maxoff);
      slots[maxoff] := t;
      maxoff := maxoff + 1;
      lower := Lower(words, maxoff);
      assert slots[..maxoff] == before.tuples + [t];
      assert Image() == AddItem(words, before, t).value;
      ok := true;
    }

    /** The two-pointer loop of blbulkdelete: kept tuples slide down over removed ones. */
    method Compact(dead: set<ItemPointer>) returns (kept: nat, removed: nat)
      requires slots.Length == SLOTS && maxoff <= SLOTS
      modifies this`maxoff, slots
      ensures maxoff == kept <= old(maxoff)
      ensures slots[..maxoff] == Keep(old(slots[..maxoff]), dead)
      ensures removed == old(maxoff) - maxoff
      ensures maxoff == old(maxoff) ==> slots[..] == old(slots[..])
    {
      var itup, itupPtr, itupEnd := 0, 0, maxoff;
      removed := 0;
      while itup < itupEnd
        invariant 0 <= itupPtr <= itup <= itupEnd == old(maxoff)
        invariant slots[..itupPtr] == Keep(old(slots[..itup]), dead)
        invariant slots[itup..] == old(slots[itup..])
        invariant itupPtr == itup ==> slots[..] == old(slots[..])
        invariant removed == itup - itupPtr && maxoff == itupEnd - removed
      {
        assert slots[itup] == slots[itup..][0] == old(slots[itup]);
        assert slots[itup + 1..] == old(slots[itup + 1..]);
        assert old(slots[..itup + 1])[..itup] == old(slots[..itup]);
        if slots[itup].heapPtr in dead {
          maxoff := maxoff - 1;
          removed := removed + 1;
        } else {
          if itupPtr != itup {
            slots[itupPtr] := slots[itup];
          }
          assert slots[itup + 1..] == old(slots[itup..])[1..];
          itupPtr := itupPtr + 1;
          assert slots[..itupPtr] == slots[..itupPtr - 1] + [old(slots[itup])];
        }
        itup := itup + 1;
      }
      kept := itupPtr;
    }

    /** One page of blbulkdelete: `finished` says whether the change is applied or aborted. */
    method BulkDelete(dead: set<ItemPointer>) returns (finished: bool, removed: nat)
      requires Valid() && !isNew && !deleted
      modifies this, slots
      ensures Valid()
      ensures Image() == VacuumedPage(words, old(Image()), dead)
      ensures finished <==> Image() != old(Image())
      ensures removed == |Drop(Tuples(old(Image())), dead)|
    {
      ghost var before := Image();
      VacuumedImage(words, before, dead);
      var kept;
      kept, removed := Compact(dead);
      finished := removed > 0;
      if finished {
        if maxoff == 0 {
          deleted := true;
        }
        lower := Lower(words, kept);
      }
      assert Image() == VacuumedPage(words, before, dead);
    }
  }

  /** What the section leaves on a page in use: the same image, or the kept tuples with the bounds set again. */
  lemma VacuumedImage(words: nat, p: Page, dead: set<ItemPointer>)
    requires PageOk(words, p) && p.DataPage? && !p.deleted
    ensures var kept, q := Keep(p.tuples, dead), VacuumedPage(words, p, dead);
            && PageOk(words, q) && |kept| + |Drop(p.tuples, dead)| == |p.tuples|
            && (|kept| == |p.tuples| ==> q == p && kept == p.tuples)
            && (|kept| < |p.tuples| ==> q != p && q == DataPage(kept, kept == [], Lower(words, |kept|)))
  {
    VacuumedPageShape(words, p, dead);
    KeepDropSplit(p.tuples, dead);
    if |Keep(p.tuples, dead)| == |p.tuples| {
      KeepAll(p.tuples, dead);
    }
  }
}
