/** Trees of truncated keys over their whole history: insertion along a path with every entry on it adjusted, removal
    of leaf entries, page splits and new roots. No such history hides a value from a scan. A page of inner entries is
    split only where the cut is safe for its entries, because otherwise it can lose a value. */
module GistVarHistory {
  import opened Basics
  import opened GistVar

  /** What happens on the page at the end of a path. */
  datatype Edit =
    | Add(value: Bytes)              // a new leaf entry
    | Drop                           // a leaf entry is removed
    | SplitPage(order: seq<nat>)     // the page below an entry is split, its entries sorted into this order

  // ---------- the split of a page ----------

  ghost predicate AllLeaves(ts: seq<Tree>) {
    forall i :: 0 <= i < |ts| ==> ts[i].Leaf?
  }

  /** The entries at these offsets, which count from 1. */
  function PickTrees(ts: seq<Tree>, offsets: seq<nat>): (r: seq<Tree>)
    requires InRange(offsets, |ts|)
    ensures |r| == |offsets| && forall i :: 0 <= i < |offsets| ==> r[i] == ts[offsets[i] - 1]
  {
    seq(|offsets|, i requires 0 <= i < |offsets| => ts[offsets[i] - 1])
  }

  ghost predicate Splittable(kids: seq<Tree>, order: seq<nat>) {
    |kids| >= 2 && Arrangement(order, |kids|)
  }

  ghost function LeftKeys(kids: seq<Tree>, order: seq<nat>): seq<Key>
    requires Splittable(kids, order)
  {
    Pick(EntryKeys(kids), order[..|kids| / 2])
  }

  ghost function RightKeys(kids: seq<Tree>, order: seq<nat>): seq<Key>
    requires Splittable(kids, order)
  {
    Pick(EntryKeys(kids), order[|kids| / 2..])
  }

  /** The cut is safe for the half whose bounds have the shorter common prefix. */
  ghost predicate CanSplit(kids: seq<Tree>, order: seq<nat>) {
    && Splittable(kids, order)
    && var left, right := LeftKeys(kids, order), RightKeys(kids, order);
       AllSafe(LooserHalf(left, right), CutLength(left, right))
  }

  lemma {:induction false} PickedLeavesAreSafe(kids: seq<Tree>, offsets: seq<nat>, n: nat)
    requires AllLeaves(kids) && InRange(offsets, |kids|) && offsets != []
    ensures AllSafe(Pick(EntryKeys(kids), offsets), n)
  {
    var es := Pick(EntryKeys(kids), offsets);
    forall i | 0 <= i < |es|
      ensures Safe(es[i], Bounds(es).value, n)
    {
      LeafIsSafe(kids[offsets[i] - 1].value, Bounds(es).value, n);
    }
  }

  /** A page of leaf entries can always be split. */
  lemma {:induction false} LeafPageSplits(kids: seq<Tree>, order: seq<nat>)
    requires Splittable(kids, order) && AllLeaves(kids)
    ensures CanSplit(kids, order)
  {
    var n := CutLength(LeftKeys(kids, order), RightKeys(kids, order));
    PickedLeavesAreSafe(kids, order[..|kids| / 2], n);
    PickedLeavesAreSafe(kids, order[|kids| / 2..], n);
  }

  lemma {:induction false} PickedSound(kids: seq<Tree>, offsets: seq<nat>)
    requires AllSound(EntryKeys(kids)) && InRange(offsets, |kids|)
    ensures AllSound(Pick(EntryKeys(kids), offsets))
  {
    var es := Pick(EntryKeys(kids), offsets);
    forall i | 0 <= i < |es|
      ensures Sound(es[i])
    {
      assert es[i] == EntryKeys(kids)[offsets[i] - 1];
    }
  }

  /** So can any page whose halves have bounds with equally long common prefixes. */
  lemma {:induction false} EvenPageSplits(kids: seq<Tree>, order: seq<nat>)
    requires Splittable(kids, order) && TreesOk(kids)
    requires var left, right := LeftKeys(kids, order), RightKeys(kids, order);
             PrefixLength(Bounds(left).value) == PrefixLength(Bounds(right).value)
    ensures CanSplit(kids, order)
  {
    EntriesSound(kids);
    PickedSound(kids, order[..|kids| / 2]);
    OwnHalfIsSafe(LeftKeys(kids, order));
  }

  /** One half of a split page, its key cut to n bytes. */
  function HalfNode(kids: seq<Tree>, half: seq<nat>, n: nat): Tree
    requires InRange(half, |kids|) && half != []
  {
    Node(CutKey(Bounds(Pick(EntryKeys(kids), half)).value, n), PickTrees(kids, half))
  }

  ghost function CutAt(kids: seq<Tree>, order: seq<nat>): nat
    requires Splittable(kids, order)
  {
    CutLength(LeftKeys(kids, order), RightKeys(kids, order))
  }

  ghost function Halves(kids: seq<Tree>, order: seq<nat>): (Tree, Tree)
    requires Splittable(kids, order)
  {
    var m, n := |kids| / 2, CutAt(kids, order);
    (HalfNode(kids, order[..m], n), HalfNode(kids, order[m..], n))
  }

  /** These are the halves and keys of gbt_var_picksplit. */
  lemma {:induction false} HalvesAreSplit(kids: seq<Tree>, order: seq<nat>)
    requires Splittable(kids, order)
    ensures var v, halves := SplitOf(EntryKeys(kids), order), Halves(kids, order);
            && halves.0 == Node(v.leftKey, PickTrees(kids, v.left))
            && halves.1 == Node(v.rightKey, PickTrees(kids, v.right))
  {
    var m := |kids| / 2;
    SplitParts(EntryKeys(kids), order, m);
  }

  lemma {:induction false} PickedKeys(kids: seq<Tree>, offsets: seq<nat>)
    requires InRange(offsets, |kids|)
    ensures EntryKeys(PickTrees(kids, offsets)) == Pick(EntryKeys(kids), offsets)
  {
    var a, b := EntryKeys(PickTrees(kids, offsets)), Pick(EntryKeys(kids), offsets);
    assert |a| == |b|;
    forall i | 0 <= i < |offsets|
      ensures a[i] == b[i]
    {
      assert a[i] == EntryKey(PickTrees(kids, offsets)[i]);
    }
  }

  lemma {:induction false} EachIsOk(ts: seq<Tree>, i: nat)
    requires TreesOk(ts) && i < |ts|
    ensures TreesOk([ts[i]])
  {
    assert [ts[i]][1..] == [];
    if i > 0 {
      EachIsOk(ts[1..], i - 1);
    }
  }

  lemma {:induction false} AllAreOk(ts: seq<Tree>)
    requires forall i :: 0 <= i < |ts| ==> TreesOk([ts[i]])
    ensures TreesOk(ts)
  {
    if ts != [] {
      AllAreOk(ts[1..]);
      assert TreesOk([ts[0]]);
    }
  }

  lemma {:induction false} PickedAreOk(kids: seq<Tree>, offsets: seq<nat>)
    requires TreesOk(kids) && InRange(offsets, |kids|)
    ensures TreesOk(PickTrees(kids, offsets))
  {
    var ts := PickTrees(kids, offsets);
    forall i | 0 <= i < |ts|
      ensures TreesOk([ts[i]])
    {
      EachIsOk(kids, offsets[i] - 1);
    }
    AllAreOk(ts);
  }

  lemma {:induction false} HalfIsOk(kids: seq<Tree>, half: seq<nat>, n: nat)
    requires TreesOk(kids) && InRange(half, |kids|) && half != []
    requires n >= PrefixLength(Bounds(Pick(EntryKeys(kids), half)).value) + 2 && AllSafe(Pick(EntryKeys(kids), half), n)
    ensures TreesOk([HalfNode(kids, half, n)])
  {
    PickedKeys(kids, half);
    PickedAreOk(kids, half);
    SafeHalfIsOk(PickTrees(kids, half), n);
  }

  lemma {:induction false} BothAreSafe(kids: seq<Tree>, order: seq<nat>)
    requires TreesOk(kids) && CanSplit(kids, order)
    ensures AllSafe(LeftKeys(kids, order), CutAt(kids, order)) && AllSafe(RightKeys(kids, order), CutAt(kids, order))
  {
    EntriesSound(kids);
    TighterHalfIsSafe(LeftKeys(kids, order), RightKeys(kids, order));
  }

  lemma {:induction false} LeftIsOk(kids: seq<Tree>, order: seq<nat>)
    requires TreesOk(kids) && Splittable(kids, order) && AllSafe(LeftKeys(kids, order), CutAt(kids, order))
    ensures TreesOk([Halves(kids, order).0])
  {
    HalfIsOk(kids, order[..|kids| / 2], CutAt(kids, order));
  }

  lemma {:induction false} RightIsOk(kids: seq<Tree>, order: seq<nat>)
    requires TreesOk(kids) && Splittable(kids, order) && AllSafe(RightKeys(kids, order), CutAt(kids, order))
    ensures TreesOk([Halves(kids, order).1])
  {
    HalfIsOk(kids, order[|kids| / 2..], CutAt(kids, order));
  }

  lemma {:induction false} HalvesAreOk(kids: seq<Tree>, order: seq<nat>)
    requires TreesOk(kids) && CanSplit(kids, order)
    ensures TreesOk([Halves(kids, order).0]) && TreesOk([Halves(kids, order).1])
  {
    BothAreSafe(kids, order);
    LeftIsOk(kids, order);
    RightIsOk(kids, order);
  }

  /** Position o is taken out: later positions move down by one. */
  function Without(order: seq<nat>, o: nat): (r: seq<nat>)
    ensures |r| == |order|
  {
    seq(|order|, i requires 0 <= i < |order| => if order[i] > o then order[i] - 1 else order[i])
  }

  lemma WithoutIsArrangement(order: seq<nat>, n: nat)
    requires n > 0 && Arrangement(order, n)
    ensures Arrangement(Without(order[..n - 1], order[n - 1]), n - 1)
  {
    var o, rest := order[n - 1], order[..n - 1];
    forall i | 0 <= i < n - 1
      ensures rest[i] != o && 1 <= Without(rest, o)[i] <= n - 1
    {
      assert order[i] != order[n - 1];
    }
  }

  lemma {:induction false} PickLast(ts: seq<Tree>, order: seq<nat>)
    requires ts != [] && Arrangement(order, |ts|)
    ensures var o := order[|ts| - 1];
            var fewer, order' := ts[..o - 1] + ts[o..], Without(order[..|ts| - 1], o);
            InRange(order', |fewer|) && PickTrees(ts, order) == PickTrees(fewer, order') + [ts[o - 1]]
  {
    var n := |ts|;
    var o := order[n - 1];
    var fewer, order' := ts[..o - 1] + ts[o..], Without(order[..n - 1], o);
    WithoutIsArrangement(order, n);
    forall i | 0 <= i < n - 1
      ensures PickTrees(fewer, order')[i] == PickTrees(ts, order)[i]
    {
      assert order[i] != order[n - 1];
    }
  }

  lemma {:induction false} ValuesAround(a: seq<Tree>, t: Tree, c: seq<Tree>)
    ensures multiset(Values(a + c)) + multiset(Values([t])) == multiset(Values(a + ([t] + c)))
  {
    ValuesConcat(a, [t] + c);
    ValuesConcat([t], c);
    ValuesConcat(a, c);
  }

  lemma {:induction false} Around(ts: seq<Tree>, k: nat)
    requires k < |ts|
    ensures ts[..k] + ([ts[k]] + ts[k + 1..]) == ts && ts[..k] + [ts[k]] + ts[k + 1..] == ts
  {
    Assoc(ts[..k], [ts[k]], ts[k + 1..]);
  }

  lemma {:induction false} TakenOut(ts: seq<Tree>, k: nat)
    requires k < |ts|
    ensures multiset(Values(ts[..k] + ts[k + 1..])) + multiset(Values([ts[k]])) == multiset(Values(ts))
  {
    Around(ts, k);
    ValuesAround(ts[..k], ts[k], ts[k + 1..]);
  }

  lemma {:induction false} LastValues(ts: seq<Tree>, order: seq<nat>)
    requires ts != [] && Arrangement(order, |ts|)
    ensures var o := order[|ts| - 1];
            var fewer, order' := ts[..o - 1] + ts[o..], Without(order[..|ts| - 1], o);
            InRange(order', |fewer|) && multiset(Values(PickTrees(ts, order)))
                                        == multiset(Values(PickTrees(fewer, order'))) + multiset(Values([ts[o - 1]]))
  {
    var o := order[|ts| - 1];
    PickLast(ts, order);
    ValuesConcat(PickTrees(ts[..o - 1] + ts[o..], Without(order[..|ts| - 1], o)), [ts[o - 1]]);
  }

  /** Entries put into another order have the same values below them. */
  lemma {:induction false} ArrangementKeepsValues(ts: seq<Tree>, order: seq<nat>)
    requires Arrangement(order, |ts|)
    ensures multiset(Values(PickTrees(ts, order))) == multiset(Values(ts))
    decreases |ts|
  {
    if ts == [] {
      assert PickTrees(ts, order) == [];
    } else {
      var o := order[|ts| - 1];
      WithoutIsArrangement(order, |ts|);
      ArrangementKeepsValues(ts[..o - 1] + ts[o..], Without(order[..|ts| - 1], o));
      LastValues(ts, order);
      TakenOut(ts, o - 1);
    }
  }

  lemma {:induction false} PartsKeepValues(kids: seq<Tree>, order: seq<nat>, m: nat)
    requires Arrangement(order, |kids|) && m <= |order|
    ensures multiset(Values(PickTrees(kids, order[..m])) + Values(PickTrees(kids, order[m..])))
            == multiset(Values(kids))
  {
    PickParts(kids, order, m);
    ValuesConcat(PickTrees(kids, order[..m]), PickTrees(kids, order[m..]));
    ArrangementKeepsValues(kids, order);
  }

  lemma {:induction false} PickParts(kids: seq<Tree>, order: seq<nat>, m: nat)
    requires InRange(order, |kids|) && m <= |order|
    ensures InRange(order[..m], |kids|) && InRange(order[m..], |kids|)
    ensures PickTrees(kids, order[..m]) + PickTrees(kids, order[m..]) == PickTrees(kids, order)
  {
    var l, r := PickTrees(kids, order[..m]), PickTrees(kids, order[m..]);
    forall i | 0 <= i < |order|
      ensures (l + r)[i] == PickTrees(kids, order)[i]
    {
      assert i < m ==> l[i] == kids[order[..m][i] - 1];
      assert i >= m ==> r[i - m] == kids[order[m..][i - m] - 1];
    }
  }

  /** A split moves the values of a page, it neither adds nor loses one. */
  lemma {:induction false} HalvesKeepValues(kids: seq<Tree>, order: seq<nat>)
    requires Splittable(kids, order)
    ensures multiset(Values([Halves(kids, order).0]) + Values([Halves(kids, order).1])) == multiset(Values(kids))
  {
    var halves := Halves(kids, order);
    NodeValues(halves.0);
    NodeValues(halves.1);
    PartsKeepValues(kids, order, |kids| / 2);
  }

  // ---------- one edit ----------

  ghost predicate CanEdit(ts: seq<Tree>, pos: nat, e: Edit) {
    match e
    case Add(_) => pos <= |ts| && AllLeaves(ts)
    case Drop => pos < |ts| && ts[pos].Leaf?
    case SplitPage(order) => pos < |ts| && ts[pos].Node? && CanSplit(ts[pos].kids, order)
  }

  /** The entries an edit takes off the page, and those it puts in their place. */
  ghost function OldEntries(ts: seq<Tree>, pos: nat, e: Edit): seq<Tree>
    requires CanEdit(ts, pos, e)
  {
    if e.Add? then [] else [ts[pos]]
  }

  ghost function NewEntries(ts: seq<Tree>, pos: nat, e: Edit): seq<Tree>
    requires CanEdit(ts, pos, e)
  {
    match e
    case Add(v) => [Leaf(v)]
    case Drop => []
    case SplitPage(order) => [Halves(ts[pos].kids, order).0, Halves(ts[pos].kids, order).1]
  }

  ghost function EditPage(ts: seq<Tree>, pos: nat, e: Edit): seq<Tree>
    requires CanEdit(ts, pos, e)
  {
    ts[..pos] + NewEntries(ts, pos, e) + ts[pos + |OldEntries(ts, pos, e)|..]
  }

  /** Every entry on the path but the last is an inner one. */
  ghost predicate Possible(ts: seq<Tree>, path: seq<nat>, e: Edit)
    decreases |path|
  {
    path != [] &&
    if |path| == 1 then CanEdit(ts, path[0], e)
    else path[0] < |ts| && ts[path[0]].Node? && Possible(ts[path[0]].kids, path[1..], e)
  }

  /** The key of an entry on the path to a new value is widened (gistgetadjusted); nothing else touches a key. */
  function Adjusted(key: Key, e: Edit): Key {
    if e.Add? then VarUnion([key, LeafKey(e.value)]) else key
  }

  ghost function Apply(ts: seq<Tree>, path: seq<nat>, e: Edit): seq<Tree>
    requires Possible(ts, path, e)
    decreases |path|
  {
    if |path| == 1 then EditPage(ts, path[0], e)
    else
      var node := ts[path[0]];
      ts[..path[0]] + [Node(Adjusted(node.key, e), Apply(node.kids, path[1..], e))] + ts[path[0] + 1..]
  }

  /** The value of the leaf entry at the end of the path. */
  ghost function ValueAt(ts: seq<Tree>, path: seq<nat>): Bytes
    requires Possible(ts, path, Drop)
    decreases |path|
  {
    if |path| == 1 then ts[path[0]].value else ValueAt(ts[path[0]].kids, path[1..])
  }

  /** What an edit adds to the values and what it takes away. */
  ghost function Added(e: Edit): multiset<Bytes> {
    if e.Add? then multiset{e.value} else multiset{}
  }

  ghost function Taken(ts: seq<Tree>, path: seq<nat>, e: Edit): multiset<Bytes>
    requires Possible(ts, path, e)
  {
    if e.Drop? then multiset{ValueAt(ts, path)} else multiset{}
  }

  ghost predicate Balanced(before: seq<Bytes>, taken: multiset<Bytes>, after: seq<Bytes>, added: multiset<Bytes>) {
    multiset(before) + added == multiset(after) + taken
  }

  lemma {:induction false} ThreeParts(a: seq<Tree>, m: seq<Tree>, c: seq<Tree>)
    ensures Values(a + m + c) == Values(a) + Values(m) + Values(c)
    ensures TreesOk(a + m + c) <==> TreesOk(a) && TreesOk(m) && TreesOk(c)
  {
    ValuesConcat(a + m, c);
    ValuesConcat(a, m);
  }

  lemma LeafIsOk(v: Bytes)
    ensures TreesOk([Leaf(v)]) && Values([Leaf(v)]) == [v]
  {
    assert [Leaf(v)][1..] == [];
  }

  lemma TwoTrees(a: Tree, b: Tree)
    requires TreesOk([a]) && TreesOk([b])
    ensures TreesOk([a, b]) && Values([a, b]) == Values([a]) + Values([b])
  {
    assert [a, b] == [a] + [b];
    ValuesConcat([a], [b]);
  }

  lemma {:induction false} EntriesAreOk(ts: seq<Tree>, pos: nat, e: Edit)
    requires TreesOk(ts) && CanEdit(ts, pos, e)
    ensures TreesOk(NewEntries(ts, pos, e))
    ensures Balanced(Values(OldEntries(ts, pos, e)), Taken(ts, [pos], e), Values(NewEntries(ts, pos, e)), Added(e))
  {
    match e
    case Add(v) => LeafIsOk(v);
    case Drop => LeafIsOk(ts[pos].value);
    case SplitPage(order) =>
      var halves := Halves(ts[pos].kids, order);
      EachIsOk(ts, pos);
      HalvesAreOk(ts[pos].kids, order);
      HalvesKeepValues(ts[pos].kids, order);
      TwoTrees(halves.0, halves.1);
      NodeValues(ts[pos]);
  }

  /** Entries in the middle of a page are replaced by others. */
  lemma ReplaceIsOk(a: seq<Tree>, m: seq<Tree>, m': seq<Tree>, c: seq<Tree>, taken: multiset<Bytes>,
                    added: multiset<Bytes>)
    requires TreesOk(a + m + c) && TreesOk(m') && Balanced(Values(m), taken, Values(m'), added)
    ensures TreesOk(a + m' + c) && Balanced(Values(a + m + c), taken, Values(a + m' + c), added)
  {
    ThreeParts(a, m, c);
    ThreeParts(a, m', c);
    BalancedAround(Values(a), Values(m), Values(m'), Values(c), taken, added);
  }

  lemma {:induction false} PageParts(ts: seq<Tree>, pos: nat, e: Edit)
    requires CanEdit(ts, pos, e)
    ensures ts == ts[..pos] + OldEntries(ts, pos, e) + ts[pos + |OldEntries(ts, pos, e)|..]
  {
    if e.Add? {
      assert ts[..pos] + [] == ts[..pos];
      assert ts[..pos] + ts[pos..] == ts;
    } else {
      Around(ts, pos);
    }
  }

  lemma {:induction false} EditIsOk(ts: seq<Tree>, pos: nat, e: Edit)
    requires TreesOk(ts) && CanEdit(ts, pos, e)
    ensures TreesOk(EditPage(ts, pos, e))
            && Balanced(Values(ts), Taken(ts, [pos], e), Values(EditPage(ts, pos, e)), Added(e))
  {
    var m, m' := OldEntries(ts, pos, e), NewEntries(ts, pos, e);
    PageParts(ts, pos, e);
    EntriesAreOk(ts, pos, e);
    ReplaceIsOk(ts[..pos], m, m', ts[pos + |m|..], Taken(ts, [pos], e), Added(e));
  }

  // ---------- along the path ----------

  lemma {:induction false} CoversMember(k: Key, vs: seq<Bytes>, v: Bytes)
    requires CoversAll(k, vs) && v in vs
    ensures Covers(k, v)
  {
    if v != vs[0] {
      CoversMember(k, vs[1..], v);
    }
  }

  lemma {:induction false} CoversMembers(k: Key, vs: seq<Bytes>)
    requires forall v :: v in vs ==> Covers(k, v)
    ensures CoversAll(k, vs)
  {
    if vs != [] {
      CoversMembers(k, vs[1..]);
    }
  }

  /** The adjusted key covers what was covered before and what has been added. */
  lemma AdjustedCovers(key: Key, e: Edit, v: Bytes)
    requires Sound(key) && (Covers(key, v) || v in Added(e))
    ensures Sound(Adjusted(key, e)) && Covers(Adjusted(key, e), v)
  {
    if e.Add? {
      var es := [key, LeafKey(e.value)];
      LeafIsSafe(e.value, key, 0);
      assert forall i :: 0 <= i < |es| ==> Sound(es[i]);
      UnionCovers(es, if Covers(key, v) then 0 else 1, v);
    }
  }

  lemma AdjustedIsSound(key: Key, e: Edit)
    requires Sound(key)
    ensures Sound(Adjusted(key, e))
  {
    if e.Add? {
      LeafIsSafe(e.value, key, 0);
      assert e.value in Added(e);
      AdjustedCovers(key, e, e.value);
    }
  }

  lemma AdjustedCoversAll(key: Key, e: Edit, before: seq<Bytes>, taken: multiset<Bytes>, after: seq<Bytes>)
    requires Sound(key) && CoversAll(key, before) && Balanced(before, taken, after, Added(e))
    ensures CoversAll(Adjusted(key, e), after)
  {
    forall v | v in after
      ensures Covers(Adjusted(key, e), v)
    {
      assert v in multiset(before) + Added(e);
      if v !in Added(e) {
        CoversMember(key, before, v);
      }
      AdjustedCovers(key, e, v);
    }
    CoversMembers(Adjusted(key, e), after);
  }

  lemma NodeStaysOk(node: Tree, e: Edit, kids: seq<Tree>, taken: multiset<Bytes>)
    requires node.Node? && TreesOk([node]) && TreesOk(kids)
             && Balanced(Values(node.kids), taken, Values(kids), Added(e))
    ensures TreesOk([Node(Adjusted(node.key, e), kids)])
  {
    AdjustedIsSound(node.key, e);
    AdjustedCoversAll(node.key, e, Values(node.kids), taken, Values(kids));
    assert [Node(Adjusted(node.key, e), kids)][1..] == [];
  }

  lemma BalancedAround(a: seq<Bytes>, m: seq<Bytes>, m': seq<Bytes>, c: seq<Bytes>, taken: multiset<Bytes>,
                       added: multiset<Bytes>)
    requires Balanced(m, taken, m', added)
    ensures Balanced(a + m + c, taken, a + m' + c, added)
  {
    calc {
      multiset(a + m + c) + added;
      (multiset(a) + multiset(c)) + (multiset(m) + added);
      (multiset(a) + multiset(c)) + (multiset(m') + taken);
      multiset(a + m' + c) + taken;
    }
  }

  /** An edit anywhere in the tree keeps every key sound, and changes the values as it says. */
  lemma {:induction false} ApplyIsOk(ts: seq<Tree>, path: seq<nat>, e: Edit)
    requires TreesOk(ts) && Possible(ts, path, e)
    ensures TreesOk(Apply(ts, path, e))
            && Balanced(Values(ts), Taken(ts, path, e), Values(Apply(ts, path, e)), Added(e))
    decreases |path|
  {
    if |path| == 1 {
      assert path == [path[0]];
      EditIsOk(ts, path[0], e);
    } else {
      var i := path[0];
      var node, a, c := ts[i], ts[..i], ts[i + 1..];
      assert ts == a + [node] + c;
      ThreeParts(a, [node], c);
      NodeValues(node);
      var kids := Apply(node.kids, path[1..], e);
      ApplyIsOk(node.kids, path[1..], e);
      NodeStaysOk(node, e, kids, Taken(node.kids, path[1..], e));
      var node' := Node(Adjusted(node.key, e), kids);
      ThreeParts(a, [node'], c);
      NodeValues(node');
      BalancedAround(Values(a), Values([node]), Values([node']), Values(c), Taken(ts, path, e), Added(e));
    }
  }

  // ---------- histories ----------

  datatype Step = At(path: seq<nat>, edit: Edit) | NewRoot

  ghost predicate Enabled(ts: seq<Tree>, step: Step) {
    match step
    case At(path, e) => Possible(ts, path, e)
    case NewRoot => ts != []
  }

  /** A new root has one entry, for the page that was the root before. */
  ghost function Do(ts: seq<Tree>, step: Step): seq<Tree>
    requires Enabled(ts, step)
  {
    match step
    case At(path, e) => Apply(ts, path, e)
    case NewRoot => [Node(VarUnion(EntryKeys(ts)), ts)]
  }

  ghost predicate ValidHistory(ts: seq<Tree>, steps: seq<Step>)
    decreases |steps|
  {
    steps == [] || (Enabled(ts, steps[0]) && ValidHistory(Do(ts, steps[0]), steps[1..]))
  }

  ghost function Final(ts: seq<Tree>, steps: seq<Step>): seq<Tree>
    requires ValidHistory(ts, steps)
    decreases |steps|
  {
    if steps == [] then ts else Final(Do(ts, steps[0]), steps[1..])
  }

  ghost function AddedBy(steps: seq<Step>): multiset<Bytes> {
    if steps == [] then multiset{}
    else (if steps[0].At? then Added(steps[0].edit) else multiset{}) + AddedBy(steps[1..])
  }

  ghost function TakenBy(ts: seq<Tree>, steps: seq<Step>): multiset<Bytes>
    requires ValidHistory(ts, steps)
    decreases |steps|
  {
    if steps == [] then multiset{}
    else
      (if steps[0].At? then Taken(ts, steps[0].path, steps[0].edit) else multiset{})
      + TakenBy(Do(ts, steps[0]), steps[1..])
  }

  lemma StepIsOk(ts: seq<Tree>, step: Step)
    requires TreesOk(ts) && Enabled(ts, step)
    ensures TreesOk(Do(ts, step))
    ensures Balanced(Values(ts), if step.At? then Taken(ts, step.path, step.edit) else multiset{},
                     Values(Do(ts, step)), if step.At? then Added(step.edit) else multiset{})
  {
    match step
    case At(path, e) => ApplyIsOk(ts, path, e);
    case NewRoot =>
      UnionNodeIsOk(ts);
      NodeValues(Node(VarUnion(EntryKeys(ts)), ts));
  }

  lemma BalancedThen(a: seq<Bytes>, taken: multiset<Bytes>, b: seq<Bytes>, added: multiset<Bytes>,
                     taken': multiset<Bytes>, c: seq<Bytes>, added': multiset<Bytes>)
    requires Balanced(a, taken, b, added) && Balanced(b, taken', c, added')
    ensures Balanced(a, taken + taken', c, added + added')
  {
    calc {
      multiset(a) + (added + added');
      (multiset(a) + added) + added';
      (multiset(b) + taken) + added';
      (multiset(b) + added') + taken;
      (multiset(c) + taken') + taken;
      multiset(c) + (taken + taken');
    }
  }

  lemma {:induction false} HistoryIsOk(ts: seq<Tree>, steps: seq<Step>)
    requires TreesOk(ts) && ValidHistory(ts, steps)
    ensures TreesOk(Final(ts, steps))
            && Balanced(Values(ts), TakenBy(ts, steps), Values(Final(ts, steps)), AddedBy(steps))
    decreases |steps|
  {
    if steps != [] {
      var step := steps[0];
      var next := Do(ts, step);
      StepIsOk(ts, step);
      HistoryIsOk(next, steps[1..]);
      BalancedThen(Values(ts), if step.At? then Taken(ts, step.path, step.edit) else multiset{},
                   Values(next), if step.At? then Added(step.edit) else multiset{},
                   TakenBy(next, steps[1..]), Values(Final(ts, steps)), AddedBy(steps[1..]));
    }
  }

  /** After any history from an empty index, a scan returns exactly the values that match, for all six operators, and
      the index holds exactly the values inserted and not removed. */
  lemma HistoryHidesNothing(steps: seq<Step>, query: Bytes, s: Strategy)
    requires ValidHistory([], steps)
    ensures Search(Final([], steps), query, s) == Filter(Values(Final([], steps)), query, s)
    ensures multiset(Values(Final([], steps))) + TakenBy([], steps) == AddedBy(steps)
  {
    HistoryIsOk([], steps);
    SearchIsFilter(Final([], steps), query, s);
  }

  // ---------- splitting a page of inner entries can lose a value ----------

  /** Two strings that differ first at position n. */
  lemma {:induction false} FirstDifference(a: Bytes, b: Bytes, n: nat)
    requires n < |a| && n < |b| && a[..n] == b[..n] && a[n] < b[n]
    ensures Le(a, b) && !Le(b, a) && CommonPrefix(a, b) == n && !PrefixOf(a, b) && !PrefixOf(b, a)
  {
    if n > 0 {
      assert a[0] == a[..n][0] == b[0] && a[1..][..n - 1] == a[..n][1..] && b[1..][..n - 1] == b[..n][1..];
      FirstDifference(a[1..], b[1..], n - 1);
      PrefixCons(a, b);
      PrefixCons(b, a);
    }
  }

  /** The union of two values that differ first at position n. */
  lemma UnionOfTwo(a: Bytes, b: Bytes, n: nat)
    requires n < |a| && n < |b| && a[..n] == b[..n] && a[n] < b[n]
    ensures VarUnion(EntryKeys([Leaf(a), Leaf(b)])) == CutKey(Key(a, b), n + 2)
  {
    FirstDifference(a, b, n);
    var es := EntryKeys([Leaf(a), Leaf(b)]);
    assert es == [LeafKey(a), LeafKey(b)] && es[1..] == [LeafKey(b)] && [LeafKey(b)][1..] == [];
    assert Fold(Key(a, b), []) == Key(a, b);
  }

  lemma BoundsOfTwo(a: Key, b: Key)
    ensures Bounds([a, b]) == Some(BinUnion(Some(a), b))
  {
    assert [a, b][1..] == [b] && [b][1..] == [];
    assert Fold(BinUnion(Some(a), b), []) == BinUnion(Some(a), b);
  }

  const LOST: Bytes := [97, 98, 122]

  /** A page of four entries, each with two leaves below it. */
  const KIDS0: seq<Tree> := [Leaf([95]), Leaf(LOST)]
  const KIDS1: seq<Tree> := [Leaf([97, 98, 98]), Leaf([97, 98, 99])]
  const KIDS2: seq<Tree> := [Leaf([98, 1]), Leaf([98, 2])]
  const KIDS3: seq<Tree> := [Leaf([98, 3]), Leaf([98, 4])]

  const ENTRY0 := Key([95], [97, 98])              // the upper bound LOST was cut to two bytes
  const ENTRY1 := Key([97, 98, 98], [97, 98, 99])
  const ENTRY2 := Key([98, 1], [98, 2])
  const ENTRY3 := Key([98, 3], [98, 4])

  const PAGE: seq<Tree> := [Node(ENTRY0, KIDS0), Node(ENTRY1, KIDS1), Node(ENTRY2, KIDS2), Node(ENTRY3, KIDS3)]

  lemma EntriesAreUnions()
    ensures ENTRY0 == VarUnion(EntryKeys(KIDS0)) && ENTRY1 == VarUnion(EntryKeys(KIDS1))
    ensures ENTRY2 == VarUnion(EntryKeys(KIDS2)) && ENTRY3 == VarUnion(EntryKeys(KIDS3))
  {
    UnionOfTwo([95], LOST, 0);
    assert LOST[..2] == [97, 98];
    UnionOfTwo([97, 98, 98], [97, 98, 99], 2);
    UnionOfTwo([98, 1], [98, 2], 1);
    UnionOfTwo([98, 3], [98, 4], 1);
  }

  lemma LeavesAreBuilt(a: Bytes, b: Bytes)
    ensures Built([Leaf(a), Leaf(b)])
  {
    assert [Leaf(a), Leaf(b)][1..] == [Leaf(b)] && [Leaf(b)][1..] == [];
  }

  /** Before the split the page is one that unions have made, so a scan finds the value. */
  lemma PageIsBuilt()
    ensures Built(PAGE)
  {
    EntriesAreUnions();
    LeavesAreBuilt([95], LOST);
    LeavesAreBuilt([97, 98, 98], [97, 98, 99]);
    LeavesAreBuilt([98, 1], [98, 2]);
    LeavesAreBuilt([98, 3], [98, 4]);
    assert PAGE[1..][1..] == PAGE[2..] && PAGE[2..][1..] == PAGE[3..] && PAGE[3..][1..] == [];
    assert Built(PAGE[3..]);
    assert Built(PAGE[2..]);
    assert Built(PAGE[1..]);
  }

  const LEFT_KEY := Key([95], [97, 98, 99])
  const RIGHT_KEY := Key([98, 1], [98, 4])

  lemma LeftBounds()
    ensures Bounds([ENTRY0, ENTRY1]) == Some(LEFT_KEY) && PrefixLength(LEFT_KEY) == 0
  {
    BoundsOfTwo(ENTRY0, ENTRY1);
    FirstDifference(ENTRY0.lower, ENTRY1.lower, 0);
    PrefixComesFirst(ENTRY0.upper, ENTRY1.upper);
    FirstDifference(LEFT_KEY.lower, LEFT_KEY.upper, 0);
  }

  lemma RightBounds()
    ensures Bounds([ENTRY2, ENTRY3]) == Some(RIGHT_KEY) && PrefixLength(RIGHT_KEY) == 1
  {
    BoundsOfTwo(ENTRY2, ENTRY3);
    FirstDifference(ENTRY2.lower, ENTRY3.lower, 1);
    FirstDifference(ENTRY2.upper, ENTRY3.upper, 1);
    FirstDifference(RIGHT_KEY.lower, RIGHT_KEY.upper, 1);
  }

  /** The entries are in the order of the sort already. */
  lemma PageIsSorted()
    ensures Lt(ENTRY0.lower, ENTRY1.lower) && Lt(ENTRY1.lower, ENTRY2.lower) && Lt(ENTRY2.lower, ENTRY3.lower)
  {
    FirstDifference(ENTRY0.lower, ENTRY1.lower, 0);
    FirstDifference(ENTRY1.lower, ENTRY2.lower, 0);
    FirstDifference(ENTRY2.lower, ENTRY3.lower, 1);
  }

  lemma PageKeys()
    ensures EntryKeys(PAGE) == [ENTRY0, ENTRY1, ENTRY2, ENTRY3]
  {
  }

  lemma PagePicks()
    ensures Pick([ENTRY0, ENTRY1, ENTRY2, ENTRY3], [1, 2]) == [ENTRY0, ENTRY1]
    ensures Pick([ENTRY0, ENTRY1, ENTRY2, ENTRY3], [3, 4]) == [ENTRY2, ENTRY3]
  {
  }

  /** What the split makes of them. */
  lemma PageSplits()
    ensures SplitOf([ENTRY0, ENTRY1, ENTRY2, ENTRY3], [1, 2, 3, 4]) == SplitVec([1, 2], [3, 4], LEFT_KEY, RIGHT_KEY)
  {
    var es, order: seq<nat> := [ENTRY0, ENTRY1, ENTRY2, ENTRY3], [1, 2, 3, 4];
    assert order[..2] == [1, 2] && order[2..] == [3, 4];
    PagePicks();
    LeftBounds();
    RightBounds();
    SplitParts(es, order, 2);
  }

  /** The tree after that split. */
  const SPLIT: seq<Tree> := [Node(LEFT_KEY, PAGE[..2]), Node(RIGHT_KEY, PAGE[2..])]

  lemma SplitIsPruned()
    ensures !Consistent(LEFT_KEY, LOST, Equal, false) && !Consistent(RIGHT_KEY, LOST, Equal, false)
  {
    FirstDifference(LEFT_KEY.upper, LOST, 2);
    FirstDifference(LEFT_KEY.lower, LOST, 0);
    FirstDifference(LOST, RIGHT_KEY.lower, 0);
    FirstDifference(LOST, RIGHT_KEY.upper, 0);
  }

  lemma LostIsBelow()
    ensures LOST in Values(PAGE) && Values(SPLIT) == Values(PAGE)
  {
    assert PAGE == [PAGE[0]] + PAGE[1..] && PAGE == PAGE[..2] + PAGE[2..];
    assert KIDS0[1..] == [Leaf(LOST)] && [Leaf(LOST)][1..] == [];
    assert Values([Leaf(LOST)]) == [LOST];
    assert Values(KIDS0) == [[95]] + [LOST];
    ValuesConcat(PAGE[..2], PAGE[2..]);
    NodeValues(SPLIT[0]);
    NodeValues(SPLIT[1]);
    assert SPLIT == [SPLIT[0]] + [SPLIT[1]];
    ValuesConcat([SPLIT[0]], [SPLIT[1]]);
  }

  lemma SearchMisses()
    ensures Search(SPLIT, LOST, Equal) == []
  {
    SplitIsPruned();
    assert SPLIT[1..] == [SPLIT[1]] && [SPLIT[1]][1..] == [];
    assert Search([SPLIT[1]], LOST, Equal) == [];
  }

  /** Four entries made by unions, and the split that gbt_var_picksplit makes of their page: an equality search for a
      value below them finds it before the split and does not find it afterwards. */
  lemma InnerSplitLoses()
    ensures Lt(ENTRY0.lower, ENTRY1.lower) && Lt(ENTRY1.lower, ENTRY2.lower) && Lt(ENTRY2.lower, ENTRY3.lower)
    ensures Built(PAGE) && SplitOf(EntryKeys(PAGE), [1, 2, 3, 4]) == SplitVec([1, 2], [3, 4], LEFT_KEY, RIGHT_KEY)
    ensures LOST in Values(PAGE) && Values(SPLIT) == Values(PAGE)
    ensures Search(PAGE, LOST, Equal) == Filter(Values(PAGE), LOST, Equal)
    ensures Search(SPLIT, LOST, Equal) == []
  {
    PageIsBuilt();
    TruncationHidesNothing(PAGE, LOST, Equal);
    PageIsSorted();
    PageKeys();
    PageSplits();
    LostIsBelow();
    SearchMisses();
  }
}
