/** The comparison of a scan key with an index tuple (_bt_compare with the keys amcheck builds) and the tests amcheck
    makes with it (invariant_l_offset, invariant_leq_offset, invariant_g_offset). Key attributes are integers, that
    is, any totally ordered values; the index is of the version that keeps heap TIDs as a last key attribute. */
module BtCompare {
  import opened Basics
  import opened BtPages

  /** Offset of the first item with a key of its own. */
  function FirstReal(p: BtPage): nat {
    if p.leaf then FirstDataKey(p) else FirstDataKey(p) + 1
  }

  /** An insertion scan key: leading key attributes, and the heap TID if there is one. */
  datatype Key = Key(atts: seq<int>, tid: Option<int>)

  /** bt_mkscankey_pivotsearch */
  function KeyOf(it: Item): Key {
    Key(it.atts, if it.tids == [] then None else Some(it.tids[0]))
  }

  function Sign(a: int, b: int): int {
    if a < b then -1 else if a > b then 1 else 0
  }

  // ---------- _bt_compare ----------

  /** The first difference among the attributes both have. */
  function CompareAtts(a: seq<int>, b: seq<int>): int {
    if a == [] || b == [] then 0
    else if a[0] != b[0] then Sign(a[0], b[0])
    else CompareAtts(a[1..], b[1..])
  }

  /** A scan key TID within the range of a posting list counts as equal. */
  function CompareTid(tid: Option<int>, tids: seq<int>): int {
    if tid.None? then 0
    else if tids == [] then 1
    else
      var first := Sign(tid.value, tids[0]);
      if first <= 0 || |tids| == 1 then first
      else if tid.value > tids[|tids| - 1] then 1 else 0
  }

  function Compare(key: Key, p: BtPage, offset: nat): int
    requires 1 <= offset <= |p.items|
  {
    if NegativeInfinity(p, offset) then 1
    else
      var it := p.items[offset - 1];
      var atts := CompareAtts(key.atts, it.atts);
      if atts != 0 then atts
      else if |key.atts| > |it.atts| then 1
      else CompareTid(key.tid, it.tids)
  }

  /** _bt_compare with its loop over the attributes. */
  method CompareLoop(key: Key, p: BtPage, offset: nat) returns (r: int)
    requires 1 <= offset <= |p.items|
    ensures r == Compare(key, p, offset)
  {
    if NegativeInfinity(p, offset) {
      return 1;
    }
    var it := p.items[offset - 1];
    var ncmpkey := if |it.atts| < |key.atts| then |it.atts| else |key.atts|;
    var i := 0;
    while i < ncmpkey
      invariant i <= ncmpkey
      invariant CompareAtts(key.atts, it.atts) == CompareAtts(key.atts[i..], it.atts[i..])
    {
      r := Sign(key.atts[i], it.atts[i]);
      if r != 0 {
        return r;
      }
      assert key.atts[i..][1..] == key.atts[i + 1..] && it.atts[i..][1..] == it.atts[i + 1..];
      i := i + 1;
    }
    if |key.atts| > |it.atts| {
      return 1;
    }
    r := CompareTid(key.tid, it.tids);
  }

  // ---------- the three tests ----------

  predicate InvariantL(key: Key, p: BtPage, upper: nat)
    requires 1 <= upper <= |p.items|
  {
    var cmp := Compare(key, p, upper);
    if cmp == 0 then
      var it := p.items[upper - 1];
      if |key.atts| == |it.atts| then key.tid.None? && it.tids != [] else |key.atts| < |it.atts|
    else cmp < 0
  }

  predicate InvariantLeq(key: Key, p: BtPage, upper: nat)
    requires 1 <= upper <= |p.items|
  {
    Compare(key, p, upper) <= 0
  }

  predicate InvariantG(key: Key, p: BtPage, lower: nat)
    requires 1 <= lower <= |p.items|
  {
    Compare(key, p, lower) > 0
  }

  // ---------- what they mean: dictionary order, with missing attributes lowest ----------

  /** The whole key, heap TID last; attributes cut off at the end are just not there. */
  function Rank(it: Item): seq<int> {
    it.atts + if it.tids == [] then [] else [it.tids[0]]
  }

  /** The same with the highest heap TID. */
  function TopRank(it: Item): seq<int> {
    it.atts + if it.tids == [] then [] else [it.tids[|it.tids| - 1]]
  }

  /** Dictionary order: a proper prefix comes first. */
  predicate Before(s: seq<int>, t: seq<int>) {
    t != [] && (s == [] || s[0] < t[0] || (s[0] == t[0] && Before(s[1..], t[1..])))
  }

  lemma {:induction false} BeforeIsTransitive(s: seq<int>, t: seq<int>, u: seq<int>)
    requires Before(s, t) && Before(t, u)
    ensures Before(s, u)
  {
    if s != [] && s[0] == t[0] && t[0] == u[0] {
      BeforeIsTransitive(s[1..], t[1..], u[1..]);
    }
  }

  lemma {:induction false} BeforeIsTotal(s: seq<int>, t: seq<int>)
    ensures !Before(s, s)
    ensures Before(s, t) || s == t || Before(t, s)
    ensures !(Before(s, t) && Before(t, s))
  {
    if s != [] {
      BeforeIsTotal(s[1..], s[1..]);
      if t != [] {
        BeforeIsTotal(s[1..], t[1..]);
        assert s == [s[0]] + s[1..] && t == [t[0]] + t[1..];
      }
    }
  }

  /** A heap TID stands only behind a full set of attributes. */
  predicate Shaped(nkey: nat, atts: seq<int>, tids: seq<int>) {
    |atts| <= nkey && (tids != [] ==> |atts| == nkey)
  }

  lemma {:induction false} BeforeByParts(a: seq<int>, x: seq<int>, b: seq<int>, y: seq<int>)
    requires |a| < |b| ==> x == []
    requires |b| < |a| ==> y == []
    ensures Before(a + x, b + y) <==>
              CompareAtts(a, b) < 0 || (CompareAtts(a, b) == 0 && (|a| < |b| || (|a| == |b| && Before(x, y))))
  {
    if a == [] {
      assert a + x == x;
      if b == [] {
        assert b + y == y;
      }
    } else if b == [] {
      assert b + y == [];
    } else {
      assert (a + x)[1..] == a[1..] + x && (b + y)[1..] == b[1..] + y;
      BeforeByParts(a[1..], x, b[1..], y);
    }
  }

  lemma BeforeSingles(x: int, y: int)
    ensures Before([x], [y]) <==> x < y
    ensures !Before([x], []) && Before([], [y]) && !Before([], [])
  {
  }

  function TidOf(key: Key): seq<int> {
    if key.tid.Some? then [key.tid.value] else []
  }

  lemma TestL(nkey: nat, key: Key, p: BtPage, offset: nat)
    requires 1 <= offset <= |p.items| && !NegativeInfinity(p, offset)
    requires Shaped(nkey, key.atts, TidOf(key)) && Shaped(nkey, p.items[offset - 1].atts, p.items[offset - 1].tids)
    ensures InvariantL(key, p, offset) <==> Before(key.atts + TidOf(key), Rank(p.items[offset - 1]))
  {
    var it := p.items[offset - 1];
    var y := if it.tids == [] then [] else [it.tids[0]];
    BeforeByParts(key.atts, TidOf(key), it.atts, y);
    if key.tid.Some? && it.tids != [] {
      BeforeSingles(key.tid.value, it.tids[0]);
    }
  }

  /** Equal to a tuple without posting list, or before it. */
  lemma TestLeq(nkey: nat, key: Key, p: BtPage, offset: nat)
    requires 1 <= offset <= |p.items| && !NegativeInfinity(p, offset) && |p.items[offset - 1].tids| <= 1
    requires Shaped(nkey, key.atts, TidOf(key)) && Shaped(nkey, p.items[offset - 1].atts, p.items[offset - 1].tids)
    requires |key.atts| == nkey && key.tid.Some?
    ensures InvariantLeq(key, p, offset) <==> !Before(Rank(p.items[offset - 1]), key.atts + TidOf(key))
  {
    var it := p.items[offset - 1];
    var y := if it.tids == [] then [] else [it.tids[0]];
    BeforeByParts(it.atts, y, key.atts, TidOf(key));
    CompareAttsFlips(it.atts, key.atts);
    if it.tids != [] {
      BeforeSingles(it.tids[0], key.tid.value);
    }
  }

  lemma {:induction false} CompareAttsFlips(a: seq<int>, b: seq<int>)
    ensures CompareAtts(a, b) == -CompareAtts(b, a)
  {
    if a != [] && b != [] && a[0] == b[0] {
      CompareAttsFlips(a[1..], b[1..]);
    }
  }

  predicate Ascending(tids: seq<int>) {
    forall i :: 0 < i < |tids| ==> tids[i - 1] < tids[i]
  }

  lemma {:induction false} AscendingFirstLast(tids: seq<int>)
    requires Ascending(tids) && tids != []
    ensures tids[0] <= tids[|tids| - 1]
  {
    if |tids| > 1 {
      AscendingFirstLast(tids[..|tids| - 1]);
    }
  }

  /** Greater than the whole posting list. */
  lemma TestG(nkey: nat, key: Key, p: BtPage, offset: nat)
    requires 1 <= offset <= |p.items| && !NegativeInfinity(p, offset) && Ascending(p.items[offset - 1].tids)
    requires Shaped(nkey, key.atts, TidOf(key)) && Shaped(nkey, p.items[offset - 1].atts, p.items[offset - 1].tids)
    ensures InvariantG(key, p, offset) <==> Before(TopRank(p.items[offset - 1]), key.atts + TidOf(key))
  {
    var it := p.items[offset - 1];
    var y := if it.tids == [] then [] else [it.tids[|it.tids| - 1]];
    BeforeByParts(it.atts, y, key.atts, TidOf(key));
    CompareAttsFlips(it.atts, key.atts);
    if it.tids != [] {
      AscendingFirstLast(it.tids);
      if key.tid.Some? {
        BeforeSingles(it.tids[|it.tids| - 1], key.tid.value);
      }
    }
  }
}
