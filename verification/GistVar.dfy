/** Keys of the variable-length GiST operator classes (btree_utils_var.c) for bytea: an inner key is a pair of
    bounds that may be cut to the common prefix plus two bytes, so its upper bound need not bound what lies below. */
module GistVar {
  import opened Basics

  type Byte = b: nat | b < 256

  /** A bytea value. */
  type Bytes = seq<Byte>

  /** GBT_VARKEY_R: both bounds of an entry; a leaf entry has its value as both. */
  datatype Key = Key(lower: Bytes, upper: Bytes)

  function LeafKey(v: Bytes): Key {
    Key(v, v)
  }

  // ---------- byte order ----------

  /** byteacmp(a, b) <= 0: unsigned bytes first, then length. */
  predicate Le(a: Bytes, b: Bytes) {
    a == [] || (b != [] && (a[0] < b[0] || (a[0] == b[0] && Le(a[1..], b[1..]))))
  }

  predicate Lt(a: Bytes, b: Bytes) {
    !Le(b, a)
  }

  lemma {:induction false} LeIsTotal(a: Bytes, b: Bytes)
    ensures Le(a, a)
    ensures Le(a, b) || Le(b, a)
    ensures Le(a, b) && Le(b, a) ==> a == b
  {
    if a != [] {
      LeIsTotal(a[1..], a[1..]);
      if b != [] {
        LeIsTotal(a[1..], b[1..]);
        assert a == [a[0]] + a[1..] && b == [b[0]] + b[1..];
      }
    }
  }

  lemma {:induction false} LeIsTransitive(a: Bytes, b: Bytes, c: Bytes)
    requires Le(a, b) && Le(b, c)
    ensures Le(a, c)
  {
    if a != [] && a[0] == b[0] && b[0] == c[0] {
      LeIsTransitive(a[1..], b[1..], c[1..]);
    }
  }

  // ---------- prefixes ----------

  /** gbt_bytea_pf_match: p is a prefix of q. */
  predicate PrefixOf(p: Bytes, q: Bytes) {
    |p| <= |q| && q[..|p|] == p
  }

  lemma PrefixCons(p: Bytes, q: Bytes)
    requires p != []
    ensures PrefixOf(p, q) <==> q != [] && p[0] == q[0] && PrefixOf(p[1..], q[1..])
  {
    if PrefixOf(p, q) {
      assert q[1..][..|p| - 1] == q[..|p|][1..];
      assert q[..|p|][0] == q[0];
    }
    if q != [] && p[0] == q[0] && PrefixOf(p[1..], q[1..]) {
      assert q[..|p|] == [q[0]] + q[1..][..|p| - 1];
      assert p == [p[0]] + p[1..];
    }
  }

  function CommonPrefix(a: Bytes, b: Bytes): nat {
    if a == [] || b == [] || a[0] != b[0] then 0 else 1 + CommonPrefix(a[1..], b[1..])
  }

  /** The prefix of at most n bytes that gbt_var_node_truncate keeps. */
  function Cut(a: Bytes, n: nat): Bytes {
    if |a| <= n then a else a[..n]
  }

  lemma CutCons(a: Bytes, n: nat)
    requires a != [] && n > 0
    ensures Cut(a, n) != [] && Cut(a, n)[0] == a[0] && Cut(a, n)[1..] == Cut(a[1..], n - 1)
  {
  }

  /** Cutting keeps a bound from below. */
  lemma {:induction false} CutIsBelow(a: Bytes, n: nat)
    ensures Le(Cut(a, n), a) && PrefixOf(Cut(a, n), a) && |Cut(a, n)| <= n
  {
    if a != [] && n > 0 {
      CutCons(a, n);
      CutIsBelow(a[1..], n - 1);
      PrefixCons(Cut(a, n), a);
    }
  }

  /** A value that leaves a cut bound behind has that bound as a prefix. */
  lemma {:induction false} CutBoundsOrStarts(v: Bytes, u: Bytes, n: nat)
    requires Le(v, u)
    ensures Le(v, Cut(u, n)) || (PrefixOf(Cut(u, n), v) && |Cut(u, n)| == n)
  {
    if n == 0 {
      assert Cut(u, 0) == [] || u == [];
    } else if u != [] && v != [] && v[0] == u[0] {
      CutCons(u, n);
      CutBoundsOrStarts(v[1..], u[1..], n - 1);
      PrefixCons(Cut(u, n), v);
    } else if u != [] {
      CutCons(u, n);
    }
  }

  lemma {:induction false} CutKeepsCommonPrefix(a: Bytes, b: Bytes, n: nat)
    requires n >= CommonPrefix(a, b)
    ensures CommonPrefix(Cut(a, n), Cut(b, n)) == CommonPrefix(a, b)
  {
    if a != [] && b != [] && a[0] == b[0] {
      CutCons(a, n);
      CutCons(b, n);
      CutKeepsCommonPrefix(a[1..], b[1..], n - 1);
    } else if n > 0 {
      if a != [] {
        CutCons(a, n);
      }
      if b != [] {
        CutCons(b, n);
      }
    }
  }

  /** Between a string and one of its extensions lie only its extensions. */
  lemma {:induction false} BetweenExtends(p: Bytes, q: Bytes, v: Bytes)
    requires Le(p, q) && Le(q, v) && PrefixOf(p, v)
    ensures PrefixOf(p, q)
  {
    if p != [] {
      PrefixCons(p, v);
      BetweenExtends(p[1..], q[1..], v[1..]);
      PrefixCons(p, q);
    }
  }

  /** Widening a range to the left can only shorten the common prefix of its bounds. */
  lemma {:induction false} WiderHasShorterPrefix(l: Bytes, l1: Bytes, u: Bytes)
    requires Le(l, l1) && Le(l1, u)
    ensures CommonPrefix(l, u) <= CommonPrefix(l1, u)
  {
    if l != [] && u != [] && l[0] == u[0] {
      WiderHasShorterPrefix(l[1..], l1[1..], u[1..]);
    }
  }

  /** Extending the upper bound beyond the first difference leaves the common prefix as it is. */
  lemma {:induction false} ExtensionKeepsPrefix(l: Bytes, u: Bytes, x: Bytes)
    requires PrefixOf(u, x) && CommonPrefix(l, u) < |u|
    ensures CommonPrefix(l, x) == CommonPrefix(l, u)
  {
    PrefixCons(u, x);
    if l != [] && l[0] == u[0] {
      ExtensionKeepsPrefix(l[1..], u[1..], x[1..]);
    }
  }

  lemma {:induction false} PrefixIsBelow(p: Bytes, v: Bytes)
    requires PrefixOf(p, v)
    ensures Le(p, v)
  {
    if p != [] {
      PrefixCons(p, v);
      PrefixIsBelow(p[1..], v[1..]);
    }
  }

  /** A proper prefix comes first. */
  lemma {:induction false} PrefixComesFirst(a: Bytes, b: Bytes)
    requires PrefixOf(a, b) && |a| < |b|
    ensures Le(a, b) && !Le(b, a)
  {
    if a != [] {
      PrefixCons(a, b);
      PrefixComesFirst(a[1..], b[1..]);
    }
  }

  lemma {:induction false} PrefixIsTransitive(p: Bytes, q: Bytes, r: Bytes)
    requires PrefixOf(p, q) && PrefixOf(q, r)
    ensures PrefixOf(p, r)
  {
    assert r[..|p|] == r[..|q|][..|p|];
  }

  lemma {:induction false} CutIsMonotone(a: Bytes, b: Bytes, n: nat)
    requires Le(a, b)
    ensures Le(Cut(a, n), Cut(b, n))
  {
    if n > 0 && a != [] {
      CutCons(a, n);
      CutCons(b, n);
      if a[0] == b[0] {
        CutIsMonotone(a[1..], b[1..], n - 1);
      }
    }
  }

  // ---------- union and truncation ----------

  /** gbt_var_bin_union: widen the key so far, if there is one. */
  function BinUnion(u: Option<Key>, e: Key): Key {
    match u
    case None => e
    case Some(r) =>
      Key(if Lt(e.lower, r.lower) then e.lower else r.lower, if Lt(r.upper, e.upper) then e.upper else r.upper)
  }

  function Fold(u: Key, es: seq<Key>): Key
    decreases |es|
  {
    if es == [] then u else Fold(BinUnion(Some(u), es[0]), es[1..])
  }

  function PrefixLength(k: Key): nat {
    CommonPrefix(k.lower, k.upper)
  }

  /** gbt_var_node_truncate keeps one byte more than the length it is given. */
  function Truncate(k: Key, cpf: nat): Key {
    Key(Cut(k.lower, cpf + 1), Cut(k.upper, cpf + 1))
  }

  /** gbt_var_union */
  function VarUnion(es: seq<Key>): Key
    requires es != []
  {
    var k := Fold(es[0], es[1..]);
    Truncate(k, PrefixLength(k) + 1)
  }

  /** gbt_var_node_cp_len for single-byte characters. */
  method NodeCpLen(k: Key) returns (i: nat)
    ensures i == PrefixLength(k)
  {
    var ml := if |k.lower| < |k.upper| then |k.lower| else |k.upper|;
    i := 0;
    while i < ml
      invariant i <= ml && PrefixLength(k) == i + CommonPrefix(k.lower[i..], k.upper[i..])
    {
      if k.lower[i] != k.upper[i] {
        return;
      }
      assert k.lower[i..][1..] == k.lower[i + 1..] && k.upper[i..][1..] == k.upper[i + 1..];
      i := i + 1;
    }
  }

  method VarUnionLoop(es: seq<Key>) returns (out: Key)
    requires es != []
    ensures out == VarUnion(es)
  {
    out := es[0];
    var i := 1;
    while i < |es|
      invariant 1 <= i <= |es| && Fold(es[0], es[1..]) == Fold(out, es[i..])
    {
      assert es[i..][1..] == es[i + 1..];
      out := BinUnion(Some(out), es[i]);
      i := i + 1;
    }
    var plen := NodeCpLen(out);
    out := Truncate(out, plen + 1);
  }

  ghost predicate Sound(k: Key) {
    Le(k.lower, k.upper)
  }

  ghost predicate Within(e: Key, k: Key) {
    Le(k.lower, e.lower) && Le(e.upper, k.upper)
  }

  lemma WithinIsTransitive(a: Key, b: Key, c: Key)
    requires Within(a, b) && Within(b, c)
    ensures Within(a, c)
  {
    LeIsTransitive(c.lower, b.lower, a.lower);
    LeIsTransitive(a.upper, b.upper, c.upper);
  }

  lemma BinUnionHoldsBoth(u: Key, e: Key)
    requires Sound(u)
    ensures Within(u, BinUnion(Some(u), e)) && Within(e, BinUnion(Some(u), e)) && Sound(BinUnion(Some(u), e))
  {
    LeIsTotal(u.lower, e.lower);
    LeIsTotal(e.lower, u.lower);
    LeIsTotal(u.upper, e.upper);
    LeIsTotal(e.upper, u.upper);
    var k := BinUnion(Some(u), e);
    LeIsTransitive(k.lower, u.lower, u.upper);
    LeIsTransitive(k.lower, u.upper, k.upper);
  }

  lemma {:induction false} FoldHoldsAll(u: Key, es: seq<Key>, i: nat)
    requires Sound(u) && i <= |es|
    ensures Sound(Fold(u, es)) && Within(if i == 0 then u else es[i - 1], Fold(u, es))
    decreases |es|
  {
    LeIsTotal(u.lower, u.lower);
    LeIsTotal(u.upper, u.upper);
    if es != [] {
      var w := BinUnion(Some(u), es[0]);
      BinUnionHoldsBoth(u, es[0]);
      FoldHoldsAll(w, es[1..], 0);
      if i == 0 {
        WithinIsTransitive(u, w, Fold(w, es[1..]));
      } else if i == 1 {
        WithinIsTransitive(es[0], w, Fold(w, es[1..]));
      } else {
        FoldHoldsAll(w, es[1..], i - 1);
      }
    }
  }

  // ---------- what a key covers ----------

  /** The upper bound of this key may be a cut one: it is longer by two than the common prefix. */
  predicate MayBeCut(k: Key) {
    |k.upper| >= PrefixLength(k) + 2
  }

  /** The values that may lie below an entry with this key: those between its bounds, and, if the upper one may be
      cut, its extensions. */
  ghost predicate Covers(k: Key, v: Bytes) {
    Le(k.lower, v) && (Le(v, k.upper) || (MayBeCut(k) && PrefixOf(k.upper, v)))
  }

  /** The key of one half of a split, or of a union: the bounds of all entries, cut to n bytes. */
  function CutKey(k: Key, n: nat): Key {
    Key(Cut(k.lower, n), Cut(k.upper, n))
  }

  lemma CutKeyIsSound(k: Key, n: nat)
    requires Sound(k) && n >= PrefixLength(k)
    ensures Sound(CutKey(k, n)) && PrefixLength(CutKey(k, n)) == PrefixLength(k)
  {
    CutIsMonotone(k.lower, k.upper, n);
    CutKeepsCommonPrefix(k.lower, k.upper, n);
  }

  lemma CutKeepsBounded(k: Key, n: nat, v: Bytes)
    requires Sound(k) && n >= PrefixLength(k) + 2 && Le(k.lower, v) && Le(v, k.upper)
    ensures Covers(CutKey(k, n), v)
  {
    CutKeyIsSound(k, n);
    CutIsBelow(k.lower, n);
    LeIsTransitive(Cut(k.lower, n), k.lower, v);
    CutBoundsOrStarts(v, k.upper, n);
  }

  /** If e lies within k and k's upper bound extends e's, which may be cut, then k has no longer common prefix. */
  lemma PrefixLengthShrinks(e: Key, k: Key)
    requires Sound(e) && Within(e, k) && MayBeCut(e) && PrefixOf(e.upper, k.upper)
    ensures PrefixLength(k) <= PrefixLength(e)
  {
    LeIsTransitive(e.lower, e.upper, k.upper);
    WiderHasShorterPrefix(k.lower, e.lower, k.upper);
    ExtensionKeepsPrefix(e.lower, e.upper, k.upper);
  }

  predicate AllMax(s: Bytes) {
    s == [] || (s[0] == 255 && AllMax(s[1..]))
  }

  /** Cutting k to n bytes loses nothing that e covers: the cut bound is not longer than e's, or only by bytes 255. */
  predicate Safe(e: Key, k: Key, n: nat) {
    var t := Cut(k.upper, n);
    MayBeCut(e) && PrefixOf(e.upper, k.upper) && |e.upper| < |t| ==> AllMax(t[|e.upper|..])
  }

  lemma {:induction false} AboveMaxStarts(t: Bytes, p: Bytes, v: Bytes)
    requires PrefixOf(p, t) && PrefixOf(p, v) && AllMax(t[|p|..]) && Le(t, v)
    ensures PrefixOf(t, v)
    decreases |t|
  {
    if p != [] {
      PrefixCons(p, t);
      PrefixCons(p, v);
      assert t[1..][|p[1..]|..] == t[|p|..];
      AboveMaxStarts(t[1..], p[1..], v[1..]);
      PrefixCons(t, v);
    } else if t != [] {
      assert t[|p|..] == t;
      assert t[1..][0..] == t[1..];
      AboveMaxStarts(t[1..], [], v[1..]);
      PrefixCons(t, v);
    }
  }

  lemma PrefixesNest(p: Bytes, q: Bytes, s: Bytes)
    requires PrefixOf(p, s) && PrefixOf(q, s) && |p| <= |q|
    ensures PrefixOf(p, q)
  {
    assert s[..|q|][..|p|] == s[..|p|];
  }

  /** A value above all bounds, covered by e because it extends e's cut upper bound. */
  lemma SafeKeepsExtension(e: Key, k: Key, n: nat, v: Bytes)
    requires Sound(e) && Within(e, k) && n >= PrefixLength(k) + 2 && Safe(e, k, n)
    requires MayBeCut(e) && PrefixOf(e.upper, v) && Le(k.upper, v)
    ensures |Cut(k.upper, n)| >= PrefixLength(k) + 2 && PrefixOf(Cut(k.upper, n), v)
  {
    var t := Cut(k.upper, n);
    BetweenExtends(e.upper, k.upper, v);
    PrefixLengthShrinks(e, k);
    CutIsBelow(k.upper, n);
    if |t| <= |e.upper| {
      PrefixesNest(t, e.upper, k.upper);
      PrefixIsTransitive(t, e.upper, v);
    } else {
      PrefixesNest(e.upper, t, k.upper);
      LeIsTransitive(t, k.upper, v);
      AboveMaxStarts(t, e.upper, v);
    }
  }

  lemma SafeKeeps(e: Key, k: Key, n: nat, v: Bytes)
    requires Sound(e) && Sound(k) && Within(e, k) && n >= PrefixLength(k) + 2 && Safe(e, k, n) && Covers(e, v)
    ensures Covers(CutKey(k, n), v)
  {
    LeIsTransitive(k.lower, e.lower, v);
    LeIsTotal(v, k.upper);
    if Le(v, k.upper) {
      CutKeepsBounded(k, n, v);
    } else {
      LeIsTotal(v, e.upper);
      if Le(v, e.upper) {
        LeIsTransitive(v, e.upper, k.upper);
      }
      SafeKeepsExtension(e, k, n, v);
      CutKeyIsSound(k, n);
      CutIsBelow(k.lower, n);
      LeIsTransitive(Cut(k.lower, n), k.lower, v);
    }
  }

  lemma {:induction false} NotAllMax(s: Bytes) returns (j: nat)
    requires !AllMax(s)
    ensures j < |s| && s[j] < 255
  {
    if s[0] == 255 {
      var j' := NotAllMax(s[1..]);
      j := j' + 1;
    } else {
      j := 0;
    }
  }

  /** Raising one byte of t and dropping the rest gives a value above t that does not start with t. */
  lemma {:induction false} Raised(t: Bytes, j: nat)
    requires j < |t| && t[j] < 255
    ensures var v := t[..j] + [t[j] + 1]; !Le(v, t) && !PrefixOf(t, v)
  {
    var v := t[..j] + [t[j] + 1];
    assert |t| <= |v| ==> v[..|t|][j] == v[j];
    if j > 0 {
      Raised(t[1..], j - 1);
      assert v[1..] == t[1..][..j - 1] + [t[1..][j - 1] + 1];
    }
  }

  /** The value that an unsafe cut loses. */
  lemma UnsafeLoses(e: Key, k: Key, n: nat) returns (v: Bytes)
    requires Sound(e) && Within(e, k) && !Safe(e, k, n)
    ensures Covers(e, v) && !Covers(CutKey(k, n), v)
    ensures PrefixOf(e.upper, v) && !Le(v, Cut(k.upper, n)) && !PrefixOf(Cut(k.upper, n), v)
  {
    var t := Cut(k.upper, n);
    var j := NotAllMax(t[|e.upper|..]);
    var m := |e.upper| + j;
    v := t[..m] + [t[m] + 1];
    Raised(t, m);
    CutIsBelow(k.upper, n);
    PrefixesNest(e.upper, t, k.upper);
    assert v[..|e.upper|] == t[..|e.upper|];
    PrefixIsBelow(e.upper, v);
    LeIsTransitive(e.lower, e.upper, v);
  }

  /** Cutting the bounds k of several entries to n bytes keeps everything entry e covers exactly when it is safe. */
  lemma CutKeepsExactly(e: Key, k: Key, n: nat)
    requires Sound(e) && Sound(k) && Within(e, k) && n >= PrefixLength(k) + 2
    ensures (forall v :: Covers(e, v) ==> Covers(CutKey(k, n), v)) <==> Safe(e, k, n)
  {
    if Safe(e, k, n) {
      forall v | Covers(e, v)
        ensures Covers(CutKey(k, n), v)
      {
        SafeKeeps(e, k, n, v);
      }
    } else {
      var v := UnsafeLoses(e, k, n);
    }
  }

  /** A cut at the key's own common prefix plus two is always safe. */
  lemma OwnCutIsSafe(e: Key, k: Key)
    requires Sound(e) && Within(e, k)
    ensures Safe(e, k, PrefixLength(k) + 2)
  {
    if MayBeCut(e) && PrefixOf(e.upper, k.upper) {
      PrefixLengthShrinks(e, k);
    }
  }

  lemma {:induction false} SamePrefix(v: Bytes)
    ensures CommonPrefix(v, v) == |v|
  {
    if v != [] {
      SamePrefix(v[1..]);
    }
  }

  /** Leaf entries are never lost, wherever the cut. */
  lemma LeafIsSafe(v: Bytes, k: Key, n: nat)
    ensures Safe(LeafKey(v), k, n) && Sound(LeafKey(v)) && Covers(LeafKey(v), v)
  {
    SamePrefix(v);
    LeIsTotal(v, v);
  }

  /** The union key covers whatever its entries cover. */
  lemma UnionCovers(es: seq<Key>, i: nat, v: Bytes)
    requires i < |es| && (forall j :: 0 <= j < |es| ==> Sound(es[j])) && Covers(es[i], v)
    ensures Sound(VarUnion(es)) && Covers(VarUnion(es), v)
  {
    var k := Fold(es[0], es[1..]);
    FoldHoldsAll(es[0], es[1..], i);
    OwnCutIsSafe(es[i], k);
    SafeKeeps(es[i], k, PrefixLength(k) + 2, v);
    CutKeyIsSound(k, PrefixLength(k) + 2);
  }

  // ---------- gbt_var_consistent ----------

  datatype Strategy = Less | LessEqual | Equal | GreaterEqual | Greater | NotEqual

  /** What the operator of a strategy says about a value and a query. */
  predicate Matches(s: Strategy, v: Bytes, query: Bytes) {
    match s
    case Less => Lt(v, query)
    case LessEqual => Le(v, query)
    case Equal => v == query
    case GreaterEqual => Le(query, v)
    case Greater => Lt(query, v)
    case NotEqual => v != query
  }

  predicate PrefixMatch(k: Key, query: Bytes) {
    PrefixOf(k.lower, query) || PrefixOf(k.upper, query)
  }

  predicate Consistent(k: Key, query: Bytes, s: Strategy, leaf: bool) {
    match s
    case LessEqual => if leaf then Le(k.lower, query) else Le(k.lower, query) || PrefixMatch(k, query)
    case Less => if leaf then Lt(k.lower, query) else Le(k.lower, query) || PrefixMatch(k, query)
    case Equal => if leaf then query == k.lower else (Le(k.lower, query) && Le(query, k.upper)) || PrefixMatch(k, query)
    case Greater => if leaf then Lt(query, k.upper) else Le(query, k.upper) || PrefixMatch(k, query)
    case GreaterEqual => if leaf then Le(query, k.upper) else Le(query, k.upper) || PrefixMatch(k, query)
    case NotEqual => !(query == k.lower && query == k.upper)
  }

  lemma LeafConsistentIsExact(v: Bytes, query: Bytes, s: Strategy)
    ensures Consistent(LeafKey(v), query, s, true) <==> Matches(s, v, query)
  {
  }

  /** Bounds that coincide cannot be cut ones, so they cover one value. */
  lemma EqualBoundsCoverOne(k: Key, v: Bytes)
    requires k.lower == k.upper && Covers(k, v)
    ensures v == k.lower
  {
    SamePrefix(k.lower);
    LeIsTotal(v, k.lower);
  }

  /** An inner key that covers a matching value is never pruned. */
  lemma MatchIsNotPruned(k: Key, v: Bytes, query: Bytes, s: Strategy)
    requires Covers(k, v) && Matches(s, v, query)
    ensures Consistent(k, query, s, false)
  {
    LeIsTotal(v, query);
    LeIsTotal(query, v);
    match s
    case Less => LeIsTransitive(k.lower, v, query);
    case LessEqual => LeIsTransitive(k.lower, v, query);
    case Equal =>
    case GreaterEqual => AboveIsNotPruned(k, v, query);
    case Greater => AboveIsNotPruned(k, v, query);
    case NotEqual =>
      if k.lower == k.upper {
        EqualBoundsCoverOne(k, v);
      }
  }

  lemma AboveIsNotPruned(k: Key, v: Bytes, query: Bytes)
    requires Covers(k, v) && Le(query, v)
    ensures Le(query, k.upper) || PrefixOf(k.upper, query)
  {
    if Le(v, k.upper) {
      LeIsTransitive(query, v, k.upper);
    } else {
      LeIsTotal(query, k.upper);
      if !Le(query, k.upper) {
        BetweenExtends(k.upper, query, v);
      }
    }
  }

  // ---------- which cuts hide a value from a search ----------

  /** No search for a value that e covers passes key k by. */
  ghost predicate Finds(k: Key, e: Key) {
    forall v, query, s :: Covers(e, v) && Matches(s, v, query) ==> Consistent(k, query, s, false)
  }

  /** Searches also follow a key whose lower bound is a prefix of the query, so a cut that is not safe does no harm to
      an entry whose upper bound starts with the cut lower bound. */
  predicate Harmless(e: Key, k: Key, n: nat) {
    Safe(e, k, n) || PrefixOf(Cut(k.lower, n), e.upper)
  }

  /** A value above e's upper bound starts with k's lower bound, which is different from the upper one. */
  lemma {:induction false} StartIsNotPruned(k: Key, v: Bytes, query: Bytes, s: Strategy)
    requires Sound(k) && k.lower != k.upper && PrefixOf(k.lower, v) && Matches(s, v, query)
    ensures Consistent(k, query, s, false)
  {
    PrefixIsBelow(k.lower, v);
    LeIsTotal(v, query);
    match s
    case Less => LeIsTransitive(k.lower, v, query);
    case LessEqual => LeIsTransitive(k.lower, v, query);
    case Equal =>
    case GreaterEqual => StartAbove(k, v, query);
    case Greater => StartAbove(k, v, query);
    case NotEqual =>
  }

  lemma {:induction false} StartAbove(k: Key, v: Bytes, query: Bytes)
    requires Sound(k) && PrefixOf(k.lower, v) && Le(query, v)
    ensures Le(query, k.upper) || PrefixOf(k.lower, query)
  {
    LeIsTotal(query, k.upper);
    if !Le(query, k.upper) {
      LeIsTransitive(k.lower, k.upper, query);
      BetweenExtends(k.lower, query, v);
    }
  }

  lemma {:induction false} HarmlessFinds(e: Key, k: Key, n: nat, v: Bytes, query: Bytes, s: Strategy)
    requires Sound(e) && Sound(k) && Within(e, k) && n >= PrefixLength(k) + 2 && Harmless(e, k, n)
    requires Covers(e, v) && Matches(s, v, query)
    ensures Consistent(CutKey(k, n), query, s, false)
  {
    if Safe(e, k, n) {
      SafeKeeps(e, k, n, v);
      MatchIsNotPruned(CutKey(k, n), v, query, s);
    } else if Le(v, e.upper) {
      LeIsTransitive(k.lower, e.lower, v);
      LeIsTransitive(v, e.upper, k.upper);
      CutKeepsBounded(k, n, v);
      MatchIsNotPruned(CutKey(k, n), v, query, s);
    } else {
      CutKeyIsSound(k, n);
      PrefixIsTransitive(Cut(k.lower, n), e.upper, v);
      StartIsNotPruned(CutKey(k, n), v, query, s);
    }
  }

  /** The value that a harmful cut hides from an equality search. */
  lemma {:induction false} HarmfulHides(e: Key, k: Key, n: nat) returns (v: Bytes)
    requires Sound(e) && Within(e, k) && !Harmless(e, k, n)
    ensures Covers(e, v) && !Consistent(CutKey(k, n), v, Equal, false)
  {
    v := UnsafeLoses(e, k, n);
    var low := Cut(k.lower, n);
    if PrefixOf(low, v) {
      if |low| <= |e.upper| {
        PrefixesNest(low, e.upper, v);
      } else {
        PrefixesNest(e.upper, low, v);
        PrefixComesFirst(e.upper, low);
        CutIsBelow(k.lower, n);
        LeIsTransitive(low, k.lower, e.lower);
        LeIsTransitive(low, e.lower, e.upper);
      }
    }
  }

  /** Cutting the bounds k of several entries to n bytes hides nothing that entry e covers from any search exactly when
      it is harmless. */
  lemma {:induction false} CutFindsExactly(e: Key, k: Key, n: nat)
    requires Sound(e) && Sound(k) && Within(e, k) && n >= PrefixLength(k) + 2
    ensures Finds(CutKey(k, n), e) <==> Harmless(e, k, n)
  {
    if Harmless(e, k, n) {
      forall v, query, s | Covers(e, v) && Matches(s, v, query)
        ensures Consistent(CutKey(k, n), query, s, false)
      {
        HarmlessFinds(e, k, n, v, query, s);
      }
    } else {
      var v := HarmfulHides(e, k, n);
      assert Matches(Equal, v, v);
    }
  }

  // ---------- search in a tree ----------

  datatype Tree = Leaf(value: Bytes) | Node(key: Key, kids: seq<Tree>)

  function EntryKey(t: Tree): Key {
    if t.Leaf? then LeafKey(t.value) else t.key
  }

  function EntryKeys(ts: seq<Tree>): (ks: seq<Key>)
    ensures |ks| == |ts| && forall i :: 0 <= i < |ts| ==> ks[i] == EntryKey(ts[i])
  {
    if ts == [] then [] else [EntryKey(ts[0])] + EntryKeys(ts[1..])
  }

  /** The values below the entries of a page, left to right. */
  function Values(ts: seq<Tree>): seq<Bytes> {
    if ts == [] then [] else (if ts[0].Leaf? then [ts[0].value] else Values(ts[0].kids)) + Values(ts[1..])
  }

  /** What an index scan returns from a page: entries that are not consistent are not followed. */
  function Search(ts: seq<Tree>, query: Bytes, s: Strategy): seq<Bytes> {
    if ts == [] then []
    else
      var here :=
        if !Consistent(EntryKey(ts[0]), query, s, ts[0].Leaf?) then []
        else if ts[0].Leaf? then [ts[0].value] else Search(ts[0].kids, query, s);
      here + Search(ts[1..], query, s)
  }

  function Filter(vs: seq<Bytes>, query: Bytes, s: Strategy): seq<Bytes> {
    if vs == [] then [] else (if Matches(s, vs[0], query) then [vs[0]] else []) + Filter(vs[1..], query, s)
  }

  ghost predicate CoversAll(k: Key, vs: seq<Bytes>) {
    vs == [] || (Covers(k, vs[0]) && CoversAll(k, vs[1..]))
  }

  /** Every inner key covers every value below it. */
  ghost predicate TreesOk(ts: seq<Tree>) {
    ts == [] ||
    ((ts[0].Node? ==> Sound(ts[0].key) && CoversAll(ts[0].key, Values(ts[0].kids)) && TreesOk(ts[0].kids))
     && TreesOk(ts[1..]))
  }

  lemma {:induction false} FilterConcat(a: seq<Bytes>, b: seq<Bytes>, query: Bytes, s: Strategy)
    ensures Filter(a + b, query, s) == Filter(a, query, s) + Filter(b, query, s)
  {
    if a == [] {
      assert a + b == b;
    } else {
      assert (a + b)[1..] == a[1..] + b;
      FilterConcat(a[1..], b, query, s);
      Assoc(if Matches(s, a[0], query) then [a[0]] else [], Filter(a[1..], query, s), Filter(b, query, s));
    }
  }

  lemma {:induction false} PrunedHasNoMatch(k: Key, vs: seq<Bytes>, query: Bytes, s: Strategy)
    requires CoversAll(k, vs) && !Consistent(k, query, s, false)
    ensures Filter(vs, query, s) == []
  {
    if vs != [] {
      if Matches(s, vs[0], query) {
        MatchIsNotPruned(k, vs[0], query, s);
      }
      PrunedHasNoMatch(k, vs[1..], query, s);
    }
  }

  /** The scan returns exactly the matching values, in order. */
  lemma {:induction false} SearchIsFilter(ts: seq<Tree>, query: Bytes, s: Strategy)
    requires TreesOk(ts)
    ensures Search(ts, query, s) == Filter(Values(ts), query, s)
    decreases ts
  {
    if ts != [] {
      var t := ts[0];
      var vs := if t.Leaf? then [t.value] else Values(t.kids);
      SearchIsFilter(ts[1..], query, s);
      FilterConcat(vs, Values(ts[1..]), query, s);
      if t.Leaf? {
        LeafConsistentIsExact(t.value, query, s);
        assert [t.value][1..] == [];
      } else if Consistent(t.key, query, s, false) {
        SearchIsFilter(t.kids, query, s);
      } else {
        PrunedHasNoMatch(t.key, vs, query, s);
      }
    }
  }

  // ---------- keys built by union and by split ----------

  lemma {:induction false} TreesOkAt(ts: seq<Tree>, i: nat)
    requires TreesOk(ts) && i < |ts|
    ensures Sound(EntryKey(ts[i]))
    ensures if ts[i].Leaf? then Covers(EntryKey(ts[i]), ts[i].value) else CoversAll(ts[i].key, Values(ts[i].kids))
  {
    if i > 0 {
      TreesOkAt(ts[1..], i - 1);
    } else if ts[0].Leaf? {
      LeafIsSafe(ts[0].value, LeafKey(ts[0].value), 0);
    }
  }

  lemma {:induction false} CoversAllConcat(k: Key, a: seq<Bytes>, b: seq<Bytes>)
    requires CoversAll(k, a) && CoversAll(k, b)
    ensures CoversAll(k, a + b)
  {
    if a == [] {
      assert a + b == b;
    } else {
      assert (a + b)[1..] == a[1..] + b;
      CoversAllConcat(k, a[1..], b);
    }
  }

  /** What covers all that each entry covers covers all values below the entries. */
  ghost predicate CoversEntries(k: Key, es: seq<Key>) {
    forall i, v :: 0 <= i < |es| && Covers(es[i], v) ==> Covers(k, v)
  }

  lemma {:induction false} CoversAllBelow(k: Key, e: Key, vs: seq<Bytes>)
    requires CoversAll(e, vs) && (forall v :: Covers(e, v) ==> Covers(k, v))
    ensures CoversAll(k, vs)
  {
    if vs != [] {
      CoversAllBelow(k, e, vs[1..]);
    }
  }

  lemma {:induction false} CoversValues(k: Key, ts: seq<Tree>)
    requires TreesOk(ts) && CoversEntries(k, EntryKeys(ts))
    ensures CoversAll(k, Values(ts))
  {
    if ts != [] {
      TreesOkAt(ts, 0);
      var es := EntryKeys(ts);
      assert forall i :: 0 <= i < |es| - 1 ==> EntryKeys(ts[1..])[i] == es[i + 1];
      CoversValues(k, ts[1..]);
      var vs := if ts[0].Leaf? then [ts[0].value] else Values(ts[0].kids);
      if ts[0].Leaf? {
        assert Covers(es[0], ts[0].value);
        assert [ts[0].value][1..] == [];
      } else {
        CoversAllBelow(k, es[0], vs);
      }
      CoversAllConcat(k, vs, Values(ts[1..]));
    }
  }

  ghost predicate AllSound(es: seq<Key>) {
    forall i :: 0 <= i < |es| ==> Sound(es[i])
  }

  lemma EntriesSound(ts: seq<Tree>)
    requires TreesOk(ts)
    ensures AllSound(EntryKeys(ts))
  {
    forall i | 0 <= i < |ts|
      ensures Sound(EntryKeys(ts)[i])
    {
      TreesOkAt(ts, i);
    }
  }

  /** A parent entry is sound if its key covers whatever the entries below it cover. */
  lemma NodeIsOk(k: Key, ts: seq<Tree>)
    requires TreesOk(ts) && Sound(k) && CoversEntries(k, EntryKeys(ts))
    ensures TreesOk([Node(k, ts)])
  {
    CoversValues(k, ts);
    assert [Node(k, ts)][1..] == [];
  }

  lemma UnionCoversEntries(es: seq<Key>)
    requires es != [] && AllSound(es)
    ensures Sound(VarUnion(es)) && CoversEntries(VarUnion(es), es)
  {
    forall i, v | 0 <= i < |es| && Covers(es[i], v)
      ensures Covers(VarUnion(es), v)
    {
      UnionCovers(es, i, v);
    }
    FoldHoldsAll(es[0], es[1..], 0);
    CutKeyIsSound(Fold(es[0], es[1..]), PrefixLength(Fold(es[0], es[1..])) + 2);
  }

  /** A new parent entry made by gbt_var_union is sound. */
  lemma UnionNodeIsOk(ts: seq<Tree>)
    requires ts != [] && TreesOk(ts)
    ensures TreesOk([Node(VarUnion(EntryKeys(ts)), ts)])
  {
    EntriesSound(ts);
    UnionCoversEntries(EntryKeys(ts));
    NodeIsOk(VarUnion(EntryKeys(ts)), ts);
  }

  lemma {:induction false} ValuesConcat(a: seq<Tree>, b: seq<Tree>)
    ensures Values(a + b) == Values(a) + Values(b)
    ensures TreesOk(a + b) <==> TreesOk(a) && TreesOk(b)
  {
    if a == [] {
      assert a + b == b;
    } else {
      assert (a + b)[1..] == a[1..] + b;
      ValuesConcat(a[1..], b);
    }
  }

  lemma CoversValuesOf(k: Key, t: Tree)
    requires TreesOk([t]) && (forall v :: Covers(EntryKey(t), v) ==> Covers(k, v))
    ensures CoversAll(k, Values([t]))
  {
    assert EntryKeys([t])[0] == EntryKey(t);
    CoversValues(k, [t]);
  }

  lemma NodeValues(node: Tree)
    requires node.Node?
    ensures Values([node]) == Values(node.kids)
  {
    assert [node][1..] == [];
  }

  /** An entry whose page takes one more entry is adjusted by a union of the two keys. */
  lemma AdjustedNodeIsOk(node: Tree, kid: Tree)
    requires node.Node? && TreesOk([node]) && TreesOk([kid])
    ensures TreesOk([Node(VarUnion([node.key, EntryKey(kid)]), node.kids + [kid])])
  {
    var es := [node.key, EntryKey(kid)];
    var k := VarUnion(es);
    TreesOkAt([node], 0);
    TreesOkAt([kid], 0);
    UnionCoversEntries(es);
    assert es[0] == EntryKey(node) && es[1] == EntryKey(kid);
    CoversValuesOf(k, node);
    CoversValuesOf(k, kid);
    NodeValues(node);
    ValuesConcat(node.kids, [kid]);
    CoversAllConcat(k, Values(node.kids), Values([kid]));
    assert [Node(k, node.kids + [kid])][1..] == [];
  }

  // ---------- gbt_var_picksplit ----------

  predicate InRange(offsets: seq<nat>, n: nat) {
    forall i :: 0 <= i < |offsets| ==> 1 <= offsets[i] <= n
  }

  ghost predicate Arrangement(order: seq<nat>, n: nat) {
    |order| == n && InRange(order, n) && forall i, j :: 0 <= i < j < n ==> order[i] != order[j]
  }

  /** The keys of the entries at these offsets, which count from 1. */
  function Pick(entries: seq<Key>, offsets: seq<nat>): seq<Key>
    requires InRange(offsets, |entries|)
  {
    seq(|offsets|, i requires 0 <= i < |offsets| => entries[offsets[i] - 1])
  }

  /** The bounds of all entries of one half, untruncated. */
  function Bounds(es: seq<Key>): Option<Key> {
    if es == [] then None else Some(Fold(es[0], es[1..]))
  }

  lemma {:induction false} FoldSnoc(u: Key, es: seq<Key>, e: Key)
    ensures Fold(u, es + [e]) == BinUnion(Some(Fold(u, es)), e)
    decreases |es|
  {
    if es == [] {
      assert [] + [e] == [e] && [e][1..] == [];
    } else {
      assert (es + [e])[1..] == es[1..] + [e];
      FoldSnoc(BinUnion(Some(u), es[0]), es[1..], e);
    }
  }

  lemma BoundsSnoc(es: seq<Key>, e: Key)
    ensures Bounds(es + [e]) == Some(BinUnion(Bounds(es), e))
  {
    if es == [] {
      assert ([] + [e])[1..] == [];
    } else {
      assert (es + [e])[1..] == es[1..] + [e];
      FoldSnoc(es[0], es[1..], e);
    }
  }

  lemma PickSnoc(entries: seq<Key>, offsets: seq<nat>, o: nat)
    requires InRange(offsets, |entries|) && 1 <= o <= |entries|
    ensures InRange(offsets + [o], |entries|)
    ensures Bounds(Pick(entries, offsets + [o])) == Some(BinUnion(Bounds(Pick(entries, offsets)), entries[o - 1]))
  {
    assert Pick(entries, offsets + [o]) == Pick(entries, offsets) + [entries[o - 1]];
    BoundsSnoc(Pick(entries, offsets), entries[o - 1]);
  }

  /** The left half holds the first n/2 of the arranged offsets, the right half the rest, as far as i. */
  ghost predicate Halved(order: seq<nat>, i: nat, left: seq<nat>, right: seq<nat>)
    requires i <= |order|
  {
    var half := |order| / 2;
    if i <= half then left == order[..i] && right == [] else left == order[..half] && right == order[half..i]
  }

  lemma HalvedNext(order: seq<nat>, i: nat, left: seq<nat>, right: seq<nat>)
    requires i < |order| && Halved(order, i, left, right)
    ensures if i + 1 <= |order| / 2 then Halved(order, i + 1, left + [order[i]], right)
            else Halved(order, i + 1, left, right + [order[i]])
  {
  }

  datatype SplitVec = SplitVec(left: seq<nat>, right: seq<nat>, leftKey: Key, rightKey: Key)

  function LongerPrefix(a: Key, b: Key): nat {
    if PrefixLength(a) < PrefixLength(b) then PrefixLength(b) else PrefixLength(a)
  }

  /** The halves and their keys, for entries that the sort has put into this order. */
  function SplitOf(entries: seq<Key>, order: seq<nat>): SplitVec
    requires |entries| >= 2 && |order| == |entries| && InRange(order, |entries|)
  {
    var left, right := order[..|entries| / 2], order[|entries| / 2..];
    var l, r := Bounds(Pick(entries, left)).value, Bounds(Pick(entries, right)).value;
    SplitVec(left, right, CutKey(l, LongerPrefix(l, r) + 2), CutKey(r, LongerPrefix(l, r) + 2))
  }

  method CutHalves(l: Key, r: Key) returns (dl: Key, dr: Key)
    ensures dl == CutKey(l, LongerPrefix(l, r) + 2) && dr == CutKey(r, LongerPrefix(l, r) + 2)
  {
    var ll := NodeCpLen(l);
    var lr := NodeCpLen(r);
    ll := if ll < lr then lr else ll;
    ll := ll + 1;
    dl, dr := Truncate(l, ll), Truncate(r, ll);
  }

  /** The halves as far as i, with the unions of their keys. */
  ghost predicate Filling(entries: seq<Key>, order: seq<nat>, i: nat, left: seq<nat>, right: seq<nat>,
                          l: Option<Key>, r: Option<Key>) {
    && i <= |order| == |entries| && InRange(order, |entries|) && Halved(order, i, left, right)
    && InRange(left, |entries|) && l == Bounds(Pick(entries, left))
    && InRange(right, |entries|) && r == Bounds(Pick(entries, right))
  }

  lemma FillingLeft(entries: seq<Key>, order: seq<nat>, i: nat, left: seq<nat>, right: seq<nat>, l: Option<Key>,
                    r: Option<Key>)
    requires Filling(entries, order, i, left, right, l, r) && i + 1 <= |order| / 2
    ensures Filling(entries, order, i + 1, left + [order[i]], right, Some(BinUnion(l, entries[order[i] - 1])), r)
  {
    HalvedNext(order, i, left, right);
    PickSnoc(entries, left, order[i]);
  }

  lemma FillingRight(entries: seq<Key>, order: seq<nat>, i: nat, left: seq<nat>, right: seq<nat>, l: Option<Key>,
                     r: Option<Key>)
    requires Filling(entries, order, i, left, right, l, r) && |order| / 2 <= i < |order|
    ensures Filling(entries, order, i + 1, left, right + [order[i]], l, Some(BinUnion(r, entries[order[i] - 1])))
  {
    HalvedNext(order, i, left, right);
    PickSnoc(entries, right, order[i]);
  }

  lemma FillingEnds(entries: seq<Key>, order: seq<nat>, left: seq<nat>, right: seq<nat>, l: Option<Key>, r: Option<Key>)
    requires |entries| >= 2 && Filling(entries, order, |entries|, left, right, l, r)
    ensures l.Some? && r.Some? && left != [] && right != []
    ensures SplitOf(entries, order)
         == SplitVec(left, right, CutKey(l.value, LongerPrefix(l.value, r.value) + 2),
                     CutKey(r.value, LongerPrefix(l.value, r.value) + 2))
  {
    assert order[|entries| / 2..|entries|] == order[|entries| / 2..];
  }

  /** One turn of the loop that fills the halves. */
  method FillTurn(entries: seq<Key>, order: seq<nat>, i: nat, left: seq<nat>, right: seq<nat>, l: Option<Key>,
                  r: Option<Key>)
    returns (left': seq<nat>, right': seq<nat>, l': Option<Key>, r': Option<Key>)
    requires Filling(entries, order, i, left, right, l, r) && i < |order|
    ensures Filling(entries, order, i + 1, left', right', l', r')
  {
    left', right', l', r' := left, right, l, r;
    if i + 1 <= |order| / 2 {
      FillingLeft(entries, order, i, left, right, l, r);
      left', l' := left + [order[i]], Some(BinUnion(l, entries[order[i] - 1]));
    } else {
      FillingRight(entries, order, i, left, right, l, r);
      right', r' := right + [order[i]], Some(BinUnion(r, entries[order[i] - 1]));
    }
  }

  method FillHalves(entries: seq<Key>, order: seq<nat>)
    returns (left: seq<nat>, right: seq<nat>, ldatum: Option<Key>, rdatum: Option<Key>)
    requires |order| == |entries| && InRange(order, |entries|)
    ensures Filling(entries, order, |entries|, left, right, ldatum, rdatum)
  {
    left, right, ldatum, rdatum := [], [], None, None;
    var i := 0;
    while i < |entries|
      invariant i <= |entries| && Filling(entries, order, i, left, right, ldatum, rdatum)
    {
      left, right, ldatum, rdatum := FillTurn(entries, order, i, left, right, ldatum, rdatum);
      i := i + 1;
    }
  }

  /** Both halves are cut at the longer of their two common prefixes. `order` is the order the sort left the
      entries in. */
  method PickSplit(entries: seq<Key>, order: seq<nat>) returns (v: SplitVec)
    requires |entries| >= 2 && Arrangement(order, |entries|)
    ensures v == SplitOf(entries, order) && v.left != [] && v.right != []
  {
    var left, right, ldatum, rdatum := FillHalves(entries, order);
    FillingEnds(entries, order, left, right, ldatum, rdatum);
    var dl, dr := CutHalves(ldatum.value, rdatum.value);
    v := SplitVec(left, right, dl, dr);
  }

  /** One half of a split keeps everything its entries cover exactly when the cut is safe for each of them. */
  lemma HalfKeepsExactly(es: seq<Key>, n: nat)
    requires es != [] && AllSound(es) && n >= PrefixLength(Bounds(es).value) + 2
    ensures CoversEntries(CutKey(Bounds(es).value, n), es)
            <==> forall i :: 0 <= i < |es| ==> Safe(es[i], Bounds(es).value, n)
  {
    var k := Bounds(es).value;
    forall i | 0 <= i < |es|
      ensures (forall v :: Covers(es[i], v) ==> Covers(CutKey(k, n), v)) <==> Safe(es[i], k, n)
    {
      FoldHoldsAll(es[0], es[1..], i);
      CutKeepsExactly(es[i], k, n);
    }
  }

  /** No entry of the page is harmed by cutting the key of the half to n bytes. */
  ghost predicate AllHarmless(es: seq<Key>, n: nat)
    requires es != []
  {
    forall i :: 0 <= i < |es| ==> Harmless(es[i], Bounds(es).value, n)
  }

  lemma {:induction false} NoMatchIn(k: Key, e: Key, vs: seq<Bytes>, query: Bytes, s: Strategy)
    requires CoversAll(e, vs) && Finds(k, e) && !Consistent(k, query, s, false)
    ensures Filter(vs, query, s) == []
  {
    if vs != [] {
      NoMatchIn(k, e, vs[1..], query, s);
    }
  }

  lemma {:induction false} NoMatchBelow(k: Key, ts: seq<Tree>, query: Bytes, s: Strategy)
    requires TreesOk(ts) && (forall i :: 0 <= i < |ts| ==> Finds(k, EntryKey(ts[i]))) && !Consistent(k, query, s, false)
    ensures Filter(Values(ts), query, s) == []
  {
    if ts != [] {
      var vs := if ts[0].Leaf? then [ts[0].value] else Values(ts[0].kids);
      NoMatchBelow(k, ts[1..], query, s);
      FilterConcat(vs, Values(ts[1..]), query, s);
      TreesOkAt(ts, 0);
      assert ts[0].Leaf? ==> [ts[0].value][1..] == [];
      NoMatchIn(k, EntryKey(ts[0]), vs, query, s);
    }
  }

  /** A search of this page and of the entry for it returns exactly the matching values. */
  ghost predicate FindsAll(k: Key, ts: seq<Tree>) {
    forall query, s :: Search([Node(k, ts)], query, s) == Filter(Values(ts), query, s)
  }

  lemma {:induction false} SearchOfOne(k: Key, ts: seq<Tree>, query: Bytes, s: Strategy)
    ensures Search([Node(k, ts)], query, s) == if Consistent(k, query, s, false) then Search(ts, query, s) else []
  {
    assert [Node(k, ts)][1..] == [];
  }

  lemma {:induction false} HarmlessFindsAll(ts: seq<Tree>, n: nat)
    requires ts != [] && TreesOk(ts) && n >= PrefixLength(Bounds(EntryKeys(ts)).value) + 2
    requires AllHarmless(EntryKeys(ts), n)
    ensures FindsAll(CutKey(Bounds(EntryKeys(ts)).value, n), ts)
  {
    var es := EntryKeys(ts);
    var k := Bounds(es).value;
    EntriesSound(ts);
    forall i | 0 <= i < |ts|
      ensures Finds(CutKey(k, n), EntryKey(ts[i]))
    {
      FoldHoldsAll(es[0], es[1..], i);
      CutFindsExactly(es[i], k, n);
    }
    forall query, s
      ensures Search([Node(CutKey(k, n), ts)], query, s) == Filter(Values(ts), query, s)
    {
      SearchOfOne(CutKey(k, n), ts, query, s);
      SearchIsFilter(ts, query, s);
      if !Consistent(CutKey(k, n), query, s, false) {
        NoMatchBelow(CutKey(k, n), ts, query, s);
      }
    }
  }

  /** A page with these entries: below the i-th one lies v alone, below each other one its lower bound. */
  function PageWith(es: seq<Key>, i: nat, v: Bytes): (ts: seq<Tree>)
    ensures |ts| == |es|
    ensures forall j :: 0 <= j < |es| ==> ts[j] == Node(es[j], [Leaf(if j == i then v else es[j].lower)])
  {
    seq(|es|, j requires 0 <= j < |es| => Node(es[j], [Leaf(if j == i then v else es[j].lower)]))
  }

  ghost predicate HoldsOne(t: Tree) {
    t.Node? && Sound(t.key) && |t.kids| == 1 && t.kids[0].Leaf? && Covers(t.key, t.kids[0].value)
  }

  lemma {:induction false} OneIsOk(t: Tree)
    requires HoldsOne(t)
    ensures Values(t.kids) == [t.kids[0].value] && CoversAll(t.key, Values(t.kids)) && TreesOk(t.kids)
  {
    assert t.kids[1..] == [] && [t.kids[0].value][1..] == [];
  }

  lemma {:induction false} OnesAreOk(ts: seq<Tree>, j: nat)
    requires (forall i :: 0 <= i < |ts| ==> HoldsOne(ts[i])) && j < |ts|
    ensures TreesOk(ts) && HoldsOne(ts[j]) && ts[j].kids[0].value in Values(ts)
  {
    OneIsOk(ts[0]);
    if |ts| > 1 {
      OnesAreOk(ts[1..], if j == 0 then 0 else j - 1);
    }
  }

  lemma {:induction false} MatchIsKept(vs: seq<Bytes>, v: Bytes)
    requires v in vs
    ensures Filter(vs, v, Equal) != []
  {
    if vs[0] != v {
      MatchIsKept(vs[1..], v);
    }
  }

  lemma {:induction false} PageWithIsOk(es: seq<Key>, i: nat, v: Bytes)
    requires AllSound(es) && i < |es| && Covers(es[i], v)
    ensures var ts := PageWith(es, i, v); TreesOk(ts) && EntryKeys(ts) == es && v in Values(ts)
  {
    var ts := PageWith(es, i, v);
    forall j | 0 <= j < |es|
      ensures HoldsOne(ts[j])
    {
      LeIsTotal(es[j].lower, es[j].lower);
    }
    OnesAreOk(ts, i);
  }

  lemma {:induction false} PrunedIsMissed(k: Key, ts: seq<Tree>, v: Bytes)
    requires v in Values(ts) && !Consistent(k, v, Equal, false)
    ensures !FindsAll(k, ts)
  {
    SearchOfOne(k, ts, v, Equal);
    MatchIsKept(Values(ts), v);
  }

  /** A harmful cut hides a value of some page with these entries. */
  lemma {:induction false} HarmfulPage(es: seq<Key>, i: nat, n: nat) returns (ts: seq<Tree>)
    requires es != [] && AllSound(es) && i < |es| && !Harmless(es[i], Bounds(es).value, n)
    ensures TreesOk(ts) && EntryKeys(ts) == es && !FindsAll(CutKey(Bounds(es).value, n), ts)
  {
    var k := Bounds(es).value;
    FoldHoldsAll(es[0], es[1..], i);
    var v := HarmfulHides(es[i], k, n);
    ts := PageWith(es, i, v);
    PageWithIsOk(es, i, v);
    PrunedIsMissed(CutKey(k, n), ts, v);
  }

  /** Key k hides nothing that lies below these entries from any search. */
  ghost predicate HidesNothing(k: Key, es: seq<Key>) {
    forall ts :: TreesOk(ts) && EntryKeys(ts) == es ==> FindsAll(k, ts)
  }

  /** One half of a split hides nothing from any search, whatever lies below its entries, exactly when the cut is
      harmless for each of them. */
  lemma {:induction false} HalfFindsExactly(es: seq<Key>, n: nat)
    requires es != [] && AllSound(es) && n >= PrefixLength(Bounds(es).value) + 2
    ensures HidesNothing(CutKey(Bounds(es).value, n), es) <==> AllHarmless(es, n)
  {
    if AllHarmless(es, n) {
      forall ts | TreesOk(ts) && EntryKeys(ts) == es
        ensures FindsAll(CutKey(Bounds(es).value, n), ts)
      {
        HarmlessFindsAll(ts, n);
      }
    } else {
      var i :| 0 <= i < |es| && !Harmless(es[i], Bounds(es).value, n);
      var ts := HarmfulPage(es, i, n);
    }
  }

  ghost predicate AllSafe(es: seq<Key>, n: nat)
    requires es != []
  {
    forall i :: 0 <= i < |es| ==> Safe(es[i], Bounds(es).value, n)
  }

  /** A half cut by the length of its own common prefix loses nothing. */
  lemma {:induction false} OwnHalfIsSafe(es: seq<Key>)
    requires es != [] && AllSound(es)
    ensures AllSafe(es, PrefixLength(Bounds(es).value) + 2)
  {
    forall i | 0 <= i < |es|
      ensures Safe(es[i], Bounds(es).value, PrefixLength(Bounds(es).value) + 2)
    {
      FoldHoldsAll(es[0], es[1..], i);
      OwnCutIsSafe(es[i], Bounds(es).value);
    }
  }

  /** Where the keys of both halves are cut. */
  function CutLength(left: seq<Key>, right: seq<Key>): nat
    requires left != [] && right != []
  {
    LongerPrefix(Bounds(left).value, Bounds(right).value) + 2
  }

  /** The half whose bounds have the shorter common prefix. */
  function LooserHalf(left: seq<Key>, right: seq<Key>): (r: seq<Key>)
    requires left != [] && right != []
    ensures r == left || r == right
  {
    if PrefixLength(Bounds(left).value) <= PrefixLength(Bounds(right).value) then left else right
  }

  lemma {:induction false} SafeIsHarmless(es: seq<Key>, n: nat)
    requires es != [] && AllSafe(es, n)
    ensures AllHarmless(es, n)
  {
  }

  /** The other half is always safe. */
  lemma {:induction false} TighterHalfIsSafe(left: seq<Key>, right: seq<Key>)
    requires left != [] && right != [] && AllSound(left) && AllSound(right)
    ensures var n := CutLength(left, right);
            || (LooserHalf(left, right) == left && AllSafe(right, n))
            || (LooserHalf(left, right) == right && AllSafe(left, n))
  {
    if PrefixLength(Bounds(left).value) <= PrefixLength(Bounds(right).value) {
      OwnHalfIsSafe(right);
    } else {
      OwnHalfIsSafe(left);
    }
  }

  lemma {:induction false} LooserHalfDecides(left: seq<Key>, right: seq<Key>)
    requires left != [] && right != [] && AllSound(left) && AllSound(right)
    ensures var n := CutLength(left, right);
            AllHarmless(left, n) && AllHarmless(right, n) <==> AllHarmless(LooserHalf(left, right), n)
  {
    TighterHalfIsSafe(left, right);
    if LooserHalf(left, right) == left && AllSafe(right, CutLength(left, right)) {
      SafeIsHarmless(right, CutLength(left, right));
    } else {
      SafeIsHarmless(left, CutLength(left, right));
    }
  }

  lemma {:induction false} HalvesFindExactly(left: seq<Key>, right: seq<Key>)
    requires left != [] && right != [] && AllSound(left) && AllSound(right)
    ensures var n := CutLength(left, right);
            HidesNothing(CutKey(Bounds(left).value, n), left) && HidesNothing(CutKey(Bounds(right).value, n), right)
            <==> AllHarmless(LooserHalf(left, right), n)
  {
    HalfFindsExactly(left, CutLength(left, right));
    HalfFindsExactly(right, CutLength(left, right));
    LooserHalfDecides(left, right);
  }

  /** What gbt_var_picksplit returns, by its halves. */
  lemma {:induction false} SplitParts(es: seq<Key>, order: seq<nat>, m: nat)
    requires |es| >= 2 && |order| == |es| && InRange(order, |es|) && m == |es| / 2
    ensures var left, right := Pick(es, order[..m]), Pick(es, order[m..]);
            var n := CutLength(left, right);
            SplitOf(es, order) ==
              SplitVec(order[..m], order[m..], CutKey(Bounds(left).value, n), CutKey(Bounds(right).value, n))
  {
  }

  /** A split hides nothing from any search, whatever lies below the entries, exactly when the cut is harmless for the
      half whose bounds have the shorter common prefix. */
  lemma {:induction false} SplitFindsExactly(es: seq<Key>, order: seq<nat>)
    requires |es| >= 2 && AllSound(es) && Arrangement(order, |es|)
    ensures var v, left, right := SplitOf(es, order), Pick(es, order[..|es| / 2]), Pick(es, order[|es| / 2..]);
            HidesNothing(v.leftKey, left) && HidesNothing(v.rightKey, right)
            <==> AllHarmless(LooserHalf(left, right), CutLength(left, right))
  {
    SplitParts(es, order, |es| / 2);
    HalvesFindExactly(Pick(es, order[..|es| / 2]), Pick(es, order[|es| / 2..]));
  }

  /** A safe half keeps the tree in order, whatever kind of entries it holds. */
  lemma {:induction false} SafeHalfIsOk(ts: seq<Tree>, n: nat)
    requires ts != [] && TreesOk(ts) && n >= PrefixLength(Bounds(EntryKeys(ts)).value) + 2
    requires AllSafe(EntryKeys(ts), n)
    ensures TreesOk([Node(CutKey(Bounds(EntryKeys(ts)).value, n), ts)])
  {
    var es := EntryKeys(ts);
    var k := Bounds(es).value;
    EntriesSound(ts);
    HalfKeepsExactly(es, n);
    FoldHoldsAll(es[0], es[1..], 0);
    CutKeyIsSound(k, n);
    NodeIsOk(CutKey(k, n), ts);
  }

  lemma LeavesAreSafe(ts: seq<Tree>, k: Key, n: nat)
    requires forall i :: 0 <= i < |ts| ==> ts[i].Leaf?
    ensures forall i :: 0 <= i < |ts| ==> Safe(EntryKeys(ts)[i], k, n)
  {
    forall i | 0 <= i < |ts|
      ensures Safe(EntryKeys(ts)[i], k, n)
    {
      LeafIsSafe(ts[i].value, k, n);
    }
  }

  /** Splitting a page of leaf entries loses nothing. */
  lemma LeafHalfIsOk(ts: seq<Tree>, n: nat)
    requires ts != [] && (forall i :: 0 <= i < |ts| ==> ts[i].Leaf?)
             && n >= PrefixLength(Bounds(EntryKeys(ts)).value) + 2
    ensures TreesOk(ts) && TreesOk([Node(CutKey(Bounds(EntryKeys(ts)).value, n), ts)])
  {
    LeavesAreOk(ts);
    LeavesAreSafe(ts, Bounds(EntryKeys(ts)).value, n);
    SafeHalfIsOk(ts, n);
  }

  lemma {:induction false} LeavesAreOk(ts: seq<Tree>)
    requires forall i :: 0 <= i < |ts| ==> ts[i].Leaf?
    ensures TreesOk(ts)
  {
    if ts != [] {
      LeavesAreOk(ts[1..]);
    }
  }

  // ---------- trees with such keys ----------

  ghost predicate CutTo(key: Key, bounds: Key, n: nat) {
    n >= PrefixLength(bounds) + 2 && key == CutKey(bounds, n)
  }

  ghost predicate LeafHalf(key: Key, kids: seq<Tree>)
    requires kids != []
  {
    && (forall i :: 0 <= i < |kids| ==> kids[i].Leaf?)
    && exists n: nat :: CutTo(key, Bounds(EntryKeys(kids)).value, n)
  }

  /** Every inner key comes from gbt_var_union over its page, or from gbt_var_picksplit over a page of leaf entries. */
  ghost predicate Built(ts: seq<Tree>) {
    ts == [] ||
    (&& (ts[0].Node? ==>
          && ts[0].kids != [] && Built(ts[0].kids)
          && (ts[0].key == VarUnion(EntryKeys(ts[0].kids)) || LeafHalf(ts[0].key, ts[0].kids)))
     && Built(ts[1..]))
  }

  lemma {:induction false} BuiltIsOk(ts: seq<Tree>)
    requires Built(ts)
    ensures TreesOk(ts)
    decreases ts
  {
    if ts != [] {
      BuiltIsOk(ts[1..]);
      if ts[0].Node? {
        var kids, key := ts[0].kids, ts[0].key;
        BuiltIsOk(kids);
        if key == VarUnion(EntryKeys(kids)) {
          UnionNodeIsOk(kids);
          assert TreesOk([ts[0]]);
        } else {
          var n: nat :| CutTo(key, Bounds(EntryKeys(kids)).value, n);
          LeafHalfIsOk(kids, n);
          assert TreesOk([ts[0]]);
        }
      }
    }
  }

  /** In any such tree a scan finds exactly the values that match the query, for all six operators. */
  lemma TruncationHidesNothing(ts: seq<Tree>, query: Bytes, s: Strategy)
    requires Built(ts)
    ensures Search(ts, query, s) == Filter(Values(ts), query, s)
  {
    BuiltIsOk(ts);
    SearchIsFilter(ts, query, s);
  }
}
