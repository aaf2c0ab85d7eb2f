/** The upgrade of stored hstore values (hstore_compat.c, hstore.h): an entry of the old format, with lengths and a
    position, is overwritten in place by two entries of the new format that hold end positions and flags. Words are
    unsigned 32-bit numbers; the old entry has the layout of little-endian machines. */
module Hstore {
  import opened Basics

  const WORD: nat := 0x1_0000_0000
  const ISFIRST: nat := 0x8000_0000
  const ISNULL: nat := 0x4000_0000        // also one more than the position mask
  const NEWVERSION: nat := 0x8000_0000
  const COUNT_LIMIT: nat := 0x1000_0000   // one more than the count mask
  const MAX_VARSIZE: nat := 0x4000_0000   // a varlena size has 30 bits

  type Words = seq<nat>
  type Chars = seq<char>

  ghost predicate AllWords(w: Words) {
    forall i :: 0 <= i < |w| ==> w[i] < WORD
  }

  // ---------- accessors ----------

  predicate IsFirst(e: nat) {
    e >= ISFIRST
  }

  predicate IsNull(e: nat) {
    e / ISNULL % 2 == 1
  }

  function EndPos(e: nat): nat {
    e % ISNULL
  }

  /** HSE_OFF of entry j: where the one before it ends. */
  function Off(w: Words, j: nat): nat
    requires j < |w|
  {
    if IsFirst(w[j]) || j == 0 then 0 else EndPos(w[j - 1])
  }

  function OldKeyLen(w: Words, i: nat): nat
    requires 2 * i + 1 < |w|
  {
    w[2 * i] % 0x1_0000
  }

  function OldValLen(w: Words, i: nat): nat
    requires 2 * i + 1 < |w|
  {
    w[2 * i] / 0x1_0000
  }

  predicate OldIsNull(w: Words, i: nat)
    requires 2 * i + 1 < |w|
  {
    w[2 * i + 1] % 2 == 1
  }

  function OldPos(w: Words, i: nat): nat
    requires 2 * i + 1 < |w|
  {
    w[2 * i + 1] / 2
  }

  /** CALCDATASIZE */
  function DataSize(count: nat, strings: nat): nat {
    8 * count + 8 + strings
  }

  // ---------- what a stored value means ----------

  datatype Pair = Pair(key: Chars, value: Option<Chars>)

  function Slice(s: Chars, from: nat, to: nat): Chars {
    if from <= to <= |s| then s[from..to] else []
  }

  function OldPair(w: Words, s: Chars, i: nat): Pair
    requires 2 * i + 1 < |w|
  {
    var pos, keyEnd := OldPos(w, i), OldPos(w, i) + OldKeyLen(w, i);
    Pair(Slice(s, pos, keyEnd), if OldIsNull(w, i) then None else Some(Slice(s, keyEnd, keyEnd + OldValLen(w, i))))
  }

  function NewPair(w: Words, s: Chars, i: nat): Pair
    requires 2 * i + 1 < |w|
  {
    Pair(Slice(s, Off(w, 2 * i), EndPos(w[2 * i])),
         if IsNull(w[2 * i + 1]) then None else Some(Slice(s, Off(w, 2 * i + 1), EndPos(w[2 * i + 1]))))
  }

  function OldDecode(w: Words, s: Chars, n: nat): (ps: seq<Pair>)
    requires 2 * n <= |w|
    ensures |ps| == n
  {
    if n == 0 then [] else OldDecode(w, s, n - 1) + [OldPair(w, s, n - 1)]
  }

  function NewDecode(w: Words, s: Chars, n: nat): (ps: seq<Pair>)
    requires 2 * n <= |w|
    ensures |ps| == n
  {
    if n == 0 then [] else NewDecode(w, s, n - 1) + [NewPair(w, s, n - 1)]
  }

  // ---------- the old format ----------

  function OldLen(w: Words, i: nat): nat
    requires 2 * i + 1 < |w|
  {
    OldKeyLen(w, i) + if OldIsNull(w, i) then 0 else OldValLen(w, i)
  }

  /** Where entry n must start: behind all the entries before it. */
  function OldEnd(w: Words, n: nat): nat
    requires 2 * n <= |w|
  {
    if n == 0 then 0 else OldEnd(w, n - 1) + OldLen(w, n - 1)
  }

  ghost predicate KeysGrow(w: Words, n: nat)
    requires 2 * n <= |w|
  {
    forall i :: 0 < i < n ==> OldKeyLen(w, i - 1) <= OldKeyLen(w, i)
  }

  ghost predicate Contiguous(w: Words, n: nat)
    requires 2 * n <= |w|
  {
    forall i :: 0 <= i < n ==> OldPos(w, i) == OldEnd(w, i)
  }

  /** An old value that fits into its varlena. */
  ghost predicate OldOk(w: Words, count: nat, varsize: nat) {
    2 * count <= |w| && KeysGrow(w, count) && Contiguous(w, count) && DataSize(count, OldEnd(w, count)) <= varsize
  }

  lemma {:induction false} OldEndGrows(w: Words, m: nat, n: nat)
    requires m <= n && 2 * n <= |w|
    ensures OldEnd(w, m) <= OldEnd(w, n)
  {
    if m < n {
      OldEndGrows(w, m, n - 1);
    }
  }

  // ---------- the new format ----------

  /** Only the first entry is marked first, and positions do not decrease. */
  ghost predicate PositionsGrow(w: Words, n: nat)
    requires n <= |w|
  {
    && (n > 0 ==> IsFirst(w[0]))
    && forall j :: 0 < j < n ==> !IsFirst(w[j]) && EndPos(w[j - 1]) <= EndPos(w[j])
  }

  function NewKeyLen(w: Words, i: nat): int
    requires 2 * i < |w|
  {
    EndPos(w[2 * i]) - Off(w, 2 * i)
  }

  ghost predicate NewKeysGrow(w: Words, n: nat)
    requires 2 * n <= |w|
  {
    forall i :: 0 < i < n ==> NewKeyLen(w, i - 1) <= NewKeyLen(w, i) && !IsNull(w[2 * i])
  }

  // ---------- the conversion ----------

  /** The two words written for old entry i, before the first one is marked. */
  function KeyWord(w: Words, i: nat): nat
    requires 2 * i + 1 < |w|
  {
    (OldPos(w, i) + OldKeyLen(w, i)) % ISNULL
  }

  function ValueWord(w: Words, i: nat): nat
    requires 2 * i + 1 < |w|
  {
    var vallen := if OldIsNull(w, i) then 0 else OldValLen(w, i);
    (OldPos(w, i) + OldKeyLen(w, i) + vallen) % ISNULL + if OldIsNull(w, i) then ISNULL else 0
  }

  /** Old entry i of w has become two new entries of w'. */
  ghost predicate EntryConverted(w: Words, w': Words, i: nat)
    requires 2 * i + 1 < |w| == |w'|
  {
    w'[2 * i] == KeyWord(w, i) + (if i == 0 then ISFIRST else 0) && w'[2 * i + 1] == ValueWord(w, i)
  }

  /** The words of a value after the conversion of `count` entries. */
  ghost predicate Converted(w: Words, count: nat, w': Words) {
    && 2 * count <= |w| && |w'| == |w|
    && (forall i :: 0 <= i < count ==> EntryConverted(w, w', i))
    && forall j :: 2 * count <= j < |w| ==> w'[j] == w[j]
  }

  /** A position with and without each flag. */
  lemma Flags(x: nat)
    requires x < ISNULL
    ensures EndPos(x) == x && !IsNull(x) && !IsFirst(x)
    ensures EndPos(x + ISFIRST) == x && !IsNull(x + ISFIRST) && IsFirst(x + ISFIRST)
    ensures EndPos(x + ISNULL) == x && IsNull(x + ISNULL) && !IsFirst(x + ISNULL)
  {
  }

  /** An old value that fits, and its conversion. */
  ghost predicate Upgraded(w: Words, count: nat, varsize: nat, w': Words) {
    OldOk(w, count, varsize) && varsize < MAX_VARSIZE && Converted(w, count, w')
  }

  /** In a value that fits, the masks cut nothing off. */
  lemma WordsOfEntry(w: Words, count: nat, varsize: nat, i: nat)
    requires OldOk(w, count, varsize) && varsize < MAX_VARSIZE && i < count
    ensures OldPos(w, i) == OldEnd(w, i) && OldEnd(w, i + 1) == OldEnd(w, i) + OldLen(w, i) < ISNULL
    ensures KeyWord(w, i) == OldEnd(w, i) + OldKeyLen(w, i)
    ensures ValueWord(w, i) == OldEnd(w, i + 1) + (if OldIsNull(w, i) then ISNULL else 0)
  {
    OldEndGrows(w, i + 1, count);
    assert OldPos(w, i) == OldEnd(w, i);
  }

  lemma NewEntryIs(w: Words, count: nat, varsize: nat, w': Words, i: nat)
    requires Upgraded(w, count, varsize, w') && i < count
    ensures EndPos(w'[2 * i]) == OldEnd(w, i) + OldKeyLen(w, i) && EndPos(w'[2 * i + 1]) == OldEnd(w, i + 1)
    ensures IsFirst(w'[2 * i]) == (i == 0) && !IsFirst(w'[2 * i + 1])
    ensures !IsNull(w'[2 * i]) && IsNull(w'[2 * i + 1]) == OldIsNull(w, i)
  {
    WordsOfEntry(w, count, varsize, i);
    assert EntryConverted(w, w', i);
    Flags(KeyWord(w, i));
    Flags(OldEnd(w, i + 1));
  }

  lemma OffOfNextKey(w: Words, k: nat)
    requires 2 * k + 3 < |w| && !IsFirst(w[2 * k + 2])
    ensures Off(w, 2 * k + 2) == EndPos(w[2 * k + 1])
  {
  }

  lemma OffOfValue(w: Words, i: nat)
    requires 2 * i + 1 < |w| && !IsFirst(w[2 * i + 1])
    ensures Off(w, 2 * i + 1) == EndPos(w[2 * i])
  {
  }

  lemma NextKeyStarts(w: Words, count: nat, varsize: nat, w': Words, k: nat)
    requires Upgraded(w, count, varsize, w') && k + 1 < count
    ensures Off(w', 2 * k + 2) == OldEnd(w, k + 1)
  {
    NewEntryIs(w, count, varsize, w', k);
    NewEntryIs(w, count, varsize, w', k + 1);
    OffOfNextKey(w', k);
  }

  lemma KeyStarts(w: Words, count: nat, varsize: nat, w': Words, i: nat)
    requires Upgraded(w, count, varsize, w') && i < count
    ensures Off(w', 2 * i) == OldEnd(w, i)
  {
    if i > 0 {
      NextKeyStarts(w, count, varsize, w', i - 1);
    }
  }

  lemma ValueStarts(w: Words, count: nat, varsize: nat, w': Words, i: nat)
    requires Upgraded(w, count, varsize, w') && i < count
    ensures Off(w', 2 * i + 1) == OldEnd(w, i) + OldKeyLen(w, i)
  {
    NewEntryIs(w, count, varsize, w', i);
    OffOfValue(w', i);
  }

  lemma PairIsKept(w: Words, count: nat, varsize: nat, w': Words, s: Chars, i: nat)
    requires Upgraded(w, count, varsize, w') && i < count
    ensures NewPair(w', s, i) == OldPair(w, s, i)
  {
    NewEntryIs(w, count, varsize, w', i);
    KeyStarts(w, count, varsize, w', i);
    ValueStarts(w, count, varsize, w', i);
    WordsOfEntry(w, count, varsize, i);
  }

  /** The converted value decodes to the same list of keys, values and nulls. */
  lemma {:induction false} ConversionKeepsPairs(w: Words, count: nat, varsize: nat, w': Words, s: Chars, n: nat)
    requires Upgraded(w, count, varsize, w') && n <= count
    ensures NewDecode(w', s, n) == OldDecode(w, s, n)
  {
    if n > 0 {
      ConversionKeepsPairs(w, count, varsize, w', s, n - 1);
      PairIsKept(w, count, varsize, w', s, n - 1);
    }
  }

  lemma PositionsGrowAt(w: Words, count: nat, varsize: nat, w': Words, i: nat)
    requires Upgraded(w, count, varsize, w') && i < count
    ensures i > 0 ==> !IsFirst(w'[2 * i]) && EndPos(w'[2 * i - 1]) <= EndPos(w'[2 * i])
    ensures !IsFirst(w'[2 * i + 1]) && EndPos(w'[2 * i]) <= EndPos(w'[2 * i + 1])
  {
    NewEntryIs(w, count, varsize, w', i);
    WordsOfEntry(w, count, varsize, i);
    if i > 0 {
      var k := i - 1;
      NewEntryIs(w, count, varsize, w', k);
      assert 2 * k + 1 == 2 * i - 1;
    }
  }

  lemma KeyLengthIsKept(w: Words, count: nat, varsize: nat, w': Words, i: nat)
    requires Upgraded(w, count, varsize, w') && i < count
    ensures NewKeyLen(w', i) == OldKeyLen(w, i) && !IsNull(w'[2 * i])
  {
    NewEntryIs(w, count, varsize, w', i);
    KeyStarts(w, count, varsize, w', i);
  }

  lemma PositionsGrowEverywhere(w: Words, count: nat, varsize: nat, w': Words)
    requires Upgraded(w, count, varsize, w')
    ensures PositionsGrow(w', 2 * count)
  {
    forall j | 0 < j < 2 * count
      ensures !IsFirst(w'[j]) && EndPos(w'[j - 1]) <= EndPos(w'[j])
    {
      PositionsGrowAt(w, count, varsize, w', j / 2);
    }
    if count > 0 {
      NewEntryIs(w, count, varsize, w', 0);
    }
  }

  lemma KeysGrowEverywhere(w: Words, count: nat, varsize: nat, w': Words)
    requires Upgraded(w, count, varsize, w')
    ensures NewKeysGrow(w', count)
  {
    forall i | 0 < i < count
      ensures NewKeyLen(w', i - 1) <= NewKeyLen(w', i) && !IsNull(w'[2 * i])
    {
      KeyLengthIsKept(w, count, varsize, w', i);
      KeyLengthIsKept(w, count, varsize, w', i - 1);
    }
  }

  /** And it has the shape the new format demands: one first entry, growing positions, growing keys, no null keys. */
  lemma ConversionIsNewFormat(w: Words, count: nat, varsize: nat, w': Words)
    requires Upgraded(w, count, varsize, w')
    ensures PositionsGrow(w', 2 * count) && NewKeysGrow(w', count)
    ensures count > 0 ==> EndPos(w'[2 * count - 1]) == OldEnd(w, count)
  {
    PositionsGrowEverywhere(w, count, varsize, w');
    KeysGrowEverywhere(w, count, varsize, w');
    if count > 0 {
      var last := count - 1;
      NewEntryIs(w, count, varsize, w', last);
      assert 2 * last + 1 == 2 * count - 1;
    }
  }
}
