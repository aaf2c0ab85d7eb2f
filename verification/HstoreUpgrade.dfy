/** hstoreUpgrade and its two validity tests, on a stored value that is changed in place. */
module HstoreUpgrade {
  import opened Basics
  import opened Hstore

  function ToUint32(x: int): nat {
    x % WORD
  }

  // ---------- the verdicts ----------

  /** 0 = not valid, 1 = valid with slop in the length, 2 = exactly valid. */
  function Verdict(valid: bool, exact: bool): nat {
    if !valid then 0 else if exact then 2 else 1
  }

  /** What hstoreValidOldFormat returns. */
  ghost function OldVerdict(size: nat, w: Words, varsize: nat): nat
    requires size < COUNT_LIMIT ==> 2 * size <= |w|
  {
    if size >= NEWVERSION then 0
    else if size == 0 then 2
    else if size >= COUNT_LIMIT then 0
    else Verdict(OldOk(w, size, varsize), DataSize(size, OldEnd(w, size)) == varsize)
  }

  /** The bytes of string data, by the end position of the last entry. */
  function StringBytes(w: Words, count: nat): nat
    requires 2 * count <= |w|
  {
    if count == 0 then 0 else EndPos(w[2 * count - 1])
  }

  ghost predicate NewOk(w: Words, count: nat, varsize: nat)
    requires 2 * count <= |w|
  {
    PositionsGrow(w, 2 * count) && NewKeysGrow(w, count) && DataSize(count, StringBytes(w, count)) <= varsize
  }

  /** What hstoreValidNewFormat returns. */
  ghost function NewVerdict(size: nat, w: Words, varsize: nat): nat
    requires 2 * (size % COUNT_LIMIT) <= |w|
  {
    var count := size % COUNT_LIMIT;
    if size >= NEWVERSION || count == 0 then 2
    else Verdict(NewOk(w, count, varsize), DataSize(count, StringBytes(w, count)) == varsize)
  }

  datatype Outcome = Unchanged | TakenAsNew | Converted | Rejected

  /** What hstoreUpgrade makes of a value. */
  ghost function Decide(size: nat, w: Words, varsize: nat): Outcome
    requires 2 * (size % COUNT_LIMIT) <= |w| && (size != 0 ==> |w| >= 2)
  {
    if size >= NEWVERSION then Unchanged
    else if size == 0 || (varsize < 32768 && IsFirst(w[0])) then TakenAsNew
    else if OldVerdict(size, w, varsize) != 0 then Converted
    else if NewVerdict(size, w, varsize) != 0 then TakenAsNew
    else Rejected
  }

  class Value {
    var size: nat              // flag and number of pairs
    var varsize: nat
    const entries: array<nat>
    const strings: Chars

    ghost predicate Valid()
      reads this, entries
    {
      && size < WORD && varsize < MAX_VARSIZE && AllWords(entries[..])
      && 2 * (size % COUNT_LIMIT) <= entries.Length && (size != 0 ==> entries.Length >= 2)
    }

    function Count(): nat
      reads this
    {
      size % COUNT_LIMIT
    }

    /** hstoreValidOldFormat; the running position is an int and wraps like one. */
    method ValidOldFormat() returns (r: nat)
      requires Valid()
      ensures r == OldVerdict(size, entries[..], varsize)
    {
      ghost var w := entries[..];
      if size >= NEWVERSION {
        return 0;
      }
      if size == 0 {
        return 2;
      }
      if size > 0xFFF_FFFF {
        return 0;
      }
      var count := size;
      if DataSize(count, 0) > varsize || OldPos(entries[..], 0) != 0 {
        assert OldEnd(w, 0) == 0;
        return 0;
      }
      var grow := KeyLengthsGrow(entries[..], count);
      if !grow {
        return 0;
      }
      var fits, lastpos := EndOfContiguous(entries[..], count);
      if !fits {
        return 0;
      }
      var vsize := ToInt32(DataSize(count, 0) + lastpos);
      LastPosition(w, count, varsize, lastpos, vsize);
      if ToUint32(vsize) > varsize {
        return 0;
      }
      if ToUint32(vsize) != varsize {
        return 1;
      }
      r := 2;
    }

    /** hstoreValidNewFormat */
    method ValidNewFormat() returns (r: nat)
      requires Valid()
      ensures r == NewVerdict(size, entries[..], varsize)
    {
      var count := Count();
      var buflen := StringBytes(entries[..], count);
      var vsize := DataSize(count, buflen);
      if size >= NEWVERSION || count == 0 {
        return 2;
      }
      if !IsFirst(entries[0]) || vsize > varsize {
        return 0;
      }
      var grow := EndPositionsGrow(entries[..], 2 * count);
      if !grow {
        return 0;
      }
      grow := NewKeyLengthsGrow(entries[..], count);
      if !grow {
        return 0;
      }
      r := if vsize != varsize then 1 else 2;
    }

    /** The in-place overwrite: both words of an entry are read before both are written. */
    method ConvertEntries(count: nat)
      requires 2 * count <= entries.Length
      modifies entries
      ensures Hstore.Converted(old(entries[..]), count, entries[..])
    {
      ghost var w := entries[..];
      var i := 0;
      while i < count
        invariant i <= count && Written(w, entries[..], i)
      {
        ghost var before: Words := entries[..];
        var pos, keylen := OldPos(entries[..], i), OldKeyLen(entries[..], i);
        var vallen, isnull := OldValLen(entries[..], i), OldIsNull(entries[..], i);
        if isnull {
          vallen := 0;
        }
        entries[2 * i] := (pos + keylen) % ISNULL;
        entries[2 * i + 1] := (pos + keylen + vallen) % ISNULL + if isnull then ISNULL else 0;
        WrittenNext(w, before, i);
        assert entries[..] == WriteEntry(before, i);
        i := i + 1;
      }
      MarkFirst(w, entries[..], count);
      if count > 0 {
        ghost var before: Words := entries[..];
        entries[0] := entries[0] + ISFIRST;
        assert entries[..] == before[0 := before[0] + ISFIRST];
      }
    }

    /** HS_SETCOUNT and HS_FIXSIZE: mark the value as new format and set its exact size. */
    method Finish(count: nat)
      requires count < COUNT_LIMIT && 2 * count <= entries.Length
      modifies this
      ensures size == count + NEWVERSION && varsize == DataSize(count, StringBytes(entries[..], count))
    {
      size := count + NEWVERSION;
      varsize := DataSize(count, StringBytes(entries[..], count));
    }

    /** hstoreUpgrade, built as contrib/hstore; the caller has made a writable copy. */
    method Upgrade() returns (o: Outcome)
      requires Valid()
      modifies this, entries
      ensures o == Decide(old(size), old(entries[..]), old(varsize))
      ensures o.Unchanged? || o.Rejected? ==> size == old(size) && varsize == old(varsize)
      ensures !o.Converted? ==> entries[..] == old(entries[..])
      ensures o.TakenAsNew? || o.Converted? ==>
                size == old(Count()) + NEWVERSION
                  && varsize == DataSize(old(Count()), StringBytes(entries[..], old(Count())))
      ensures o.Converted? ==> Hstore.Converted(old(entries[..]), old(Count()), entries[..])
    {
      if size >= NEWVERSION {
        return Unchanged;
      }
      if size == 0 || (varsize < 32768 && IsFirst(entries[0])) {
        Finish(Count());
        return TakenAsNew;
      }
      var validNew := ValidNewFormat();
      var validOld := ValidOldFormat();
      if validOld == 0 {
        if validNew != 0 {
          Finish(Count());
          return TakenAsNew;
        }
        return Rejected;
      }
      var count := size;
      ConvertEntries(count);
      Finish(count);
      o := Outcome.Converted;
    }
  }

  /** The two words of entry k have been written, none marked first yet. */
  ghost predicate EntryWritten(w: Words, w': Words, k: nat)
    requires 2 * k + 1 < |w| == |w'|
  {
    w'[2 * k] == KeyWord(w, k) && w'[2 * k + 1] == ValueWord(w, k)
  }

  /** The first i entries have been written, the rest is as it was. */
  ghost predicate Written(w: Words, a: Words, i: nat) {
    && 2 * i <= |w| == |a|
    && (forall k :: 0 <= k < i ==> EntryWritten(w, a, k))
    && forall j :: 2 * i <= j < |w| ==> a[j] == w[j]
  }

  function WriteEntry(a: Words, i: nat): Words
    requires 2 * i + 1 < |a|
  {
    var keyWritten: Words := a[2 * i := KeyWord(a, i)];
    keyWritten[2 * i + 1 := ValueWord(a, i)]
  }

  lemma WrittenNext(w: Words, a: Words, i: nat)
    requires Written(w, a, i) && 2 * i + 1 < |w|
    ensures Written(w, WriteEntry(a, i), i + 1)
  {
    var a' := WriteEntry(a, i);
    assert a[2 * i] == w[2 * i] && a[2 * i + 1] == w[2 * i + 1];
    forall k | 0 <= k < i + 1
      ensures EntryWritten(w, a', k)
    {
      if k < i {
        assert EntryWritten(w, a, k);
      }
    }
  }

  lemma MarkFirst(w: Words, a: Words, count: nat)
    requires Written(w, a, count)
    ensures Hstore.Converted(w, count, if count == 0 then a else a[0 := a[0] + ISFIRST])
  {
    var a' := if count == 0 then a else a[0 := a[0] + ISFIRST];
    forall k | 0 <= k < count
      ensures EntryConverted(w, a', k)
    {
      assert EntryWritten(w, a, k);
    }
  }

  method EndPositionsGrow(w: Words, n: nat) returns (r: bool)
    requires n <= |w| && (n > 0 ==> IsFirst(w[0]))
    ensures r <==> PositionsGrow(w, n)
  {
    var i := 1;
    while i < n
      invariant 1 <= i && forall j :: 0 < j < i && j < n ==> !IsFirst(w[j]) && EndPos(w[j - 1]) <= EndPos(w[j])
    {
      if IsFirst(w[i]) || EndPos(w[i]) < EndPos(w[i - 1]) {
        return false;
      }
      i := i + 1;
    }
    r := true;
  }

  method NewKeyLengthsGrow(w: Words, count: nat) returns (r: bool)
    requires 2 * count <= |w|
    ensures r <==> NewKeysGrow(w, count)
  {
    var i := 1;
    while i < count
      invariant 1 <= i && forall k :: 0 < k < i && k < count ==>
                  NewKeyLen(w, k - 1) <= NewKeyLen(w, k) && !IsNull(w[2 * k])
    {
      if NewKeyLen(w, i) < NewKeyLen(w, i - 1) || IsNull(w[2 * i]) {
        return false;
      }
      i := i + 1;
    }
    r := true;
  }

  method KeyLengthsGrow(w: Words, count: nat) returns (r: bool)
    requires 2 * count <= |w|
    ensures r <==> KeysGrow(w, count)
  {
    var i := 1;
    while i < count
      invariant 1 <= i && forall k :: 0 < k < i && k < count ==> OldKeyLen(w, k - 1) <= OldKeyLen(w, k)
    {
      if OldKeyLen(w, i) < OldKeyLen(w, i - 1) {
        return false;
      }
      i := i + 1;
    }
    r := true;
  }

  lemma OldPosFits(w: Words, i: nat)
    requires AllWords(w) && 2 * i + 1 < |w|
    ensures OldPos(w, i) < ISFIRST && OldLen(w, i) < 0x2_0000
  {
  }

  /** The loop that compares positions; `fits` is false if some entry is not where it should be. */
  method EndOfContiguous(w: Words, count: nat) returns (fits: bool, lastpos: int)
    requires AllWords(w) && 2 * count <= |w|
    ensures fits <==> Contiguous(w, count)
    ensures fits ==> lastpos == ToInt32(OldEnd(w, count)) && OldEnd(w, count) < ISFIRST + 0x2_0000
  {
    lastpos := 0;
    var i := 0;
    while i < count
      invariant i <= count && Contiguous(w, i) && lastpos == ToInt32(OldEnd(w, i)) && OldEnd(w, i) < ISFIRST + 0x2_0000
    {
      OldPosFits(w, i);
      if OldPos(w, i) != lastpos {
        assert OldPos(w, i) != OldEnd(w, i);
        return false, lastpos;
      }
      lastpos := ToInt32(lastpos + OldLen(w, i));
      i := i + 1;
    }
    fits := true;
  }

  /** Wrapped or not, the size is found too large exactly when it is. */
  lemma LastPosition(w: Words, count: nat, varsize: nat, lastpos: int, vsize: int)
    requires 2 * count <= |w| && DataSize(count, 0) <= varsize < MAX_VARSIZE
    requires lastpos == ToInt32(OldEnd(w, count)) && OldEnd(w, count) < ISFIRST + 0x2_0000
    requires vsize == ToInt32(DataSize(count, 0) + lastpos)
    ensures ToUint32(vsize) == DataSize(count, OldEnd(w, count))
  {
    WrapsBack(DataSize(count, 0), OldEnd(w, count));
  }

  lemma WrapsBack(d: nat, x: nat)
    requires d + x < WORD
    ensures ToUint32(ToInt32(d + ToInt32(x))) == d + x
  {
    if x < ISFIRST {
      assert ToInt32(x) == x;
    } else {
      assert ToInt32(x) == x - WORD;
    }
  }

  // ---------- the upgrade of old values ----------

  /** A value that the old format test accepts. */
  ghost predicate IsOld(size: nat, w: Words, varsize: nat) {
    0 < size < COUNT_LIMIT && AllWords(w) && OldOk(w, size, varsize) && varsize < MAX_VARSIZE
  }

  lemma IsOldExactly(size: nat, w: Words, varsize: nat)
    requires (size < COUNT_LIMIT ==> 2 * size <= |w|) && AllWords(w) && varsize < MAX_VARSIZE && size != 0
    ensures IsOld(size, w, varsize) <==> OldVerdict(size, w, varsize) != 0
  {
  }

  /** The first entry looks like a new one exactly when its value length has the top bit set; in a value of less than
      32768 bytes that is only possible when the value is null and its length is not used. */
  lemma LooksNewExactly(size: nat, w: Words, varsize: nat)
    requires IsOld(size, w, varsize)
    ensures IsFirst(w[0]) <==> OldValLen(w, 0) >= 32768
    ensures varsize < 32768 && IsFirst(w[0]) ==> OldIsNull(w, 0)
  {
    OldEndGrows(w, 1, size);
    assert OldEnd(w, 1) == OldEnd(w, 0) + OldLen(w, 0) && OldEnd(w, 0) == 0;
    FirstWord(w[0]);
  }

  lemma FirstWord(e: nat)
    requires e < WORD
    ensures IsFirst(e) <==> e / 0x1_0000 >= 32768
  {
  }

  /** An old value with a non-null first value and less than 32768 bytes is never taken for a new one. */
  lemma SmallOldIsConverted(size: nat, w: Words, varsize: nat)
    requires IsOld(size, w, varsize) && varsize < 32768 && !OldIsNull(w, 0)
    ensures Decide(size, w, varsize) == Converted
  {
    IsOldExactly(size, w, varsize);
    LooksNewExactly(size, w, varsize);
  }

  /** The words after the upgrade. */
  ghost predicate Result(size: nat, w: Words, varsize: nat, w': Words)
    requires 2 * (size % COUNT_LIMIT) <= |w| && (size != 0 ==> |w| >= 2)
  {
    if Decide(size, w, varsize) == Converted then Hstore.Converted(w, size % COUNT_LIMIT, w') else w' == w
  }

  lemma MisreadDiffers(size: nat, w: Words, varsize: nat, s: Chars)
    requires IsOld(size, w, varsize) && OldIsNull(w, 0)
    ensures NewPair(w, s, 0) != OldPair(w, s, 0)
  {
    assert OldPos(w, 0) == OldEnd(w, 0) == 0;
    assert w[1] == 1;
  }

  lemma {:induction false} DecodesDifferAt(w: Words, w': Words, s: Chars, n: nat)
    requires 2 * n <= |w| == |w'| && n > 0 && NewPair(w', s, 0) != OldPair(w, s, 0)
    ensures NewDecode(w', s, n) != OldDecode(w, s, n)
  {
    if n == 1 {
      assert NewDecode(w', s, 1)[0] == NewPair(w', s, 0) && OldDecode(w, s, 1)[0] == OldPair(w, s, 0);
    } else {
      DecodesDifferAt(w, w', s, n - 1);
      assert NewDecode(w', s, n)[..n - 1] == NewDecode(w', s, n - 1);
      assert OldDecode(w, s, n)[..n - 1] == OldDecode(w, s, n - 1);
    }
  }

  /** The upgrade of an old value keeps its pairs, over untouched string data, except when the value has less than
      32768 bytes and its first value is a null with a stored length of 32768 or more: then it is taken for a new
      one, and a different list is read. */
  lemma UpgradeKeepsPairsExactly(size: nat, w: Words, varsize: nat, w': Words, s: Chars)
    requires IsOld(size, w, varsize) && Result(size, w, varsize, w')
    ensures NewDecode(w', s, size) == OldDecode(w, s, size)
       <==> !(varsize < 32768 && OldIsNull(w, 0) && OldValLen(w, 0) >= 32768)
  {
    LooksNewExactly(size, w, varsize);
    if varsize < 32768 && IsFirst(w[0]) {
      MisreadDiffers(size, w, varsize, s);
      DecodesDifferAt(w, w', s, size);
    } else {
      ConversionKeepsPairs(w, size, varsize, w', s, size);
    }
  }

  /** A converted value has exactly the size its data needs. */
  lemma ConvertedSizeIsExact(size: nat, w: Words, varsize: nat, w': Words)
    requires IsOld(size, w, varsize) && Hstore.Converted(w, size, w')
    ensures DataSize(size, StringBytes(w', size)) == DataSize(size, OldEnd(w, size)) <= varsize
    ensures NewOk(w', size, DataSize(size, StringBytes(w', size)))
  {
    ConversionIsNewFormat(w, size, varsize, w');
  }

  /** One pair with a one-letter key and a null whose stored length is 32768. */
  lemma MisreadExample()
    ensures var w: Words := [0x8000_0001, 1];
            IsOld(1, w, 17) && Decide(1, w, 17) == TakenAsNew
            && OldDecode(w, "k", 1) == [Pair("k", None)] && NewDecode(w, "k", 1) == [Pair("k", Some(""))]
  {
    var w: Words := [0x8000_0001, 1];
    assert OldKeyLen(w, 0) == 1 && OldValLen(w, 0) == 32768 && OldIsNull(w, 0) && OldPos(w, 0) == 0;
    assert OldEnd(w, 0) == 0 && OldEnd(w, 1) == 1;
    assert EndPos(w[0]) == 1 && EndPos(w[1]) == 1 && Off(w, 1) == 1 && !IsNull(w[1]);
    assert "k"[0..1] == "k" && "k"[1..1] == "" && Off(w, 0) == 0;
    assert OldPair(w, "k", 0) == Pair("k", None) && NewPair(w, "k", 0) == Pair("k", Some(""));
    assert OldDecode(w, "k", 0) == [] && NewDecode(w, "k", 0) == [];
  }
}
