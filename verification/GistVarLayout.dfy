/** The stored form of a variable-length GiST key: a header, the lower bound, and for inner keys the upper bound at
    the next multiple of four (gbt_var_key_readable, gbt_var_key_from_datum, gbt_var_key_copy). */
module GistVarLayout {
  import opened Basics
  import opened GistVar

  const VARHDRSZ: nat := 4
  const MAX_SIZE: nat := 0x4000_0000   // a varlena size has 30 bits

  /** SET_VARSIZE on a little-endian machine: the size, shifted by two, in four bytes. */
  function Header(size: nat): Bytes
    requires size < MAX_SIZE
  {
    [size % 64 * 4, size / 64 % 256, size / 64 / 256 % 256, size / 64 / 256 / 256]
  }

  /** VARSIZE of the varlena at offset o. */
  function VarSize(s: Bytes, o: nat): nat
    requires o + 4 <= |s|
  {
    var b0: int, b1: int, b2: int, b3: int := s[o], s[o + 1], s[o + 2], s[o + 3];
    b0 / 4 + 64 * (b1 + 256 * (b2 + 256 * b3))
  }

  lemma HeaderRoundTrip(size: nat)
    requires size < MAX_SIZE
    ensures VarSize(Header(size), 0) == size
  {
  }

  function IntAlign(n: nat): (r: nat)
    ensures n <= r < n + 4 && r % 4 == 0
  {
    (n + 3) / 4 * 4
  }

  /** A bytea value as stored. */
  function Varlena(v: Bytes): (s: Bytes)
    requires |v| + VARHDRSZ < MAX_SIZE
    ensures |s| == |v| + VARHDRSZ
  {
    Header(|v| + VARHDRSZ) + v
  }

  function Zeros(n: nat): (s: Bytes)
    ensures |s| == n
  {
    seq(n, i => 0)
  }

  predicate Fits(k: Key) {
    IntAlign(|k.lower| + VARHDRSZ) + |k.upper| + 2 * VARHDRSZ < MAX_SIZE
  }

  /** gbt_var_key_from_datum */
  function FromDatum(v: Bytes): Bytes
    requires |v| + 2 * VARHDRSZ < MAX_SIZE
  {
    Header(|v| + 2 * VARHDRSZ) + Varlena(v)
  }

  /** gbt_var_key_copy */
  function Copy(k: Key): Bytes
    requires Fits(k)
  {
    var lowersize, uppersize := |k.lower| + VARHDRSZ, |k.upper| + VARHDRSZ;
    Header(IntAlign(lowersize) + uppersize + VARHDRSZ)
      + (Varlena(k.lower) + (Zeros(IntAlign(lowersize) - lowersize) + Varlena(k.upper)))
  }

  /** The varlena at offset o, if all of it is there. */
  function ValueAt(s: Bytes, o: nat): Option<Bytes> {
    if o + 4 <= |s| && VARHDRSZ <= VarSize(s, o) && o + VarSize(s, o) <= |s| then Some(s[o + 4..o + VarSize(s, o)])
    else None
  }

  /** gbt_var_key_readable: the two bounds, and whether they are one and the same stored value. */
  function Readable(s: Bytes): Option<(Key, bool)>
    requires |s| >= 4
  {
    var lower := ValueAt(s, VARHDRSZ);
    if lower.None? then None
    else if VarSize(s, 0) > VARHDRSZ + VarSize(s, VARHDRSZ) then
      var upper := ValueAt(s, VARHDRSZ + IntAlign(VarSize(s, VARHDRSZ)));
      if upper.None? then None else Some((Key(lower.value, upper.value), false))
    else Some((Key(lower.value, lower.value), true))
  }

  lemma VarSizeAt(before: Bytes, size: nat, after: Bytes)
    requires size < MAX_SIZE
    ensures VarSize(before + (Header(size) + after), |before|) == size
  {
    HeaderRoundTrip(size);
    var s, o := before + (Header(size) + after), |before|;
    assert s[o] == Header(size)[0] && s[o + 1] == Header(size)[1] && s[o + 2] == Header(size)[2]
           && s[o + 3] == Header(size)[3];
  }

  lemma VarlenaAt(before: Bytes, v: Bytes, after: Bytes)
    requires |v| + VARHDRSZ < MAX_SIZE
    ensures var s := before + (Varlena(v) + after);
            |before| + 4 <= |s| && VarSize(s, |before|) == |v| + VARHDRSZ && ValueAt(s, |before|) == Some(v)
  {
    var s, o := before + (Varlena(v) + after), |before|;
    assert s == before + (Header(|v| + VARHDRSZ) + (v + after));
    VarSizeAt(before, |v| + VARHDRSZ, v + after);
    assert s[o + 4..o + 4 + |v|] == v;
  }

  lemma CopySize(k: Key)
    requires Fits(k)
    ensures |Copy(k)| >= 8 && VarSize(Copy(k), 0) == IntAlign(|k.lower| + VARHDRSZ) + |k.upper| + 2 * VARHDRSZ
  {
    var size := IntAlign(|k.lower| + VARHDRSZ) + |k.upper| + 2 * VARHDRSZ;
    var rest := Varlena(k.lower) + (Zeros(IntAlign(|k.lower| + VARHDRSZ) - (|k.lower| + VARHDRSZ)) + Varlena(k.upper));
    VarSizeAt([], size, rest);
    assert [] + (Header(size) + rest) == Copy(k);
  }

  lemma CopyLower(k: Key)
    requires Fits(k)
    ensures |Copy(k)| >= 8 && VarSize(Copy(k), VARHDRSZ) == |k.lower| + VARHDRSZ
            && ValueAt(Copy(k), VARHDRSZ) == Some(k.lower)
  {
    var lowersize := |k.lower| + VARHDRSZ;
    VarlenaAt(Header(IntAlign(lowersize) + |k.upper| + 2 * VARHDRSZ), k.lower,
              Zeros(IntAlign(lowersize) - lowersize) + Varlena(k.upper));
  }

  lemma Regroup(a: Bytes, b: Bytes, c: Bytes, d: Bytes)
    ensures (a + (b + c)) + (d + []) == a + (b + (c + d))
  {
  }

  lemma CopyUpper(k: Key)
    requires Fits(k)
    ensures ValueAt(Copy(k), VARHDRSZ + IntAlign(|k.lower| + VARHDRSZ)) == Some(k.upper)
  {
    var lowersize := |k.lower| + VARHDRSZ;
    var head, pad := Header(IntAlign(lowersize) + |k.upper| + 2 * VARHDRSZ), Zeros(IntAlign(lowersize) - lowersize);
    var before := head + (Varlena(k.lower) + pad);
    VarlenaAt(before, k.upper, []);
    Regroup(head, Varlena(k.lower), pad, Varlena(k.upper));
  }

  /** A stored inner key is read back as the bounds it was made from, and never taken for a leaf key. */
  lemma CopyReadsBack(k: Key)
    requires Fits(k)
    ensures Readable(Copy(k)) == Some((k, false))
  {
    CopySize(k);
    CopyLower(k);
    CopyUpper(k);
  }

  /** A stored leaf key is read back as its value, and taken for a leaf key. */
  lemma DatumReadsBack(v: Bytes)
    requires |v| + 2 * VARHDRSZ < MAX_SIZE
    ensures Readable(FromDatum(v)) == Some((LeafKey(v), true))
  {
    var head := Header(|v| + 2 * VARHDRSZ);
    VarSizeAt([], |v| + 2 * VARHDRSZ, Varlena(v));
    assert [] + (head + Varlena(v)) == FromDatum(v);
    VarlenaAt(head, v, []);
    assert head + (Varlena(v) + []) == FromDatum(v);
  }
}
