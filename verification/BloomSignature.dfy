/** Signatures of the bloom access method: which bits a column value sets (signValue), how a row and a
    search get their signatures (BloomFormTuple, first half of blgetbitmap), and the word-by-word
    subset test of the scan.  The reference meaning of a signature is the set of its bit positions. */
module BloomSignature {
  import opened Basics
  import opened BloomGenerator

  const WORD_BITS := 16

  /** A uint16 as its sixteen bits, least significant first. */
  type Word = w: seq<bool> | |w| == WORD_BITS witness seq(WORD_BITS, _ => false)

  type Signature = seq<Word>

  const ZERO: Word := seq(WORD_BITS, _ => false)

  // ---------- words and bits ----------

  function And(a: Word, b: Word): Word {
    seq(WORD_BITS, k requires 0 <= k < WORD_BITS => a[k] && b[k])
  }

  function Or(a: Word, b: Word): Word {
    seq(WORD_BITS, k requires 0 <= k < WORD_BITS => a[k] || b[k])
  }

  /** 0x01 << k */
  function Mask(k: int): Word
    requires 0 <= k < WORD_BITS
  {
    seq(WORD_BITS, j => j == k)
  }

  predicate HasBit(sign: Signature, n: int)
    requires 0 <= n < |sign| * WORD_BITS
  {
    sign[n / WORD_BITS][n % WORD_BITS]
  }

  ghost function Bits(sign: Signature): set<int> {
    set n | 0 <= n < |sign| * WORD_BITS && HasBit(sign, n)
  }

  /** SETBIT */
  function SetBit(sign: Signature, n: int): Signature
    requires 0 <= n < |sign| * WORD_BITS
  {
    sign[n / WORD_BITS := Or(sign[n / WORD_BITS], Mask(n % WORD_BITS))]
  }

  /** The test of the innermost scan loop, over all words. */
  predicate CoversWords(tuple: Signature, query: Signature)
    requires |tuple| == |query|
  {
    forall i :: 0 <= i < |query| ==> And(tuple[i], query[i]) == query[i]
  }

  lemma SetBitBits(sign: Signature, n: int)
    requires 0 <= n < |sign| * WORD_BITS
    ensures Bits(SetBit(sign, n)) == Bits(sign) + {n}
  {
    forall m | 0 <= m < |sign| * WORD_BITS
      ensures HasBit(SetBit(sign, n), m) <==> HasBit(sign, m) || m == n
    {
    }
  }

  lemma WordSubset(a: Word, b: Word)
    ensures And(a, b) == b <==> forall k :: 0 <= k < WORD_BITS && b[k] ==> a[k]
  {
    if And(a, b) == b {
      forall k | 0 <= k < WORD_BITS && b[k]
        ensures a[k]
      {
        assert And(a, b)[k];
      }
    }
  }

  /** The word loop of the scan decides inclusion of the bit sets. */
  lemma CoversIsInclusion(tuple: Signature, query: Signature)
    requires |tuple| == |query|
    ensures CoversWords(tuple, query) <==> Bits(query) <= Bits(tuple)
  {
    forall i | 0 <= i < |query|
      ensures And(tuple[i], query[i]) == query[i] <==> forall k :: 0 <= k < WORD_BITS && query[i][k] ==> tuple[i][k]
    {
      WordSubset(tuple[i], query[i]);
    }
    if CoversWords(tuple, query) {
      forall n | n in Bits(query)
        ensures n in Bits(tuple)
      {
        assert And(tuple[n / WORD_BITS], query[n / WORD_BITS]) == query[n / WORD_BITS];
      }
    }
    if Bits(query) <= Bits(tuple) {
      forall i, k | 0 <= i < |query| && 0 <= k < WORD_BITS && query[i][k]
        ensures tuple[i][k]
      {
        var n := i * WORD_BITS + k;
        assert n / WORD_BITS == i && n % WORD_BITS == k;
        assert n in Bits(query);
        assert HasBit(tuple, n);
      }
    }
  }

  // ---------- which bits a value sets ----------

  /** Index options: signature length in words, and bits generated for each column. */
  datatype Options = Options(words: nat, bitSize: seq<nat>) {
    predicate Valid() {
      1 <= words <= 256 && |bitSize| <= 32
    }

    function Length(): int {
      words * WORD_BITS
    }
  }

  function Pow2(bits: nat): nat {
    if bits == 0 then 1 else 2 * Pow2(bits - 1)
  }

  lemma Pow2At32()
    ensures Pow2(32) == 0x1_0000_0000
  {
    assert Pow2(8) == 0x100;
    assert Pow2(16) == 0x1_0000;
    assert Pow2(24) == 0x100_0000;
  }

  /** Bitwise exclusive or of two unsigned numbers of the given width. */
  function Xor(a: nat, b: nat, bits: nat): (r: nat)
    requires a < Pow2(bits) && b < Pow2(bits)
    ensures r < Pow2(bits)
    ensures r == 0 <==> a == b
  {
    if bits == 0 then 0 else (if a % 2 == b % 2 then 0 else 1) + 2 * Xor(a / 2, b / 2, bits - 1)
  }

  type uint32 = x: int | 0 <= x < 0x1_0000_0000

  /** hashVal ^ myRand() */
  function Mix(hash: uint32, draw: int): uint32
    requires 0 <= draw < M
  {
    Pow2At32();
    Xor(hash, draw, 32)
  }

  /** The seed of a column value; the column number seeds the draw before it. */
  function ValueSeed(hash: uint32, attno: nat): uint32
    requires attno < 32
  {
    LehmerZero(attno + 1);
    Mix(hash, Lehmer(attno + 1) - 1)
  }

  lemma SeededByColumn(attno: nat)
    requires attno < 32
    ensures Seeded(attno) == attno + 1 && 0 <= Lehmer(Seeded(attno)) - 1 < M
  {
    LehmerZero(attno + 1);
  }

  /** Position of the j-th bit (from 1) set for a value with the given seed. */
  function DrawnBit(seed: uint32, length: int, j: nat): int
    requires length > 0
  {
    TruncMod(Iterate(Seeded(seed), j) - 1, length)
  }

  ghost function DrawnBits(seed: uint32, length: int, count: nat): set<int>
    requires length > 0
  {
    if count == 0 then {} else DrawnBits(seed, length, count - 1) + {DrawnBit(seed, length, count)}
  }

  ghost function ValueBits(hash: uint32, attno: nat, opts: Options): set<int>
    requires opts.Valid() && attno < |opts.bitSize|
  {
    DrawnBits(ValueSeed(hash, attno), opts.Length(), opts.bitSize[attno])
  }

  predicate Signable(hash: uint32, attno: nat)
    requires attno < 32
  {
    !DegenerateSeed(ValueSeed(hash, attno))
  }

  lemma TruncModRange(a: int, b: int)
    requires a >= -1 && b > 1
    ensures 0 <= TruncMod(a, b) < b <==> a >= 0
  {
    assert a >= 0 ==> a == b * (a / b) + a % b;
  }

  lemma DrawnBitInRange(seed: uint32, length: int, j: nat)
    requires length > 1 && j >= 1
    ensures 0 <= DrawnBit(seed, length, j) < length <==> !DegenerateSeed(seed)
  {
    SeededRange(seed);
    IterateZero(Seeded(seed), j);
    TruncModRange(Iterate(Seeded(seed), j) - 1, length);
  }

  ghost predicate Within(bits: set<int>, length: int) {
    forall n :: n in bits ==> 0 <= n < length
  }

  lemma WithinAdd(bits: set<int>, n: int, length: int)
    ensures Within(bits + {n}, length) <==> Within(bits, length) && 0 <= n < length
  {
    assert n in bits + {n};
    assert Within(bits + {n}, length) ==> forall m :: m in bits ==> m in bits + {n};
  }

  /** The bits drawn for a value all lie within the signature exactly when its seed is not one of the
      two degenerate ones (or when it draws none). */
  lemma {:induction false} DrawnBitsInRange(seed: uint32, length: int, count: nat)
    requires length > 1
    ensures Within(DrawnBits(seed, length, count), length) <==> (!DegenerateSeed(seed) || count == 0)
  {
    if count > 0 {
      DrawnBitsInRange(seed, length, count - 1);
      DrawnBitInRange(seed, length, count);
      WithinAdd(DrawnBits(seed, length, count - 1), DrawnBit(seed, length, count), length);
    }
  }

  method SetBitInPlace(sign: array<Word>, n: int)
    requires 0 <= n < sign.Length * WORD_BITS
    modifies sign
    ensures sign[..] == SetBit(old(sign[..]), n)
    ensures Bits(sign[..]) == Bits(old(sign[..])) + {n}
  {
    SetBitBits(sign[..], n);
    sign[n / WORD_BITS] := Or(sign[n / WORD_BITS], Mask(n % WORD_BITS));
  }

  /** The loop of signValue, once the generator has been seeded for the value. */
  method DrawBits(g: Generator, sign: array<Word>, ghost seed: uint32, count: nat)
    requires sign.Length > 0 && g.next == Seeded(seed) && !DegenerateSeed(seed)
    modifies g, sign
    ensures Bits(sign[..]) == Bits(old(sign[..])) + DrawnBits(seed, sign.Length * WORD_BITS, count)
  {
    SeededRange(seed);
    var j := 0;
    while j < count
      invariant 0 <= j <= count
      invariant g.next == Iterate(Seeded(seed), j) && -M < g.next < M
      invariant Bits(sign[..]) == Bits(old(sign[..])) + DrawnBits(seed, sign.Length * WORD_BITS, j)
    {
      var draw := g.Rand();
      DrawnBitInRange(seed, sign.Length * WORD_BITS, j + 1);
      SetBitInPlace(sign, TruncMod(draw, sign.Length * WORD_BITS));
      j := j + 1;
    }
  }

  lemma MixIsSeed(hash: uint32, attno: nat, r: int)
    requires attno < 32 && r == Lehmer(attno + 1) - 1
    ensures 0 <= r < M && Mix(hash, r) == ValueSeed(hash, attno)
  {
    LehmerZero(attno + 1);
  }

  method DrawForColumn(g: Generator, attno: nat) returns (r: int)
    requires attno < 32
    modifies g
    ensures r == Lehmer(attno + 1) - 1
  {
    SeededByColumn(attno);
    g.Srand(attno);
    r := g.Rand();
  }

  /** The seeding of signValue: the column's number first, then what it draws, mixed with the value's hash. */
  method SeedForValue(g: Generator, hash: uint32, attno: nat)
    requires attno < 32
    modifies g
    ensures g.next == Seeded(ValueSeed(hash, attno))
  {
    var r := DrawForColumn(g, attno);
    MixIsSeed(hash, attno, r);
    g.Srand(Mix(hash, r));
  }

  /** signValue, on the words of a signature under construction. */
  method SignValue(g: Generator, sign: array<Word>, hash: uint32, attno: nat, opts: Options)
    requires opts.Valid() && attno < |opts.bitSize| && sign.Length == opts.words
    requires Signable(hash, attno)
    modifies g, sign
    ensures Bits(sign[..]) == Bits(old(sign[..])) + ValueBits(hash, attno, opts)
  {
    SeedForValue(g, hash, attno);
    DrawBits(g, sign, ValueSeed(hash, attno), opts.bitSize[attno]);
  }

  // ---------- rows and searches ----------

  /** An equality scan key on column `attno` (counted from 0); None is a NULL argument. */
  datatype ScanKey<V> = ScanKey(attno: nat, argument: Option<V>)

  ghost predicate RowSignable<V>(row: seq<Option<V>>, hash: (nat, V) -> uint32)
    requires |row| <= 32
  {
    forall i :: 0 <= i < |row| && row[i].Some? ==> Signable(hash(i, row[i].value), i)
  }

  ghost predicate KeysSignable<V>(keys: seq<ScanKey<V>>, hash: (nat, V) -> uint32, opts: Options)
    requires opts.Valid()
  {
    forall i :: 0 <= i < |keys| ==>
      keys[i].attno < |opts.bitSize|
        && (keys[i].argument.Some? ==> Signable(hash(keys[i].attno, keys[i].argument.value), keys[i].attno))
  }

  ghost function RowBits<V>(row: seq<Option<V>>, hash: (nat, V) -> uint32, opts: Options, n: nat): set<int>
    requires opts.Valid() && n <= |row| == |opts.bitSize|
  {
    if n == 0 then {}
    else RowBits(row, hash, opts, n - 1)
         + if row[n - 1].Some? then ValueBits(hash(n - 1, row[n - 1].value), n - 1, opts) else {}
  }

  ghost predicate KeysNotNull<V>(keys: seq<ScanKey<V>>) {
    forall i :: 0 <= i < |keys| ==> keys[i].argument.Some?
  }

  ghost function KeyBits<V>(keys: seq<ScanKey<V>>, hash: (nat, V) -> uint32, opts: Options, n: nat): set<int>
    requires opts.Valid() && KeysSignable(keys, hash, opts) && n <= |keys|
    requires forall i :: 0 <= i < n ==> keys[i].argument.Some?
  {
    if n == 0 then {}
    else
      var key := keys[n - 1];
      KeyBits(keys, hash, opts, n - 1) + ValueBits(hash(key.attno, key.argument.value), key.attno, opts)
  }

  method ZeroSignature(words: nat) returns (sign: array<Word>)
    ensures fresh(sign) && sign.Length == words && Bits(sign[..]) == {}
  {
    sign := new Word[words](_ => ZERO);
    assert forall n :: 0 <= n < words * WORD_BITS ==> !HasBit(sign[..], n);
  }

  /** BloomFormTuple: the signature of a row, NULL columns skipped. */
  method FormSignature<V>(opts: Options, row: seq<Option<V>>, hash: (nat, V) -> uint32) returns (sign: Signature)
    requires opts.Valid() && |row| == |opts.bitSize| && RowSignable(row, hash)
    ensures |sign| == opts.words && Bits(sign) == RowBits(row, hash, opts, |row|)
  {
    var g := new Generator();
    var words := ZeroSignature(opts.words);
    var i := 0;
    while i < |row|
      invariant 0 <= i <= |row|
      invariant Bits(words[..]) == RowBits(row, hash, opts, i)
    {
      if row[i].Some? {
        SignValue(g, words, hash(i, row[i].value), i, opts);
      }
      i := i + 1;
    }
    sign := words[..];
  }

  method SignKey<V>(g: Generator, words: array<Word>, keys: seq<ScanKey<V>>, hash: (nat, V) -> uint32, opts: Options,
                    i: nat)
    requires opts.Valid() && KeysSignable(keys, hash, opts) && i < |keys|
    requires forall k :: 0 <= k <= i ==> keys[k].argument.Some?
    requires words.Length == opts.words && Bits(words[..]) == KeyBits(keys, hash, opts, i)
    modifies g, words
    ensures Bits(words[..]) == KeyBits(keys, hash, opts, i + 1)
  {
    SignValue(g, words, hash(keys[i].attno, keys[i].argument.value), keys[i].attno, opts);
  }

  /** First half of blgetbitmap: the search signature, or None as soon as a key is NULL. */
  method ScanSignature<V>(opts: Options, keys: seq<ScanKey<V>>, hash: (nat, V) -> uint32)
    returns (sign: Option<Signature>)
    requires opts.Valid() && KeysSignable(keys, hash, opts)
    ensures sign.Some? <==> KeysNotNull(keys)
    ensures sign.Some? ==> |sign.value| == opts.words && Bits(sign.value) == KeyBits(keys, hash, opts, |keys|)
  {
    var g := new Generator();
    var words := ZeroSignature(opts.words);
    var i := 0;
    while i < |keys|
      invariant 0 <= i <= |keys|
      invariant forall k :: 0 <= k < i ==> keys[k].argument.Some?
      invariant Bits(words[..]) == KeyBits(keys, hash, opts, i)
    {
      if keys[i].argument.None? {
        return None;
      }
      SignKey(g, words, keys, hash, opts, i);
      i := i + 1;
    }
    sign := Some(words[..]);
  }

  /** The innermost loop of blgetbitmap, with its early exit. */
  method Covers(tuple: Signature, query: Signature) returns (res: bool)
    requires |tuple| == |query|
    ensures res <==> Bits(query) <= Bits(tuple)
  {
    CoversIsInclusion(tuple, query);
    res := true;
    var i := 0;
    while i < |query|
      invariant 0 <= i <= |query|
      invariant res
      invariant forall k :: 0 <= k < i ==> And(tuple[k], query[k]) == query[k]
    {
      if And(tuple[i], query[i]) != query[i] {
        res := false;
        break;
      }
      i := i + 1;
    }
  }

  // ---------- a search never misses a row it asks for ----------

  /** The row satisfies every key: its column is not NULL and equal, in the operator's sense. */
  ghost predicate RowMatches<V>(row: seq<Option<V>>, keys: seq<ScanKey<V>>, eq: (nat, V, V) -> bool) {
    forall i :: 0 <= i < |keys| ==>
      && keys[i].argument.Some? && keys[i].attno < |row| && row[keys[i].attno].Some?
      && eq(keys[i].attno, row[keys[i].attno].value, keys[i].argument.value)
  }

  /** The contract of a hash support function: equal values have equal hashes. */
  ghost predicate HashRespects<V(!new)>(hash: (nat, V) -> uint32, eq: (nat, V, V) -> bool) {
    forall a, v, w :: eq(a, v, w) ==> hash(a, v) == hash(a, w)
  }

  lemma {:induction false} ColumnBitsInRow<V>(row: seq<Option<V>>, hash: (nat, V) -> uint32, opts: Options, n: nat,
                                              attno: nat)
    requires opts.Valid() && attno < n <= |row| == |opts.bitSize| && row[attno].Some?
    ensures ValueBits(hash(attno, row[attno].value), attno, opts) <= RowBits(row, hash, opts, n)
  {
    if attno < n - 1 {
      ColumnBitsInRow(row, hash, opts, n - 1, attno);
    }
  }

  /** Every bit of a search signature is in the signature of every row that satisfies the search. */
  lemma {:induction false} MatchingRowCovers<V(!new)>(row: seq<Option<V>>, keys: seq<ScanKey<V>>,
                                                      hash: (nat, V) -> uint32,
                                              eq: (nat, V, V) -> bool, opts: Options, n: nat)
    requires opts.Valid() && |row| == |opts.bitSize| && KeysSignable(keys, hash, opts) && n <= |keys|
    requires RowMatches(row, keys, eq) && HashRespects(hash, eq)
    ensures KeyBits(keys, hash, opts, n) <= RowBits(row, hash, opts, |row|)
  {
    if n > 0 {
      MatchingRowCovers(row, keys, hash, eq, opts, n - 1);
      var attno := keys[n - 1].attno;
      ColumnBitsInRow(row, hash, opts, |row|, attno);
      assert eq(attno, row[attno].value, keys[n - 1].argument.value);
    }
  }
}
