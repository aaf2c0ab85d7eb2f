/** The private random generator of the bloom access method (contrib/bloom/blutils.c).

    `next` is a signed 32-bit global, and the division that keeps the product within 31 bits is C's
    truncating one, so both are written out here instead of using Dafny's Euclidean operators. */
module BloomGenerator {
  import opened Basics

  // 2^31 - 1, the modulus of the generator
  const M: int := 0x7fff_ffff

  // 16807 * INVERSE is one more than a multiple of M
  const INVERSE: int := 1407677000

  predicate IsInt32(x: int) {
    -0x8000_0000 <= x <= 0x7fff_ffff
  }

  /** C's `/` for a positive divisor. */
  function TruncDiv(a: int, b: int): int
    requires b > 0
  {
    if a >= 0 then a / b else -((-a) / b)
  }

  /** C's `%` for a positive divisor: the sign follows the dividend. */
  function TruncMod(a: int, b: int): int
    requires b > 0
  {
    a - b * TruncDiv(a, b)
  }

  /** The multiplicative congruential generator that `myRand` claims to be. */
  function Lehmer(s: int): int {
    (16807 * s) % M
  }

  /** State after `mySrand(seed)`. */
  function Seeded(seed: int): int
    requires 0 <= seed < 0x1_0000_0000
  {
    TruncMod(ToInt32(seed), 0x7fff_fffe) + 1
  }

  /** State after k calls of `myRand` from state s. */
  function Iterate(s: int, k: nat): int {
    if k == 0 then s else Lehmer(Iterate(s, k - 1))
  }

  predicate DegenerateSeed(seed: int) {
    seed == 0xffff_ffff || seed == 0x8000_0001
  }

  class Generator {
    var next: int

    constructor ()
      ensures next == 0
    {
      next := 0;
    }

    /** myRand: every intermediate value is asserted to fit in 32 bits. */
    method Rand() returns (r: int)
      requires -M < next < M
      modifies this
      ensures next == Lehmer(old(next)) && 0 <= next < M
      ensures r == next - 1
    {
      var hi := TruncDiv(next, 127773);
      var lo := TruncMod(next, 127773);
      SchrageSplit(next);
      assert IsInt32(16807 * lo) && IsInt32(2836 * hi);
      var x := 16807 * lo - 2836 * hi;
      assert IsInt32(x);
      if x < 0 {
        x := x + M;
      }
      assert IsInt32(x);
      next := x;
      r := x - 1;
    }

    /** mySrand */
    method Srand(seed: int)
      requires 0 <= seed < 0x1_0000_0000
      modifies this
      ensures next == Seeded(seed) && -M < next < M
    {
      next := ToInt32(seed);
      next := TruncMod(next, 0x7fff_fffe) + 1;
      SeededRange(seed);
    }
  }

  /** Schrage's decomposition: no 32-bit overflow, and the result is the remainder of 16807 * s. */
  lemma SchrageSplit(s: int)
    requires -M < s < M
    ensures var hi := TruncDiv(s, 127773); var lo := TruncMod(s, 127773); var x := 16807 * lo - 2836 * hi;
            && IsInt32(16807 * lo) && IsInt32(2836 * hi) && -M < x < M
            && Lehmer(s) == (if x < 0 then x + M else x)
  {
    var hi := TruncDiv(s, 127773);
    var lo := TruncMod(s, 127773);
    var x := 16807 * lo - 2836 * hi;
    assert -127773 < lo < 127773;
    assert -16808 < hi < 16808;
    assert 16807 * s == M * hi + x;
    var y := if x < 0 then x + M else x;
    var q := if x < 0 then hi - 1 else hi;
    assert 16807 * s == M * q + y && 0 <= y < M;
    RemainderUnique(16807 * s, q, y);
  }

  lemma RemainderUnique(a: int, q: int, r: int)
    requires a == M * q + r && 0 <= r < M
    ensures a % M == r
  {
    assert a == M * (a / M) + a % M;
    assert M * (q - a / M) == a % M - r;
  }

  lemma SeededRange(seed: int)
    requires 0 <= seed < 0x1_0000_0000
    ensures -M < Seeded(seed) < M
    ensures Seeded(seed) == 0 <==> DegenerateSeed(seed)
  {
    var n := ToInt32(seed);
    var q := TruncDiv(n, 0x7fff_fffe);
    assert -1 <= q <= 1;
  }

  /** The generator never moves between zero and a nonzero state: 16807 is invertible modulo M. */
  lemma LehmerZero(s: int)
    requires -M < s < M
    ensures 0 <= Lehmer(s) < M
    ensures Lehmer(s) == 0 <==> s == 0
  {
    if Lehmer(s) == 0 {
      var q := (16807 * s) / M;
      assert 16807 * s == M * q;
      assert 16807 * INVERSE == M * 11017 + 1;
      assert s == M * (INVERSE * q - 11017 * s);
    }
  }

  lemma {:induction false} IterateZero(s: int, k: nat)
    requires -M < s < M
    ensures -M < Iterate(s, k) < M
    ensures k >= 1 ==> 0 <= Iterate(s, k)
    ensures Iterate(s, k) == 0 <==> s == 0
  {
    if k > 0 {
      IterateZero(s, k - 1);
      LehmerZero(Iterate(s, k - 1));
    }
  }

  /** `myRand` promises values in [0, 0x7ffffffd]. Every value drawn after seeding keeps that promise
      exactly when the seed is neither of the two that `mySrand` maps to state zero. */
  lemma DrawsInRange(seed: int)
    requires 0 <= seed < 0x1_0000_0000
    ensures (forall k: nat :: k >= 1 ==> 0 <= Iterate(Seeded(seed), k) - 1 <= 0x7fff_fffd) <==> !DegenerateSeed(seed)
  {
    SeededRange(seed);
    forall k: nat | k >= 1
      ensures 0 <= Iterate(Seeded(seed), k) - 1 <= 0x7fff_fffd <==> !DegenerateSeed(seed)
    {
      IterateZero(Seeded(seed), k);
    }
    if DegenerateSeed(seed) {
      assert Iterate(Seeded(seed), 1) - 1 < 0;
    }
  }

  /** The two seeds that fail: they leave the state at zero, and every draw is then -1. */
  lemma DegenerateSeedsDrawMinusOne(k: nat)
    requires k >= 1
    ensures Iterate(Seeded(0xffff_ffff), k) - 1 == -1
    ensures Iterate(Seeded(0x8000_0001), k) - 1 == -1
  {
    SeededRange(0xffff_ffff);
    SeededRange(0x8000_0001);
    IterateZero(Seeded(0xffff_ffff), k);
    IterateZero(Seeded(0x8000_0001), k);
  }
}
