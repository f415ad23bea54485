/**
 The bit arithmetic of `readerwriterqueue.h` on naturals: the masks that wrap ring indices and
 `ceilToPow2`, which smears the highest set bit of a word downwards.
 */
module Bits {

  function Pow2(k: nat): (p: nat)
    ensures p > 0
  {
    if k == 0 then 1 else 2 * Pow2(k - 1)
  }

  function BitAnd(x: nat, y: nat): nat
    decreases x
  {
    if x == 0 || y == 0 then 0
    else 2 * BitAnd(x / 2, y / 2) + if x % 2 == 1 && y % 2 == 1 then 1 else 0
  }

  function BitOr(x: nat, y: nat): nat
    decreases x + y
  {
    if x == 0 then y else if y == 0 then x
    else 2 * BitOr(x / 2, y / 2) + if x % 2 == 1 || y % 2 == 1 then 1 else 0
  }

  function Shr(x: nat, k: nat): nat
    decreases k
  {
    if k == 0 then x else Shr(x / 2, k - 1)
  }

  /** Masking with `size - 1` wraps an index that has just been incremented, for a power-of-two size. */
  lemma {:induction false} MaskWraps(y: nat, k: nat)
    requires y <= Pow2(k)
    ensures BitAnd(y, Pow2(k) - 1) == if y == Pow2(k) then 0 else y
    decreases k
  {
    if k > 0 && y > 0 {
      var p := Pow2(k - 1);
      assert (Pow2(k) - 1) / 2 == p - 1 && (Pow2(k) - 1) % 2 == 1;
      MaskWraps(y / 2, k - 1);
      if p == 1 {
        assert BitAnd(y / 2, 0) == 0;
      }
    }
  }

  lemma {:induction false} Pow2Grows(j: nat, k: nat)
    requires j <= k
    ensures Pow2(j) <= Pow2(k)
    ensures j < k ==> 2 * Pow2(j) <= Pow2(k)
    decreases k
  {
    if j < k {
      Pow2Grows(j, k - 1);
    }
  }

  lemma {:induction false} Pow2Adds(j: nat, k: nat)
    ensures Pow2(j + k) == Pow2(j) * Pow2(k)
    decreases k
  {
    if k > 0 {
      Pow2Adds(j, k - 1);
      assert Pow2(j + k) == 2 * (Pow2(j) * Pow2(k - 1));
    }
  }

  lemma {:induction false} OrStaysInRange(y: nat, z: nat, k: nat)
    requires y < Pow2(k) && z < Pow2(k)
    ensures z <= BitOr(y, z) < Pow2(k)
    decreases k
  {
    if k > 0 && y > 0 && z > 0 {
      OrStaysInRange(y / 2, z / 2, k - 1);
    }
  }

  /** Bits above position k are not touched by a word below 2^k. */
  lemma {:induction false} OrBelow(a: nat, k: nat, y: nat, z: nat)
    requires y < Pow2(k) && z < Pow2(k)
    ensures BitOr(a * Pow2(k) + y, z) == a * Pow2(k) + BitOr(y, z)
    decreases k
  {
    if k == 0 {
      assert y == 0 && z == 0;
    } else if z > 0 {
      var x := a * Pow2(k) + y;
      var b := a * Pow2(k - 1);
      assert x == 2 * b + y;
      assert x / 2 == b + y / 2 && x % 2 == y % 2;
      OrBelow(a, k - 1, y / 2, z / 2);
      if y == 0 {
        assert BitOr(0, z / 2) == z / 2;
        assert x == 0 || BitOr(x, z) == 2 * (b + z / 2) + z % 2;
      }
    }
  }

  lemma {:induction false} ShrBetween(y: nat, m: nat, a: nat, b: nat)
    requires a * Pow2(m) <= y < b * Pow2(m)
    ensures a <= Shr(y, m) < b
    decreases m
  {
    if m > 0 {
      assert a * Pow2(m) == 2 * (a * Pow2(m - 1)) && b * Pow2(m) == 2 * (b * Pow2(m - 1));
      ShrBetween(y / 2, m - 1, a, b);
    }
  }

  /** y is a word of n bits of which the highest m are set. */
  ghost predicate Ones(y: nat, n: nat, m: nat) {
    m <= n && Pow2(n) - Pow2(n - m) <= y < Pow2(n)
  }

  function Min(a: nat, b: nat): nat {
    if a < b then a else b
  }

  lemma Distribute(a: int, b: int, c: int)
    ensures (a - b) * c == a * c - b * c
  {
  }

  /** One smearing step doubles the number of set bits at the top. */
  lemma Smear(y: nat, n: nat, m: nat)
    requires Ones(y, n, m)
    ensures Ones(BitOr(y, Shr(y, m)), n, Min(m + m, n))
  {
    var low, high, m2 := Pow2(n - m), Pow2(m), Min(m + m, n);
    var least := Pow2(n - m2);
    assert low * high == Pow2(n) by { Pow2Adds(n - m, m); }
    assert high * low == Pow2(n);
    assert least <= low by { Pow2Grows(n - m2, n - m); }
    assert low <= least * high by {
      Pow2Adds(n - m2, m);
      Pow2Grows(n - m, n - m2 + m);
    }
    Distribute(low, least, high);
    ShrBetween(y, m, low - least, low);
    var z, rest := Shr(y, m), y - (Pow2(n) - low);
    Distribute(high, 1, low);
    OrBelow(high - 1, n - m, rest, z);
    OrStaysInRange(rest, z, n - m);
  }

  /** The same when all n bits may be set already. */
  lemma SmearBy(y: nat, n: nat, m: nat)
    requires Ones(y, n, Min(m, n))
    ensures Ones(BitOr(y, Shr(y, m)), n, Min(m + m, n))
  {
    if m <= n {
      Smear(y, n, m);
    } else {
      assert Pow2(0) == 1;
      Pow2Grows(n, m);
      ShrBetween(y, m, 0, 1);
    }
  }

  lemma {:induction false} BitLength(y: nat) returns (n: nat)
    ensures y < Pow2(n) && (if y == 0 then n == 0 else n > 0 && Pow2(n - 1) <= y)
    decreases y
  {
    if y == 0 {
      n := 0;
    } else {
      n := BitLength(y / 2);
      n := n + 1;
    }
  }

  ghost predicate IsPow2(x: nat) {
    exists k: nat :: x == Pow2(k)
  }

  /** The statement `x |= x >> m` on a word of n bits whose highest m are set. */
  method OrShift(y: nat, m: nat, ghost n: nat) returns (z: nat)
    requires Ones(y, n, Min(m, n))
    ensures Ones(z, n, Min(m + m, n))
  {
    SmearBy(y, n, m);
    z := BitOr(y, Shr(y, m));
  }

  /** Number of bits of a `size_t`. */
  const WORD_BITS: nat := 64

  /** The words for which the least power of two above them is a word again have at most 63 bits. */
  lemma FitsInWord(y: nat, n: nat)
    requires y < Pow2(WORD_BITS - 1) && (n > 0 ==> Pow2(n - 1) <= y)
    ensures n < WORD_BITS
  {
    if n >= WORD_BITS { Pow2Grows(WORD_BITS - 1, n - 1); }
  }

  lemma LeastPow2(x: nat, n: nat, k: nat)
    requires x <= Pow2(k) && (n > 0 ==> Pow2(n - 1) < x) && x > 0
    ensures Pow2(n) <= Pow2(k)
  {
    if k < n {
      Pow2Grows(k, n - 1);
    } else {
      Pow2Grows(n, k);
    }
  }

  /** `ceilToPow2` returns the least power of two that is at least x, for words of 64 bits. */
  method CeilToPow2(x: nat) returns (r: nat)
    requires 0 < x <= Pow2(WORD_BITS - 1)
    ensures IsPow2(r) && x <= r
    ensures forall k: nat :: x <= Pow2(k) ==> r <= Pow2(k)
  {
    var y: nat := x - 1;
    ghost var n := BitLength(y);
    FitsInWord(y, n);
    y := OrShift(y, 1, n);
    y := OrShift(y, 2, n);
    y := OrShift(y, 4, n);
    var i: nat := 1;
    while i < 8
      invariant i == 1 || i == 2 || i == 4 || i == 8
      invariant Ones(y, n, Min(8 * i, n))
    {
      y := OrShift(y, 8 * i, n);
      i := 2 * i;
    }
    r := y + 1;
    assert r == Pow2(n);
    forall k: nat | x <= Pow2(k) ensures r <= Pow2(k) { LeastPow2(x, n, k); }
  }
}
