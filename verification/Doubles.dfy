/**
 The division `std::ceil(range / (double)count)` on doubles, with 53 binary digits and rounding to the nearest
 number, on ties to the even one (binary64 of IEEE 754).
 */
module Doubles {
  import opened Bits

  const TWO_52: nat := 0x10_0000_0000_0000
  const TWO_53: nat := 0x20_0000_0000_0000

  function CeilDiv(a: nat, b: nat): (q: nat)
    requires b > 0
    ensures a <= q * b < a + b
  {
    (a + b - 1) / b
  }

  /** The integer nearest to a quotient, the even one of two. */
  function Rounded(a: nat, b: nat): nat
    requires b > 0
  {
    var q, r := a / b, a % b;
    if 2 * r > b || (2 * r == b && q % 2 == 1) then q + 1 else q
  }

  /** How often a quotient is halved until it has at most 53 digits before the point. */
  function Halvings(a: nat, b: nat): nat
    requires b > 0
    decreases a - b
  {
    if a < b * TWO_53 then 0 else 1 + Halvings(a, 2 * b)
  }

  /** How often a quotient is doubled until it has at least 53 digits before the point. */
  function Doublings(a: nat, b: nat): nat
    requires a > 0 && b > 0
    decreases b * TWO_52 - a
  {
    if a >= b * TWO_52 then 0 else 1 + Doublings(2 * a, b)
  }

  /** The double nearest to an integer. */
  function ToDouble(v: nat): nat {
    var p := Pow2(Halvings(v, 1));
    Rounded(v, p) * p
  }

  /** The ceiling of the double nearest to a quotient. */
  function CeilOfQuotient(d: nat, n: nat): nat
    requires d > 0 && n > 0
  {
    if d < n * TWO_53 then
      var p := Pow2(Doublings(d, n));
      CeilDiv(Rounded(d * p, n), p)
    else
      var p := Pow2(Halvings(d, n));
      Rounded(d, n * p) * p
  }

  lemma RoundedIsNear(a: nat, b: nat)
    requires b > 0
    ensures 2 * a - b <= 2 * (Rounded(a, b) * b) <= 2 * a + b
    ensures a % b == 0 ==> Rounded(a, b) * b == a
    ensures a >= 8 * b ==> 9 * (Rounded(a, b) * b) >= 8 * a
  {
    var q, r := a / b, a % b;
    assert a == q * b + r;
    assert (q + 1) * b == q * b + b;
    if a >= 8 * b {
      assert q >= 8 by { if q <= 7 { Times(q, 7, b); } }
      Times(8, q, b);
    }
  }

  lemma Times(a: int, b: int, c: nat)
    requires a <= b
    ensures a * c <= b * c
  {
  }

  lemma {:induction false} HalvingsFit(a: nat, b: nat)
    requires b > 0
    ensures a < b * TWO_53 * Pow2(Halvings(a, b))
    ensures a >= b * TWO_53 ==> a >= b * Pow2(Halvings(a, b)) * TWO_52
    decreases a - b
  {
    if a >= b * TWO_53 {
      HalvingsFit(a, 2 * b);
      var p := Pow2(Halvings(a, 2 * b));
      assert Pow2(Halvings(a, b)) == 2 * p;
      assert b * TWO_53 * (2 * p) == 2 * b * TWO_53 * p;
      assert b * (2 * p) == 2 * b * p;
      if a < 2 * b * TWO_53 {
        assert Halvings(a, 2 * b) == 0;
      }
    }
  }

  lemma {:induction false} DoublingsFit(a: nat, b: nat)
    requires a > 0 && b > 0
    ensures a * Pow2(Doublings(a, b)) >= b * TWO_52
    decreases b * TWO_52 - a
  {
    if a < b * TWO_52 {
      DoublingsFit(2 * a, b);
      var p := Pow2(Doublings(2 * a, b));
      assert a * (2 * p) == 2 * a * p;
    }
  }

  // ---------------------------------------------------------------------------------------------
  // Error bounds
  // ---------------------------------------------------------------------------------------------

  lemma DoubleIsNear(v: nat)
    ensures 9 * ToDouble(v) >= 8 * v && (v > 0 ==> ToDouble(v) > 0)
    ensures v <= TWO_53 ==> ToDouble(v) == v
  {
    var p := Pow2(Halvings(v, 1));
    HalvingsFit(v, 1);
    RoundedIsNear(v, p);
    if v < TWO_53 {
      assert p == 1;
    } else {
      assert v >= p * TWO_52;
      if v == TWO_53 {
        assert Halvings(v, 2) == 0;
        assert p == 2;
      }
    }
  }

  /** The rounded widths of n buckets are together not much less than what is divided. */
  lemma QuotientIsNear(d: nat, n: nat)
    requires d > 0 && n > 0
    ensures 9 * (n * CeilOfQuotient(d, n)) >= 8 * d
  {
    if d < n * TWO_53 {
      var p := Pow2(Doublings(d, n));
      DoublingsFit(d, n);
      Times(8, TWO_52, n);
      RoundedIsNear(d * p, n);
      CeilIsNear(d, n, p, Rounded(d * p, n));
    } else {
      var p := Pow2(Halvings(d, n));
      HalvingsFit(d, n);
      Times(8, TWO_52, n * p);
      RoundedIsNear(d, n * p);
      Regroup(Rounded(d, n * p), n, p);
    }
  }

  lemma Regroup(m: nat, n: nat, p: nat)
    ensures m * (n * p) == n * (m * p)
    ensures m * p * n == n * m * p
  {
  }

  lemma CeilIsNear(d: nat, n: nat, p: nat, m: nat)
    requires p > 0 && 9 * (m * n) >= 8 * (d * p)
    ensures 9 * (n * CeilDiv(m, p)) >= 8 * d
  {
    var size := CeilDiv(m, p);
    Times(m, size * p, n);
    Regroup(size, n, p);
    NineEighths(n * size, d, p);
  }

  lemma NineEighths(a: nat, d: nat, p: nat)
    requires p > 0 && 9 * (a * p) >= 8 * (d * p)
    ensures 9 * a >= 8 * d
  {
    Divide(8 * d, 9 * a, p);
  }

  lemma Divide(a: int, b: int, c: nat)
    requires c > 0 && a * c <= b * c
    ensures a <= b
  {
    if a > b { Times(b + 1, a, c); }
  }

  /** A quotient that is an integer with at most 53 digits is exact. */
  lemma ExactQuotient(d: nat, n: nat, q: nat)
    requires d > 0 && n > 0 && d == n * q && d < n * TWO_53
    ensures CeilOfQuotient(d, n) == q
  {
    var p := Pow2(Doublings(d, n));
    assert d * p == n * (q * p);
    Multiple(q * p, n);
    Divide(Rounded(d * p, n), q * p, n);
    var size := CeilDiv(q * p, p);
    Divide(q, size, p);
    if size > q { Times(q + 1, size, p); }
  }

  lemma Multiple(q: nat, n: nat)
    requires n > 0
    ensures (n * q) % n == 0 && Rounded(n * q, n) == q
  {
    var a := n * q;
    var k := a / n;
    assert a == k * n + a % n;
    if k < q { Times(k + 1, q, n); }
    if k > q { Times(q + 1, k, n); }
  }

  /** Up to 2 to the power of 53 the buckets together are wide enough. */
  lemma SmallQuotientCovers(d: nat, n: nat)
    requires 0 < d <= TWO_53 && n > 0
    ensures n * CeilOfQuotient(d, n) >= d
  {
    if d == n * TWO_53 {
      assert n == 1 by { if n >= 2 { Times(2, n, TWO_53); } }
      assert Halvings(d, 2) == 0 && Pow2(Halvings(d, 1)) == 2;
      RoundedIsNear(d, 2);
    } else {
      Times(1, n, TWO_53);
      var p := Pow2(Doublings(d, n));
      DoublingsFit(d, n);
      CeilCovers(d, n, p, Rounded(d * p, n));
    }
  }

  lemma CeilCovers(d: nat, n: nat, p: nat, m: nat)
    requires 0 < d <= TWO_53 && n > 0 && p > 0 && d * p >= n * TWO_52 && m == Rounded(d * p, n)
    ensures n * CeilDiv(m, p) >= d
  {
    var size := CeilDiv(m, p);
    NoGap(d, n, p, m);
    Times(m, size * p, n);
    Regroup(size, n, p);
    if n * size <= d - 1 {
      Times(n * size, d - 1, p);
    }
  }

  /** A rounding error of half a last digit is less than the distance of the next integer. */
  lemma NoGap(d: nat, n: nat, p: nat, m: nat)
    requires 0 < d <= TWO_53 && n > 0 && p > 0 && m == Rounded(d * p, n)
    requires d * p >= n * TWO_52
    ensures m * n > (d - 1) * p
  {
    RoundedIsNear(d * p, n);
    Times(d, TWO_53, p);
    assert (d - 1) * p == d * p - p;
    assert 2 * p >= n by { Divide(n, 2 * p, TWO_52); }
    if 2 * p == n {
      Multiple(TWO_52, n);
    }
  }

  lemma QuotientIsBounded(d: nat, n: nat)
    requires 0 < d < n * TWO_53
    ensures CeilOfQuotient(d, n) <= d + 1
  {
    var p := Pow2(Doublings(d, n));
    var m := Rounded(d * p, n);
    var size := CeilDiv(m, p);
    RoundedIsNear(d * p, n);
    AtMostOneMore(d * p, n);
    assert (d + 2) * p == d * p + 2 * p;
    if size >= d + 2 { Times(d + 2, size, p); }
  }

  lemma AtMostOneMore(a: nat, n: nat)
    requires n > 0
    ensures Rounded(a, n) <= a + 1
  {
    assert a == (a / n) * n + a % n;
    Times(1, n, a / n);
  }

  // ---------------------------------------------------------------------------------------------
  // The width of a bucket
  // ---------------------------------------------------------------------------------------------

  /** The width of each of `count` buckets for a range of values. */
  function Width(range: nat, count: nat): (width: nat)
    requires range > 0 && count > 0
  {
    DoubleIsNear(range);
    CeilOfQuotient(ToDouble(range), count)
  }

  lemma WidthIsNear(range: nat, count: nat)
    requires range > 0 && count > 0
    ensures Width(range, count) > 0 && 81 * (count * Width(range, count)) >= 64 * range
  {
    DoubleIsNear(range);
    QuotientIsNear(ToDouble(range), count);
    TwoErrors(count, Width(range, count), ToDouble(range), range);
  }

  lemma TwoErrors(n: nat, width: nat, d: nat, range: nat)
    requires 9 * (n * width) >= 8 * d && 9 * d >= 8 * range && range > 0
    ensures width > 0 && 81 * (n * width) >= 64 * range
  {
  }

  /** Up to a range of 2 to the power of 53, rounding never makes the buckets too narrow. */
  lemma SmallRangeIsCovered(range: nat, count: nat)
    requires 0 < range <= TWO_53 && count > 0
    ensures range <= count * Width(range, count) && Width(range, count) <= range + 1
  {
    DoubleIsNear(range);
    SmallQuotientCovers(range, count);
    if range < count * TWO_53 {
      QuotientIsBounded(range, count);
    } else {
      assert count == 1 by { if count >= 2 { Times(2, count, TWO_53); } }
      assert Halvings(range, 2) == 0 && Pow2(Halvings(range, 1)) == 2;
      RoundedIsNear(range, 2);
    }
  }

  /** A range that is a multiple of the number of buckets is divided exactly. */
  lemma WholeWidth(count: nat, width: nat)
    requires count > 0 && width > 0 && count * width < TWO_53
    ensures Width(count * width, count) == width
  {
    DoubleIsNear(count * width);
    Times(1, count, TWO_53);
    ExactQuotient(count * width, count, width);
  }

  /** Behind that, it can: a hundred buckets are one too narrow for this range. */
  lemma RoundingLosesARange()
    ensures Width(9007199254741001, 100) == 90071992547410
    ensures 100 * 90071992547410 == 9007199254741000
  {
    var range := 9007199254741001;
    assert Halvings(range, 2) == 0;
    assert Halvings(range, 1) == 1 && Pow2(1) == 2;
    assert ToDouble(range) == 9007199254741000;
    ExactQuotient(9007199254741000, 100, 90071992547410);
  }
}
