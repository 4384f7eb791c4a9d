/** Powers of two, bit lengths and counting facts shared by the other modules. */
module Arith {

  function Pow2(k: nat): (r: nat)
    ensures r >= 1
  {
    if k == 0 then 1 else 2 * Pow2(k - 1)
  }

  /** Index of the highest set bit of a positive number. */
  function HighBit(n: nat): (h: nat)
    requires n >= 1
    ensures Pow2(h) <= n < Pow2(h + 1)
  {
    if n == 1 then 0 else HighBit(n / 2) + 1
  }

  lemma {:induction false} Pow2Add(a: nat, b: nat)
    ensures Pow2(a + b) == Pow2(a) * Pow2(b)
  {
    if a > 0 {
      Pow2Add(a - 1, b);
      MulAssoc(2, Pow2(a - 1), Pow2(b));
    }
  }

  lemma {:induction false} Pow2Monotone(a: nat, b: nat)
    requires a <= b
    ensures Pow2(a) <= Pow2(b)
    ensures a < b ==> 2 * Pow2(a) <= Pow2(b)
  {
    if a < b { Pow2Monotone(a, b - 1); }
  }

  lemma Pow2Of32()
    ensures Pow2(32) == 0x1_0000_0000
  {
    Pow2Add(8, 8);
    Pow2Add(16, 16);
    assert Pow2(8) == 256;
  }

  /** The interval [2^h, 2^(h+1)) determines h. */
  lemma HighBitUnique(n: nat, h: nat)
    requires n >= 1 && Pow2(h) <= n < Pow2(h + 1)
    ensures HighBit(n) == h
  {
    var g := HighBit(n);
    if g < h { Pow2Monotone(g + 1, h); }
    if h < g { Pow2Monotone(h + 1, g); }
  }

  lemma MulMonotone(a: int, b: int, c: int)
    requires a <= b && 0 <= c
    ensures a * c <= b * c
  {}

  lemma MulAssoc(a: int, b: int, c: int)
    ensures a * (b * c) == (a * b) * c
  {}

  lemma MulDistributes(a: int, b: int, c: int)
    ensures (a + b) * c == a * c + b * c
  {}

  /** Quotient and remainder are determined by their defining equation. */
  lemma DivModUnique(x: int, d: int, q: int, r: int)
    requires 0 < d && x == q * d + r && 0 <= r < d
    ensures x / d == q && x % d == r
  {
    var q', r' := x / d, x % d;
    assert x == q' * d + r';
    if q < q' { MulMonotone(q + 1, q', d); }
    if q' < q { MulMonotone(q' + 1, q, d); }
  }

  lemma DivNonNegative(x: nat, d: nat)
    requires d >= 1
    ensures x / d >= 0
  {}

  lemma DivParts(x: int, d: int)
    requires d >= 1
    ensures x == x / d * d + x % d
  {}

  /** Dividing twice is dividing by the product. */
  lemma DivDiv(x: nat, a: nat, b: nat)
    requires a >= 1 && b >= 1
    ensures a * b >= 1 && x / a / b == x / (a * b)
  {
    var q, r := x / a, x % a;
    var q', r' := q / b, q % b;
    MulMonotone(1, a, b);
    assert x == q * a + r && q == q' * b + r';
    MulDistributes(q' * b, r', a);
    MulAssoc(q', b, a);
    MulMonotone(r' + 1, b, a);
    MulDistributes(r', 1, a);
    MulMonotone(0, r', a);
    DivModUnique(x, a * b, q', r' * a + r);
  }

  lemma HalveProduct(d: nat, s: nat, x: nat)
    requires s % 2 == 1 && d * s == 2 * x
    ensures d % 2 == 0 && (d / 2) * s == x
  {
    var h := s / 2;
    assert d * s == 2 * (d * h) + d by { assert s == 2 * h + 1; }
  }

  /** An odd factor can be cancelled from a multiple of a power of two. */
  lemma {:induction false} OddCancel(k: nat, d: nat, s: nat, q: nat) returns (m: nat)
    requires s % 2 == 1 && d * s == q * Pow2(k)
    ensures d == m * Pow2(k)
  {
    if k == 0 {
      m := d;
    } else {
      var p, d' := Pow2(k - 1), d / 2;
      HalveProduct(d, s, q * p);
      m := OddCancel(k - 1, d', s, q);
    }
  }

  /** The naturals below n, as a set. */
  function Below(n: nat): (s: set<nat>)
    ensures |s| == n
    ensures forall x :: x in s <==> 0 <= x < n
  {
    if n == 0 then {} else Below(n - 1) + {n - 1}
  }

  lemma InsertSize<T>(s: set<T>, x: T)
    requires x !in s
    ensures |s + {x}| == |s| + 1
  {}

  lemma SubsetSize<T>(a: set<T>, b: set<T>)
    requires a <= b
    ensures |a| <= |b|
    ensures |a| == |b| ==> a == b
  {
    assert b == a + (b - a);
  }
}
