/**
 The symbol spread of an FSE table (section 4.1.1 of RFC 8878).

 Table construction walks the slots of a table of size T = 2^k with a fixed
 stride modulo T and skips the slots reserved at the top for the "less than
 one" probabilities.  Both table builders run this walk; this module proves
 that the walk is a permutation of the slots it may visit.
 */
module FseSpread {
  import opened Arith

  function Step(t: nat): nat { t / 2 + t / 8 + 3 }

  /** The slot the walk stands on after j strides, without skipping. */
  function Visit(t: nat, j: nat): (p: nat)
    requires t >= 1
    ensures p < t
  {
    if j == 0 then 0 else (Visit(t, j - 1) + Step(t)) % t
  }

  /** The stride is odd for every table size the format allows. */
  lemma StepOdd(k: nat)
    requires k >= 5
    ensures Step(Pow2(k)) % 2 == 1
  {
    Pow2Add(5, k - 5);
    assert Pow2(5) == 32;
    OddStep(Pow2(k - 5));
  }

  lemma OddStep(q: nat)
    ensures Step(32 * q) % 2 == 1
  {
    assert 32 * q / 2 == 16 * q && 32 * q / 8 == 4 * q;
  }

  lemma {:induction false} VisitQuotient(t: nat, j: nat) returns (q: int)
    requires t >= 1
    ensures j * Step(t) == q * t + Visit(t, j)
  {
    hide Step;
    if j == 0 {
      q := 0;
    } else {
      var q' := VisitQuotient(t, j - 1);
      var s := Step(t);
      var x := Visit(t, j - 1) + s;
      q := q' + x / t;
      DivParts(x, t);
      MulDistributes(j - 1, 1, s);
      MulDistributes(q', x / t, t);
    }
  }

  /** An odd stride taken 1 <= d < 2^k times is never a multiple of 2^k. */
  lemma NoShortCycle(k: nat, s: nat, d: nat, q: int)
    requires s % 2 == 1 && 1 <= d < Pow2(k)
    ensures d * s != q * Pow2(k)
  {
    if d * s == q * Pow2(k) {
      MulMonotone(1, d, s);
      if q < 0 { MulMonotone(q, -1, Pow2(k)); }
      var m := OddCancel(k, d, s, q);
      if m >= 1 { MulMonotone(1, m, Pow2(k)); }
    }
  }

  /** Two different numbers of strides below T never reach the same slot. */
  lemma VisitInjective(k: nat, i: nat, j: nat)
    requires k >= 5 && i < j < Pow2(k)
    ensures Visit(Pow2(k), i) != Visit(Pow2(k), j)
  {
    var t, s := Pow2(k), Step(Pow2(k));
    var qi := VisitQuotient(t, i);
    var qj := VisitQuotient(t, j);
    StepOdd(k);
    NoShortCycle(k, s, j - i, qj - qi);
    assert (j - i) * s == j * s - i * s;
    assert (qj - qi) * t == qj * t - qi * t;
  }

  /** A full round of T strides ends where it began. */
  lemma VisitReturns(t: nat)
    requires t >= 1
    ensures Visit(t, t) == 0
  {
    var q := VisitQuotient(t, t);
    DivModUnique(t * Step(t), t, q, Visit(t, t));
    DivModUnique(t * Step(t), t, Step(t), 0);
  }

  /** The slots at or below `high` met in the first j strides, in order. */
  function Walk(t: nat, high: int, j: nat): (w: seq<nat>)
    requires t >= 1
    ensures |w| <= j
    ensures forall i :: 0 <= i < |w| ==> w[i] <= high && w[i] < t
  {
    if j == 0 then []
    else
      var p := Visit(t, j - 1);
      Walk(t, high, j - 1) + (if p <= high then [p] else [])
  }

  function Range(s: seq<nat>): (r: set<nat>) { set x | x in s }

  ghost predicate Distinct(s: seq<nat>) {
    forall i, j :: 0 <= i < j < |s| ==> s[i] != s[j]
  }

  lemma {:induction false} DistinctSize(s: seq<nat>)
    requires Distinct(s)
    ensures |Range(s)| == |s|
  {
    if |s| > 0 {
      var n := |s| - 1;
      DistinctSize(s[..n]);
      assert Range(s) == Range(s[..n]) + {s[n]};
      assert s[n] !in s[..n];
    }
  }

  /** Some stride before the j-th stands on slot p. */
  ghost predicate Met(t: nat, j: nat, p: nat)
    requires t >= 1
  {
    exists i :: 0 <= i < j && Visit(t, i) == p
  }

  lemma {:induction false} WalkMember(t: nat, high: int, j: nat, p: nat)
    requires t >= 1
    ensures p in Walk(t, high, j) <==> p <= high && Met(t, j, p)
  {
    if j > 0 {
      WalkMember(t, high, j - 1, p);
      assert Met(t, j, p) <==> Met(t, j - 1, p) || Visit(t, j - 1) == p;
    }
  }

  lemma {:induction false} WalkDistinct(k: nat, high: int, j: nat)
    requires k >= 5 && j <= Pow2(k)
    ensures Distinct(Walk(Pow2(k), high, j))
  {
    if j > 0 {
      var t := Pow2(k);
      WalkDistinct(k, high, j - 1);
      var p := Visit(t, j - 1);
      WalkMember(t, high, j - 1, p);
      forall i | 0 <= i < j - 1 ensures Visit(t, i) != p { VisitInjective(k, i, j - 1); }
    }
  }

  /** Every slot is met in one round of the unrestricted walk. */
  lemma VisitSurjective(k: nat, p: nat)
    requires k >= 5 && p < Pow2(k)
    ensures Met(Pow2(k), Pow2(k), p)
  {
    var t := Pow2(k);
    var w := Walk(t, t, t);
    WalkDistinct(k, t, t);
    DistinctSize(w);
    WalkFull(t, t);
    SubsetSize(Range(w), Below(t));
    assert p in Range(w);
    WalkMember(t, t, t, p);
  }

  lemma {:induction false} WalkFull(t: nat, j: nat)
    requires t >= 1
    ensures |Walk(t, t, j)| == j
  {
    if j > 0 { WalkFull(t, j - 1); }
  }

  /**
   Spread permutation: in one round the walk lists every slot at or below the
   threshold exactly once.
   */
  lemma WalkPermutation(k: nat, high: int)
    requires k >= 5 && -1 <= high < Pow2(k)
    ensures var w := Walk(Pow2(k), high, Pow2(k));
            && |w| == high + 1
            && Distinct(w)
            && forall p: nat :: p in w <==> p <= high
  {
    var t := Pow2(k);
    var w := Walk(t, high, t);
    forall p: nat ensures p in w <==> p <= high {
      WalkMember(t, high, t, p);
      if p <= high { VisitSurjective(k, p); }
    }
    WalkDistinct(k, high, t);
    DistinctSize(w);
    assert Range(w) == Below(high + 1);
  }

  lemma {:induction false} WalkPrefix(t: nat, high: int, i: nat, j: nat)
    requires t >= 1 && i <= j
    ensures Walk(t, high, i) <= Walk(t, high, j)
  {
    if i < j { WalkPrefix(t, high, i, j - 1); }
  }
}
