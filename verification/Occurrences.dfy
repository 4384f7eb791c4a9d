/** Counting occurrences in prefixes of a sequence. */
module Occurrences {

  /** How often x occurs in the first n elements of s. */
  function Occ(s: seq<nat>, x: nat, n: nat): (r: nat)
    requires n <= |s|
    ensures r <= n
  {
    if n == 0 then 0 else Occ(s, x, n - 1) + (if s[n - 1] == x then 1 else 0)
  }

  /** The indices below n that hold x. */
  ghost function Places(s: seq<nat>, x: nat, n: nat): set<nat>
    requires n <= |s|
  {
    set i: nat | i < n && s[i] == x
  }

  lemma {:induction false} OccPlaces(s: seq<nat>, x: nat, n: nat)
    requires n <= |s|
    ensures Occ(s, x, n) == |Places(s, x, n)|
  {
    if n == 0 {
      assert Places(s, x, n) == {};
    } else {
      OccPlaces(s, x, n - 1);
      assert Places(s, x, n) == Places(s, x, n - 1) + (if s[n - 1] == x then {n - 1} else {});
    }
  }

  lemma {:induction false} OccMonotone(s: seq<nat>, x: nat, m: nat, n: nat)
    requires m <= n <= |s|
    ensures Occ(s, x, m) <= Occ(s, x, n)
    ensures m < n && s[m] == x ==> Occ(s, x, m) < Occ(s, x, n)
  {
    if m < n { OccMonotone(s, x, m, n - 1); }
  }

  lemma {:induction false} OccConcat(a: seq<nat>, b: seq<nat>, x: nat, n: nat)
    requires n <= |b|
    ensures Occ(a + b, x, |a| + n) == Occ(a, x, |a|) + Occ(b, x, n)
  {
    if n == 0 {
      OccAgree(a, a + b, x, |a|);
    } else {
      OccConcat(a, b, x, n - 1);
    }
  }

  lemma {:induction false} OccAgree(a: seq<nat>, b: seq<nat>, x: nat, n: nat)
    requires n <= |a| && n <= |b| && a[..n] == b[..n]
    ensures Occ(a, x, n) == Occ(b, x, n)
  {
    if n > 0 {
      assert a[..n - 1] == a[..n][..n - 1] == b[..n][..n - 1] == b[..n - 1];
      assert a[n - 1] == a[..n][n - 1] == b[n - 1];
      OccAgree(a, b, x, n - 1);
    }
  }

  lemma {:induction false} OccConstant(s: seq<nat>, y: nat, x: nat, n: nat)
    requires n <= |s| && forall i :: 0 <= i < |s| ==> s[i] == y
    ensures Occ(s, x, n) == if x == y then n else 0
  {
    if n > 0 { OccConstant(s, y, x, n - 1); }
  }

  /** The index of the r-th occurrence. */
  lemma {:induction false} NthOccurrence(s: seq<nat>, x: nat, n: nat, r: nat) returns (p: nat)
    requires n <= |s| && r < Occ(s, x, n)
    ensures p < n && s[p] == x && Occ(s, x, p) == r
  {
    if r < Occ(s, x, n - 1) { p := NthOccurrence(s, x, n - 1, r); } else { p := n - 1; }
  }

  /** The number of earlier occurrences determines the index. */
  lemma OccurrenceUnique(s: seq<nat>, x: nat, p: nat, q: nat)
    requires p < |s| && q < |s| && s[p] == s[q] == x && Occ(s, x, p) == Occ(s, x, q)
    ensures p == q
  {
    if p < q { OccMonotone(s, x, p, q); }
    if q < p { OccMonotone(s, x, q, p); }
  }
}
