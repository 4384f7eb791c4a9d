/**
 Normalised symbol distributions and the symbol table they spread to.

 A count of -1 stands for a probability below one and takes one slot at the
 top of the table; every other count takes that many slots of the walk.
 */
module FseNorm {
  import opened Arith
  import opened FseSpread
  import opened Occurrences

  type Norm = seq<int>

  ghost predicate ValidNorm(norm: Norm) {
    && 1 <= |norm| <= 256
    && forall i :: 0 <= i < |norm| ==> norm[i] >= -1
  }

  function Count(c: int): nat
    requires c >= -1
  {
    if c == -1 then 1 else c
  }

  /** Number of slots taken by the symbols below s. */
  function Cum(norm: Norm, s: nat): (r: nat)
    requires s <= |norm| && forall i :: 0 <= i < |norm| ==> norm[i] >= -1
  {
    if s == 0 then 0 else Cum(norm, s - 1) + Count(norm[s - 1])
  }

  ghost predicate Normalised(norm: Norm, k: nat) {
    ValidNorm(norm) && Cum(norm, |norm|) == Pow2(k)
  }

  /** The symbols below s of probability less than one, in order. */
  function LowSyms(norm: Norm, s: nat): (r: seq<nat>)
    requires s <= |norm|
    ensures |r| <= s && forall i :: 0 <= i < |r| ==> r[i] < s
  {
    if s == 0 then []
    else LowSyms(norm, s - 1) + (if norm[s - 1] == -1 then [s - 1] else [])
  }

  function Repeat(x: nat, n: int): (r: seq<nat>)
    ensures |r| == if n < 0 then 0 else n
    ensures forall i :: 0 <= i < |r| ==> r[i] == x
  {
    if n <= 0 then [] else Repeat(x, n - 1) + [x]
  }

  /** The symbols below s with a positive count, each repeated that often. */
  function WalkSyms(norm: Norm, s: nat): (r: seq<nat>)
    requires s <= |norm|
    ensures forall i :: 0 <= i < |r| ==> r[i] < s
  {
    if s == 0 then [] else WalkSyms(norm, s - 1) + Repeat(s - 1, norm[s - 1])
  }

  lemma {:induction false} SymsTotal(norm: Norm, s: nat)
    requires s <= |norm| && ValidNorm(norm)
    ensures |LowSyms(norm, s)| + |WalkSyms(norm, s)| == Cum(norm, s)
  {
    if s > 0 { SymsTotal(norm, s - 1); }
  }

  lemma {:induction false} SymsPrefix(norm: Norm, i: nat, s: nat)
    requires i <= s <= |norm|
    ensures LowSyms(norm, i) <= LowSyms(norm, s)
    ensures WalkSyms(norm, i) <= WalkSyms(norm, s)
  {
    if i < s { SymsPrefix(norm, i, s - 1); }
  }

  lemma {:induction false} CumMonotone(norm: Norm, i: nat, s: nat)
    requires i <= s <= |norm| && ValidNorm(norm)
    ensures Cum(norm, i) <= Cum(norm, s)
  {
    if i < s { CumMonotone(norm, i, s - 1); }
  }

  /** Index of the last slot the walk may use. */
  function High(norm: Norm, k: nat): int { Pow2(k) - 1 - |LowSyms(norm, |norm|)| }

  /**
   The symbol table RFC 8878 prescribes: the i-th less-than-one symbol sits i
   slots from the top, and the remaining symbols sit in walk order.
   */
  ghost predicate IsSpread(norm: Norm, k: nat, table: seq<nat>) {
    var low, syms := LowSyms(norm, |norm|), WalkSyms(norm, |norm|);
    var w := Walk(Pow2(k), High(norm, k), Pow2(k));
    && |table| == Pow2(k) == |low| + |syms|
    && |w| == |syms|
    && (forall i :: 0 <= i < |low| ==> table[Pow2(k) - 1 - i] == low[i])
    && (forall i :: 0 <= i < |syms| ==> table[w[i]] == syms[i])
  }

  /** Every slot is either a top slot or a stop of the walk. */
  lemma SlotOwner(norm: Norm, k: nat, p: nat) returns (top: bool, i: nat)
    requires k >= 5 && p < Pow2(k) && |LowSyms(norm, |norm|)| <= Pow2(k)
    ensures top ==> i < |LowSyms(norm, |norm|)| && p == Pow2(k) - 1 - i
    ensures !top ==> var w := Walk(Pow2(k), High(norm, k), Pow2(k)); i < |w| && w[i] == p
  {
    var t, high := Pow2(k), High(norm, k);
    if p > high {
      return true, t - 1 - p;
    }
    var w := Walk(t, high, t);
    WalkPermutation(k, high);
    assert p in w;
    top := false;
    i :| i < |w| && w[i] == p;
  }

  lemma SpreadLookup(norm: Norm, k: nat, table: seq<nat>, p: nat) returns (top: bool, i: nat)
    requires k >= 5 && IsSpread(norm, k, table) && p < |table|
    ensures top ==> i < |LowSyms(norm, |norm|)| && p == Pow2(k) - 1 - i && table[p] == LowSyms(norm, |norm|)[i]
    ensures !top ==> var w := Walk(Pow2(k), High(norm, k), Pow2(k));
                     i < |w| == |WalkSyms(norm, |norm|)| && w[i] == p && table[p] == WalkSyms(norm, |norm|)[i]
  {
    top, i := SlotOwner(norm, k, p);
    var w := Walk(Pow2(k), High(norm, k), Pow2(k));
    if top {
      assert table[Pow2(k) - 1 - i] == LowSyms(norm, |norm|)[i];
    } else {
      assert table[w[i]] == WalkSyms(norm, |norm|)[i];
    }
  }

  /** The prescription leaves no freedom: every slot is determined. */
  lemma SpreadUnique(norm: Norm, k: nat, a: seq<nat>, b: seq<nat>)
    requires k >= 5 && IsSpread(norm, k, a) && IsSpread(norm, k, b)
    ensures a == b
  {
    forall p: nat | p < Pow2(k) ensures a[p] == b[p] {
      SpreadAgree(norm, k, a, b, p);
    }
  }

  lemma SpreadAgree(norm: Norm, k: nat, a: seq<nat>, b: seq<nat>, p: nat)
    requires k >= 5 && IsSpread(norm, k, a) && IsSpread(norm, k, b) && p < Pow2(k)
    ensures a[p] == b[p]
  {
    var top, i := SpreadLookup(norm, k, a, p);
    if top {
      assert b[Pow2(k) - 1 - i] == LowSyms(norm, |norm|)[i];
    } else {
      var w := Walk(Pow2(k), High(norm, k), Pow2(k));
      assert b[w[i]] == WalkSyms(norm, |norm|)[i];
    }
  }

  lemma {:induction false} LowHistogram(norm: Norm, s: nat, x: nat)
    requires s <= |norm| && ValidNorm(norm) && x < |norm|
    ensures Occ(LowSyms(norm, s), x, |LowSyms(norm, s)|) == if x < s && norm[x] == -1 then 1 else 0
  {
    if s > 0 {
      LowHistogram(norm, s - 1, x);
      var rest := LowSyms(norm, s - 1);
      if norm[s - 1] == -1 {
        var one := [s - 1];
        OccConcat(rest, one, x, 1);
        OccConstant(one, s - 1, x, 1);
        assert LowSyms(norm, s) == rest + one;
      } else {
        assert LowSyms(norm, s) == rest + [] == rest;
      }
    }
  }

  lemma {:induction false} WalkHistogram(norm: Norm, s: nat, x: nat)
    requires s <= |norm| && ValidNorm(norm) && x < |norm|
    ensures Occ(WalkSyms(norm, s), x, |WalkSyms(norm, s)|) == if x < s && norm[x] >= 0 then norm[x] else 0
  {
    if s > 0 {
      WalkHistogram(norm, s - 1, x);
      var rest, rep := WalkSyms(norm, s - 1), Repeat(s - 1, norm[s - 1]);
      OccConcat(rest, rep, x, |rep|);
      OccConstant(rep, s - 1, x, |rep|);
      assert WalkSyms(norm, s) == rest + rep;
    }
  }

  /** Those of the first n listed slots that hold x. */
  ghost function Held(table: seq<nat>, slots: seq<nat>, x: nat, n: nat): set<nat>
    requires n <= |slots|
  {
    if n == 0 then {}
    else
      var p := slots[n - 1];
      Held(table, slots, x, n - 1) + (if p < |table| && table[p] == x then {p} else {})
  }

  lemma {:induction false} HeldMember(table: seq<nat>, slots: seq<nat>, x: nat, n: nat, p: nat)
    requires n <= |slots|
    ensures p in Held(table, slots, x, n) <==> p in slots[..n] && p < |table| && table[p] == x
  {
    if n > 0 {
      HeldMember(table, slots, x, n - 1, p);
      assert slots[..n] == slots[..n - 1] + [slots[n - 1]];
    }
  }

  /** The listed slots hold the listed symbols. */
  ghost predicate Carries(table: seq<nat>, slots: seq<nat>, syms: seq<nat>) {
    && |slots| == |syms|
    && forall i :: 0 <= i < |slots| ==> slots[i] < |table| && table[slots[i]] == syms[i]
  }

  lemma FreshSlot(table: seq<nat>, slots: seq<nat>, syms: seq<nat>, n: nat)
    requires 1 <= n <= |slots| && Distinct(slots) && Carries(table, slots, syms)
    ensures slots[n - 1] !in slots[..n - 1]
    ensures n <= |syms| && slots[n - 1] < |table| && table[slots[n - 1]] == syms[n - 1]
  {}

  /** A list of distinct slots carries the occurrences of a list into a table. */
  lemma {:induction false} PlacedOccurrences(table: seq<nat>, slots: seq<nat>, syms: seq<nat>, x: nat, n: nat)
    requires n <= |slots| == |syms| && Distinct(slots) && Carries(table, slots, syms)
    ensures |Held(table, slots, x, n)| == Occ(syms, x, n)
  {
    hide Distinct, Carries;
    if n > 0 {
      PlacedOccurrences(table, slots, syms, x, n - 1);
      FreshSlot(table, slots, syms, n);
      var last, rest := slots[n - 1], Held(table, slots, x, n - 1);
      HeldMember(table, slots, x, n - 1, last);
      InsertSize(rest, last);
      var one := if table[last] == x then {last} else {};
      assert Held(table, slots, x, n) == rest + one;
      assert table[last] != x ==> rest + one == rest;
    }
  }

  /** The slots above the walk, from the top down. */
  function TopSlots(t: nat, n: nat): (r: seq<nat>)
    requires n <= t
    ensures |r| == n && forall i :: 0 <= i < n ==> r[i] == t - 1 - i
  {
    seq(n, i requires 0 <= i < n => t - 1 - i)
  }

  /** Every symbol owns exactly as many slots of the spread table as it has counts. */
  lemma SpreadHistogram(norm: Norm, k: nat, table: seq<nat>, x: nat)
    requires k >= 5 && ValidNorm(norm) && IsSpread(norm, k, table) && x < |norm|
    ensures Occ(table, x, |table|) == Count(norm[x])
  {
    var t, high := Pow2(k), High(norm, k);
    var low, syms := LowSyms(norm, |norm|), WalkSyms(norm, |norm|);
    var w, top := Walk(t, high, t), TopSlots(t, |low|);
    WalkPermutation(k, high);
    TwoPartOccurrences(table, w, syms, top, low, high, x);
    LowHistogram(norm, |norm|, x);
    WalkHistogram(norm, |norm|, x);
  }

  /** Two disjoint slot lists that fill a table carry all its occurrences. */
  lemma TwoPartOccurrences(table: seq<nat>, w: seq<nat>, syms: seq<nat>, top: seq<nat>, low: seq<nat>,
                           high: int, x: nat)
    requires Carries(table, w, syms) && Distinct(w) && forall p: nat :: p in w <==> p <= high
    requires Carries(table, top, low) && |top| == |table| - 1 - high
    requires forall i :: 0 <= i < |top| ==> top[i] == |table| - 1 - i
    ensures Occ(table, x, |table|) == Occ(low, x, |low|) + Occ(syms, x, |syms|)
  {
    PlacedOccurrences(table, w, syms, x, |w|);
    PlacedOccurrences(table, top, low, x, |top|);
    OccPlaces(table, x, |table|);
    HeldSplit(table, w, top, high, x);
  }

  lemma HeldSplit(table: seq<nat>, w: seq<nat>, top: seq<nat>, high: int, x: nat)
    requires |top| == |table| - 1 - high
    requires forall p: nat :: p in w <==> p <= high
    requires forall i :: 0 <= i < |top| ==> top[i] == |table| - 1 - i
    ensures |Places(table, x, |table|)| == |Held(table, w, x, |w|)| + |Held(table, top, x, |top|)|
  {
    var all, a, b := Places(table, x, |table|), Held(table, w, x, |w|), Held(table, top, x, |top|);
    assert w[..|w|] == w && top[..|top|] == top;
    forall p: nat ensures p in all <==> p in a || p in b
                  ensures !(p in a && p in b) {
      HeldMember(table, w, x, |w|, p);
      HeldMember(table, top, x, |top|, p);
      if high < p < |table| { assert top[|table| - 1 - p] == p; }
    }
    assert all == a + b && a !! b;
  }

  /** Every entry of a spread table is a symbol of the distribution. */
  lemma SpreadInRange(norm: Norm, k: nat, table: seq<nat>, p: nat)
    requires k >= 5 && IsSpread(norm, k, table) && p < |table|
    ensures table[p] < |norm|
  {
    var top, i := SpreadLookup(norm, k, table, p);
  }
}
