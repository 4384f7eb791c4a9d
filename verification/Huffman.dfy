/**
 Huffman decoding tables from weights (section 4.2.1.3 of RFC 8878).

 A symbol of weight w > 0 owns 2^(w-1) consecutive table entries; the weight of
 the last symbol is not transmitted and is worked out from the others.
 */
module Huffman {
  import opened Arith
  import opened Occurrences

  const MAX_BITS := 11
  const MAX_WEIGHT := 12

  /** Entries a weight stands for. */
  function Share(w: nat): nat { if w == 0 then 0 else Pow2(w - 1) }

  function Total(ws: seq<nat>): nat {
    if ws == [] then 0 else Total(ws[..|ws| - 1]) + Share(ws[|ws| - 1])
  }

  function Mult(a: nat, b: nat): nat {
    MulMonotone(0, a, b);
    a * b
  }

  /** First entry of the symbols of weight w: after all symbols of smaller positive weight. */
  function Base(ws: seq<nat>, w: nat): nat {
    if w <= 1 then 0 else Base(ws, w - 1) + Mult(Occ(ws, w - 1, |ws|), Pow2(w - 2))
  }

  /** First entry of symbol i: symbols of one weight follow each other in order. */
  function Start(ws: seq<nat>, i: nat): nat
    requires i < |ws|
  {
    Base(ws, ws[i]) + Mult(Occ(ws, ws[i], i), Share(ws[i]))
  }

  /** The run of entries of symbol i. */
  ghost predicate InRun(ws: seq<nat>, i: nat, p: nat)
    requires i < |ws|
  {
    ws[i] > 0 && Start(ws, i) <= p < Start(ws, i) + Share(ws[i])
  }

  // ------------------------------------------------------------- the runs tile the table

  lemma {:induction false} BaseMonotone(ws: seq<nat>, v: nat, w: nat)
    requires v <= w
    ensures Base(ws, v) <= Base(ws, w)
  {
    if v < w { BaseMonotone(ws, v, w - 1); }
  }

  /** A run ends before the runs of larger weights begin. */
  lemma RunEnd(ws: seq<nat>, i: nat)
    requires i < |ws| && ws[i] > 0
    ensures Start(ws, i) + Share(ws[i]) <= Base(ws, ws[i] + 1)
  {
    var w := ws[i];
    OccMonotone(ws, w, i, |ws|);
    hide Pow2;
    MulMonotone(Occ(ws, w, i) + 1, Occ(ws, w, |ws|), Pow2(w - 1));
    MulDistributes(Occ(ws, w, i), 1, Pow2(w - 1));
  }

  /** Earlier in the order of weight and symbol means entirely before. */
  lemma RunBefore(ws: seq<nat>, i: nat, j: nat)
    requires i < |ws| && j < |ws| && 0 < ws[i] && (ws[i] < ws[j] || (ws[i] == ws[j] && i < j))
    ensures Start(ws, i) + Share(ws[i]) <= Start(ws, j)
  {
    if ws[i] < ws[j] {
      RunEnd(ws, i);
      BaseMonotone(ws, ws[i] + 1, ws[j]);
    } else {
      var w := ws[i];
      OccMonotone(ws, w, i, j);
      hide Pow2, Base;
      MulMonotone(Occ(ws, w, i) + 1, Occ(ws, w, j), Share(w));
      MulDistributes(Occ(ws, w, i), 1, Share(w));
    }
  }

  /** No entry belongs to two symbols. */
  lemma RunsDisjoint(ws: seq<nat>, i: nat, j: nat, p: nat)
    requires i < |ws| && j < |ws| && InRun(ws, i, p) && InRun(ws, j, p)
    ensures i == j
  {
    hide Base, Pow2, Occ;
    if i != j {
      if ws[i] < ws[j] || (ws[i] == ws[j] && i < j) { RunBefore(ws, i, j); } else { RunBefore(ws, j, i); }
    }
  }

  /** The symbol that owns entry p, given the weight class it falls into. */
  lemma {:induction false} RunOwner(ws: seq<nat>, w: nat, p: nat) returns (i: nat)
    requires p < Base(ws, w)
    ensures i < |ws| && InRun(ws, i, p)
  {
    if p < Base(ws, w - 1) {
      i := RunOwner(ws, w - 1, p);
    } else {
      var v, len := w - 1, Pow2(w - 2);
      var q := p - Base(ws, v);
      DivParts(q, len);
      QuotientBelow(q, len, Occ(ws, v, |ws|));
      var r := q / len;
      i := NthOccurrence(ws, v, |ws|, r);
    }
  }

  lemma QuotientBelow(q: nat, len: nat, n: nat)
    requires len >= 1 && q < n * len
    ensures 0 <= q / len < n && Mult(q / len, len) <= q < Mult(q / len, len) + len
  {
    DivParts(q, len);
    if q / len >= n { MulMonotone(n, q / len, len); }
  }

  // ------------------------------------------------------------- counting by weight

  lemma {:induction false} BaseAppend(ws: seq<nat>, x: nat, w: nat)
    ensures Base(ws + [x], w) == Base(ws, w) + (if 1 <= x < w then Share(x) else 0)
  {
    if w > 1 {
      BaseAppend(ws, x, w - 1);
      var v := w - 1;
      OccConcat(ws, [x], v, 1);
      assert Occ([x], v, 1) == Occ([x], v, 0) + (if x == v then 1 else 0);
      hide Pow2, Base;
      MulDistributes(Occ(ws, v, |ws|), 1, Pow2(w - 2));
    }
  }

  ghost predicate AtMost(ws: seq<nat>, m: nat) { forall i :: 0 <= i < |ws| ==> ws[i] <= m }

  lemma {:induction false} BaseEmpty(w: nat)
    ensures Base([], w) == 0
  {
    if w > 1 { BaseEmpty(w - 1); }
  }

  /** All the runs together have the length of all the shares. */
  lemma {:induction false} BaseIsTotal(ws: seq<nat>, m: nat)
    requires AtMost(ws, m)
    ensures Base(ws, m + 1) == Total(ws)
  {
    if ws == [] {
      BaseEmpty(m + 1);
    } else {
      var n := |ws| - 1;
      BaseIsTotal(ws[..n], m);
      BaseAppend(ws[..n], ws[n], m + 1);
      assert ws == ws[..n] + [ws[n]];
    }
  }

  // ------------------------------------------------------------- complete sets of weights

  /** The weights fill a table of 2^bits entries. */
  ghost predicate Complete(ws: seq<nat>, bits: nat) { AtMost(ws, bits) && Total(ws) == Pow2(bits) }

  /** Every entry of the table is in exactly one run. */
  lemma RunsTile(ws: seq<nat>, bits: nat, p: nat) returns (i: nat)
    requires Complete(ws, bits) && p < Pow2(bits)
    ensures i < |ws| && InRun(ws, i, p)
    ensures forall j :: 0 <= j < |ws| && InRun(ws, j, p) ==> j == i
  {
    BaseIsTotal(ws, bits);
    i := RunOwner(ws, bits + 1, p);
    forall j | 0 <= j < |ws| && InRun(ws, j, p) ensures j == i { RunsDisjoint(ws, i, j, p); }
  }

  lemma RunInTable(ws: seq<nat>, bits: nat, i: nat)
    requires Complete(ws, bits) && i < |ws| && ws[i] > 0
    ensures Start(ws, i) + Share(ws[i]) <= Pow2(bits)
  {
    RunEnd(ws, i);
    BaseMonotone(ws, ws[i] + 1, bits + 1);
    BaseIsTotal(ws, bits);
  }

  /** The first entry of each weight class is a multiple of its run length. */
  lemma {:induction false} BaseAligned(ws: seq<nat>, bits: nat, w: nat) returns (q: nat)
    requires Complete(ws, bits) && 1 <= w <= bits + 1
    ensures Base(ws, w) == q * Pow2(w - 1)
    decreases bits + 1 - w
  {
    if w == bits + 1 {
      BaseIsTotal(ws, bits);
      q := 1;
    } else {
      var q' := BaseAligned(ws, bits, w + 1);
      var n := Occ(ws, w, |ws|);
      assert Base(ws, w + 1) == Base(ws, w) + Mult(n, Pow2(w - 1)) && Pow2(w) == 2 * Pow2(w - 1);
      hide Pow2, Base;
      q := SubtractMultiple(Base(ws, w), n, q', Pow2(w - 1));
    }
  }

  lemma SubtractMultiple(b: nat, n: nat, q: nat, u: nat) returns (r: nat)
    requires u >= 1 && b + n * u == q * (2 * u)
    ensures b == r * u
  {
    MulAssoc(q, 2, u);
    MulDistributes(2 * q - n, n, u);
    if 2 * q - n < 0 { MulMonotone(2 * q - n, -1, u); }
    r := 2 * q - n;
  }

  /** The code of symbol i: its run, in units of the run length. */
  function Code(ws: seq<nat>, i: nat): int
    requires i < |ws| && ws[i] > 0
  {
    Start(ws, i) / Share(ws[i])
  }

  function CodeLength(bits: nat, w: nat): int { bits + 1 - w }

  /** Runs are aligned, so looking up an index is matching its leading bits with a code. */
  lemma LookupIsPrefix(ws: seq<nat>, bits: nat, i: nat, p: nat)
    requires Complete(ws, bits) && i < |ws| && ws[i] > 0
    ensures Start(ws, i) % Share(ws[i]) == 0
    ensures InRun(ws, i, p) <==> p / Share(ws[i]) == Code(ws, i)
  {
    var w, len := ws[i], Share(ws[i]);
    var q := BaseAligned(ws, bits, w);
    var c := q + Occ(ws, w, i);
    hide Pow2, Base, Occ;
    MulDistributes(q, Occ(ws, w, i), len);
    assert Start(ws, i) == c * len;
    DivModUnique(Start(ws, i), len, c, 0);
    DivParts(p, len);
    if InRun(ws, i, p) {
      DivModUnique(p, len, c, p - c * len);
    }
  }

  /** Prefix freedom: no code is the beginning of another symbol's code. */
  lemma PrefixFree(ws: seq<nat>, bits: nat, i: nat, j: nat)
    requires Complete(ws, bits) && i < |ws| && j < |ws| && i != j && 0 < ws[j] <= ws[i]
    ensures Code(ws, j) / Pow2(CodeLength(bits, ws[j]) - CodeLength(bits, ws[i])) != Code(ws, i)
  {
    var p, d := Start(ws, j), ws[i] - ws[j];
    LookupIsPrefix(ws, bits, i, p);
    LookupIsPrefix(ws, bits, j, p);
    assert InRun(ws, j, p);
    if InRun(ws, i, p) { RunsDisjoint(ws, i, j, p); }
    hide Base, Occ;
    Pow2Add(ws[j] - 1, d);
    DivDiv(p, Share(ws[j]), Pow2(d));
  }

  // ------------------------------------------------------------- accepting weights

  datatype Outcome = Built(bits: nat) | WeightOverflow | BadWeights | TableTooSmall

  /** Table bits and what is missing to the next power of two. */
  function TableBits(ws: seq<nat>): nat
    requires Total(ws) >= 1
  {
    HighBit(Total(ws)) + 1
  }

  function Left(ws: seq<nat>): nat
    requires Total(ws) >= 1
  {
    Pow2(TableBits(ws)) - Total(ws)
  }

  /** The transmitted weights and the one that completes them. */
  function FullWeights(ws: seq<nat>): seq<nat>
    requires Total(ws) >= 1
  {
    ws + [HighBit(Left(ws)) + 1]
  }

  /** The checks of `readHuff`, in their order. */
  function CheckWeights(ws: seq<nat>, tableLen: nat): Outcome {
    if exists i :: 0 <= i < |ws| && ws[i] > MAX_WEIGHT then WeightOverflow
    else if Total(ws) == 0 || TableBits(ws) > MAX_BITS then BadWeights
    else if tableLen < Pow2(TableBits(ws)) then TableTooSmall
    else if Pow2(HighBit(Left(ws))) != Left(ws) then BadWeights
    else if |ws| >= 256 then WeightOverflow
    else
      var full := FullWeights(ws);
      var ones := Occ(full, 1, |full|);
      if ones < 2 || ones % 2 != 0 then BadWeights else Built(TableBits(ws))
  }

  lemma {:induction false} ShareBelowTotal(ws: seq<nat>, i: nat)
    requires i < |ws|
    ensures Share(ws[i]) <= Total(ws)
  {
    if i < |ws| - 1 { ShareBelowTotal(ws[..|ws| - 1], i); }
  }

  /** A share below 2^bits belongs to a weight of at most `bits`. */
  lemma WeightBound(w: nat, bits: nat)
    requires Share(w) < Pow2(bits)
    ensures w <= bits
  {
    if w > bits { Pow2Monotone(bits, w - 1); }
  }

  /** Weights that pass the checks, with the last one added, fill the table. */
  lemma AcceptedIsComplete(ws: seq<nat>, tableLen: nat)
    requires CheckWeights(ws, tableLen).Built?
    ensures Complete(FullWeights(ws), TableBits(ws))
  {
    var bits, full, last := TableBits(ws), FullWeights(ws), HighBit(Left(ws)) + 1;
    assert full[..|ws|] == ws;
    forall i | 0 <= i < |full| ensures full[i] <= bits {
      if i < |ws| {
        ShareBelowTotal(ws, i);
        WeightBound(ws[i], bits);
      } else {
        WeightBound(last, bits);
      }
    }
  }

  // ------------------------------------------------------------- building the table

  /** Symbol in the high byte, code length in the low byte. */
  function Entry(bits: nat, w: nat, i: nat): int { i * 256 + (bits + 1 - w) }

  /** The first n symbols' runs are filled. */
  ghost predicate Filled(table: seq<int>, ws: seq<nat>, bits: nat, n: nat) {
    && n <= |ws|
    && forall i, p :: 0 <= i < n && 0 <= p < |table| && InRun(ws, i, p) ==> table[p] == Entry(bits, ws[i], i)
  }

  method CountWeights(ws: seq<nat>, mark: array<nat>) returns (ok: bool, mask: nat)
    requires mark.Length == 13 && forall w :: 0 <= w < 13 ==> mark[w] == 0
    modifies mark
    ensures ok <==> !exists i :: 0 <= i < |ws| && ws[i] > MAX_WEIGHT
    ensures ok ==> mask == Total(ws) && forall w :: 0 <= w < 13 ==> mark[w] == Occ(ws, w, |ws|)
  {
    hide Pow2;
    mask := 0;
    for i := 0 to |ws|
      invariant mask == Total(ws[..i])
      invariant forall k :: 0 <= k < i ==> ws[k] <= MAX_WEIGHT
      invariant forall w :: 0 <= w < 13 ==> mark[w] == Occ(ws, w, i)
    {
      var w := ws[i];
      if w > MAX_WEIGHT { return false, mask; }
      mark[w] := mark[w] + 1;
      if w > 0 { mask := mask + Pow2(w - 1); }
      assert ws[..i + 1][..i] == ws[..i];
    }
    assert ws[..|ws|] == ws;
    ok := true;
  }

  lemma BaseStep(ws: seq<nat>, w: nat)
    ensures w == 0 ==> Base(ws, 1) == 0
    ensures w >= 1 ==> Base(ws, w + 1) == Base(ws, w) + Mult(Occ(ws, w, |ws|), Pow2(w - 1))
  {}

  method FirstEntries(ws: seq<nat>, bits: nat, mark: array<nat>)
    requires mark.Length == 13 && bits <= MAX_BITS
    requires forall w :: 0 <= w < 13 ==> mark[w] == Occ(ws, w, |ws|)
    modifies mark
    ensures forall w :: 1 <= w <= bits ==> mark[w] == Base(ws, w)
  {
    hide Pow2, Occ, Base, Mult;
    var next: nat := 0;
    BaseStep(ws, 0);
    for i: nat := 0 to bits
      invariant next == Base(ws, i + 1)
      invariant forall w :: 1 <= w <= i ==> mark[w] == Base(ws, w)
      invariant forall w :: i < w < 13 ==> mark[w] == Occ(ws, w, |ws|)
    {
      BaseStep(ws, i + 1);
      var cur := next;
      next := next + Mult(mark[i + 1], Pow2(i));
      mark[i + 1] := cur;
    }
  }

  method FillRuns(ws: seq<nat>, bits: nat, mark: array<nat>, table: array<int>)
    requires mark.Length == 13 && bits <= MAX_BITS && Complete(ws, bits) && table.Length >= Pow2(bits)
    requires forall w :: 1 <= w <= bits ==> mark[w] == Base(ws, w)
    modifies mark, table
    ensures Filled(table[..], ws, bits, |ws|)
  {
    hide Pow2, Base, Filled, InRun, Complete;
    NoneFilled(table[..], ws, bits);
    MarksStart(ws, bits, mark[..]);
    for i: nat := 0 to |ws|
      invariant Filled(table[..], ws, bits, i)
      invariant Marks(ws, bits, mark[..], i)
    {
      var w := ws[i];
      if w == 0 {
        SkipZero(table[..], ws, bits, mark[..], i);
        continue;
      }
      MarkAt(ws, bits, mark[..], i);
      var length := Pow2(w - 1);
      var start := mark[w];
      RunInTable(ws, bits, i);
      ghost var before := table[..];
      FillOne(table, start, length, Entry(bits, w, i));
      RunAdded(before, table[..], ws, bits, i);
      ghost var marks := mark[..];
      mark[w] := mark[w] + length;
      assert mark[..] == marks[w := marks[w] + length];
    }
  }

  method FillOne(table: array<int>, start: nat, length: nat, tval: int)
    requires start + length <= table.Length
    modifies table
    ensures forall p :: 0 <= p < table.Length ==>
              table[p] == if start <= p < start + length then tval else old(table[p])
  {
    for j := 0 to length
      invariant forall p :: 0 <= p < table.Length ==>
                  table[p] == if start <= p < start + j then tval else old(table[p])
    {
      table[start + j] := tval;
    }
  }

  /** Where the next symbol of each weight will start. */
  ghost predicate Marks(ws: seq<nat>, bits: nat, mark: seq<nat>, i: nat) {
    && i <= |ws| && bits < |mark|
    && forall w :: 1 <= w <= bits ==> mark[w] == Base(ws, w) + Mult(Occ(ws, w, i), Pow2(w - 1))
  }

  lemma MarksStart(ws: seq<nat>, bits: nat, mark: seq<nat>)
    requires bits < |mark| && forall w :: 1 <= w <= bits ==> mark[w] == Base(ws, w)
    ensures Marks(ws, bits, mark, 0)
  {}

  lemma NoneFilled(table: seq<int>, ws: seq<nat>, bits: nat)
    ensures Filled(table, ws, bits, 0)
  {}

  lemma MarkAt(ws: seq<nat>, bits: nat, mark: seq<nat>, i: nat)
    requires Complete(ws, bits) && Marks(ws, bits, mark, i) && i < |ws| && ws[i] > 0
    ensures ws[i] <= bits && mark[ws[i]] == Start(ws, i) && Share(ws[i]) == Pow2(ws[i] - 1)
    ensures Marks(ws, bits, mark[ws[i] := mark[ws[i]] + Pow2(ws[i] - 1)], i + 1)
  {
    hide Pow2, Base;
    var w := ws[i];
    MulDistributes(Occ(ws, w, i), 1, Pow2(w - 1));
    assert Occ(ws, w, i + 1) == Occ(ws, w, i) + 1;
    forall v | 1 <= v <= bits && v != w ensures Occ(ws, v, i + 1) == Occ(ws, v, i) {}
  }

  lemma SkipZero(table: seq<int>, ws: seq<nat>, bits: nat, mark: seq<nat>, i: nat)
    requires Filled(table, ws, bits, i) && Marks(ws, bits, mark, i) && i < |ws| && ws[i] == 0
    ensures Filled(table, ws, bits, i + 1) && Marks(ws, bits, mark, i + 1)
  {
    hide Pow2, Base;
  }

  lemma RunAdded(before: seq<int>, table: seq<int>, ws: seq<nat>, bits: nat, i: nat)
    requires i < |ws| && ws[i] > 0 && Filled(before, ws, bits, i) && |before| == |table|
    requires forall p :: 0 <= p < |table| ==>
               table[p] == if Start(ws, i) <= p < Start(ws, i) + Share(ws[i]) then Entry(bits, ws[i], i) else before[p]
    ensures Filled(table, ws, bits, i + 1)
  {
    hide Start, Pow2;
    forall k, p | 0 <= k < i + 1 && 0 <= p < |table| && InRun(ws, k, p)
      ensures table[p] == Entry(bits, ws[k], k)
    {
      if k < i && InRun(ws, i, p) { RunsDisjoint(ws, k, i, p); }
    }
  }

  /**
   `readHuff` from the weight checks to the filled table.  Exactly the weight
   lists that pass the checks are accepted, and then every run holds its symbol
   and code length; with `RunsTile` every entry of the table is accounted for.
   */
  method BuildTable(ws: seq<nat>, table: array<int>) returns (r: Outcome)
    modifies table
    ensures r == CheckWeights(ws, table.Length)
    ensures r.Built? ==> Complete(FullWeights(ws), r.bits)
    ensures r.Built? ==> Filled(table[..], FullWeights(ws), r.bits, |FullWeights(ws)|)
  {
    hide Pow2, HighBit, Filled, Complete, Occ;
    var mark := new nat[13](_ => 0);
    var ok, mask := CountWeights(ws, mark);
    if !ok { return WeightOverflow; }
    if mask == 0 { return BadWeights; }
    var bits := HighBit(mask) + 1;
    if bits > MAX_BITS { return BadWeights; }
    if table.Length < Pow2(bits) { return TableTooSmall; }
    assert bits == TableBits(ws);
    var left := Left(ws);
    var highBit := HighBit(left);
    if Pow2(highBit) != left { return BadWeights; }
    if |ws| >= 256 { return WeightOverflow; }
    var full := ws + [highBit + 1];
    LastWeight(ws);
    ghost var before := mark[..];
    mark[highBit + 1] := mark[highBit + 1] + 1;
    OneMore(ws, highBit + 1, before, mark[..]);
    assert forall w :: 0 <= w < 13 ==> mark[w] == mark[..][w];
    if mark[1] < 2 || mark[1] % 2 != 0 { return BadWeights; }
    AcceptedIsComplete(ws, table.Length);
    FirstEntries(full, bits, mark);
    FillRuns(full, bits, mark, table);
    r := Built(bits);
  }

  lemma LastWeight(ws: seq<nat>)
    requires Total(ws) >= 1 && TableBits(ws) <= MAX_BITS && Pow2(HighBit(Left(ws))) == Left(ws)
    ensures HighBit(Left(ws)) + 1 <= MAX_BITS
  {
    WeightBound(HighBit(Left(ws)) + 1, TableBits(ws));
  }

  lemma OneMore(ws: seq<nat>, x: nat, mark: seq<nat>, after: seq<nat>)
    requires x < |mark| && forall w :: 0 <= w < |mark| ==> mark[w] == Occ(ws, w, |ws|)
    requires after == mark[x := mark[x] + 1]
    ensures forall w :: 0 <= w < |after| ==> after[w] == Occ(ws + [x], w, |ws| + 1)
  {
    forall w: nat | w < |after| ensures after[w] == Occ(ws + [x], w, |ws| + 1) {
      OccAgree(ws, ws + [x], w, |ws|);
    }
  }
}
