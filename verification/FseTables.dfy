/**
 The two FSE table builders.  `FseEncoder.BuildCTable` fills the encoder's
 symbol, state and transform tables; `BuildFse` fills the decoder's entries.
 */
module FseTables {
  import opened Arith
  import opened FseSpread
  import opened FseNorm
  import opened Occurrences

  /** Position of the walk after n placements. */
  function WalkPosition(t: nat, high: int, n: nat): nat
    requires t >= 1 && n <= |Walk(t, high, t)|
  {
    var w := Walk(t, high, t);
    if n < |w| then w[n] else 0
  }

  /**
   The walk is back at slot 0 exactly when it has placed nothing or has filled
   every slot it may use.
   */
  lemma WalkBackAtZero(k: nat, high: int, n: nat)
    requires k >= 5 && 0 <= high < Pow2(k) && n <= |Walk(Pow2(k), high, Pow2(k))|
    ensures WalkPosition(Pow2(k), high, n) == 0 <==> n == 0 || n == high + 1
  {
    var t := Pow2(k);
    var w := Walk(t, high, t);
    WalkPermutation(k, high);
    assert w[0] == 0 by {
      WalkPrefix(t, high, 1, t);
      assert Walk(t, high, 1) == Walk(t, high, 0) + [Visit(t, 0)];
    }
  }

  /** The stride on which the walk makes its n-th placement. */
  lemma {:induction false} StrideOf(t: nat, high: int, j: nat, n: nat) returns (i: nat)
    requires t >= 1 && n < |Walk(t, high, j)|
    ensures i < j && |Walk(t, high, i)| == n && Visit(t, i) == Walk(t, high, j)[n] <= high
  {
    var rest := Walk(t, high, j - 1);
    if n < |rest| {
      i := StrideOf(t, high, j - 1, n);
    } else {
      i := j - 1;
    }
  }

  /** Where the walk stands once n + 1 slots have been met and the next one is admissible. */
  lemma NextStop(k: nat, high: int, j: nat, n: nat)
    requires k >= 5 && 0 <= high < Pow2(k) && j <= Pow2(k)
    requires |Walk(Pow2(k), high, j)| == n && Visit(Pow2(k), j) <= high
    ensures n <= |Walk(Pow2(k), high, Pow2(k))|
    ensures Visit(Pow2(k), j) == WalkPosition(Pow2(k), high, n)
  {
    var t := Pow2(k);
    WalkPrefix(t, high, j, t);
    if j < t {
      WalkPrefix(t, high, j + 1, t);
      assert Walk(t, high, j + 1) == Walk(t, high, j) + [Visit(t, j)];
    } else {
      VisitReturns(t);
    }
  }

  /** One stop of the walk: skip the slots above the threshold. */
  method Advance(k: nat, high: int, pos: nat, ghost n: nat) returns (next: nat)
    requires k >= 5 && 0 <= high < Pow2(k) && n < |Walk(Pow2(k), high, Pow2(k))|
    requires pos == WalkPosition(Pow2(k), high, n)
    ensures next == WalkPosition(Pow2(k), high, n + 1)
  {
    hide Pow2, Step, Visit, Walk, WalkPosition;
    var t := Pow2(k);
    var step := Step(t);
    ghost var j := FindStride(k, high, n);
    VisitReturns(t);
    OneStride(t, high, j);
    next := (pos + step) % t;
    j := j + 1;
    while next > high
      invariant j <= t && next == Visit(t, j) && |Walk(t, high, j)| == n + 1
      decreases t - j
    {
      OneStride(t, high, j);
      next := (next + step) % t;
      j := j + 1;
    }
    NextStop(k, high, j, n + 1);
  }

  lemma FindStride(k: nat, high: int, n: nat) returns (j: nat)
    requires k >= 5 && n < |Walk(Pow2(k), high, Pow2(k))|
    ensures j < Pow2(k) && |Walk(Pow2(k), high, j)| == n
    ensures Visit(Pow2(k), j) == WalkPosition(Pow2(k), high, n) <= high
  {
    j := StrideOf(Pow2(k), high, Pow2(k), n);
  }

  lemma OneStride(t: nat, high: int, j: nat)
    requires t >= 1
    ensures Visit(t, j + 1) == (Visit(t, j) + Step(t)) % t
    ensures |Walk(t, high, j + 1)| == |Walk(t, high, j)| + (if Visit(t, j) <= high then 1 else 0)
  {}

  /** The first n symbols of the walk stand in the table. */
  ghost predicate Placed(table: seq<nat>, w: seq<nat>, syms: seq<nat>, n: nat) {
    && n <= |w| && n <= |syms|
    && forall m :: 0 <= m < n ==> w[m] < |table| && table[w[m]] == syms[m]
  }

  lemma PlaceNext(table: seq<nat>, w: seq<nat>, syms: seq<nat>, n: nat)
    requires Placed(table, w, syms, n) && Distinct(w)
    requires n < |w| && n < |syms| && w[n] < |table|
    ensures Placed(table[w[n] := syms[n]], w, syms, n + 1)
  {}

  /** The table after the first n placements of the walk over a base table. */
  ghost predicate WalkState(before: seq<nat>, table: seq<nat>, w: seq<nat>, syms: seq<nat>, high: int, n: nat) {
    && |table| == |before|
    && Placed(table, w, syms, n)
    && forall p :: high < p < |table| && 0 <= p ==> table[p] == before[p]
  }

  /** Place all slots of one symbol. */
  method PlaceSymbol(k: nat, high: int, sym: nat, count: nat, table: array<nat>, start: nat,
                     ghost base: seq<nat>, ghost syms: seq<nat>, ghost n: nat)
    returns (pos: nat)
    requires k >= 5 && table.Length == Pow2(k) && -1 <= high < Pow2(k)
    requires n + count <= |syms| && n + count <= |Walk(Pow2(k), high, Pow2(k))|
    requires forall i :: n <= i < n + count ==> syms[i] == sym
    requires start == WalkPosition(Pow2(k), high, n)
    requires WalkState(base, table[..], Walk(Pow2(k), high, Pow2(k)), syms, high, n)
    modifies table
    ensures WalkState(base, table[..], Walk(Pow2(k), high, Pow2(k)), syms, high, n + count)
    ensures pos == WalkPosition(Pow2(k), high, n + count)
  {
    hide Pow2, Walk, WalkState;
    WalkPermutation(k, high);
    ghost var w := Walk(Pow2(k), high, Pow2(k));
    pos := start;
    for c := 0 to count
      invariant pos == WalkPosition(Pow2(k), high, n + c)
      invariant WalkState(base, table[..], w, syms, high, n + c)
    {
      ghost var before := table[..];
      WalkStateNext(base, before, w, syms, high, n + c);
      table[pos] := sym;
      assert table[..] == before[w[n + c] := syms[n + c]];
      pos := Advance(k, high, pos, n + c);
    }
  }

  lemma WalkStateNext(base: seq<nat>, table: seq<nat>, w: seq<nat>, syms: seq<nat>, high: int, n: nat)
    requires WalkState(base, table, w, syms, high, n) && Distinct(w)
    requires n < |w| && n < |syms| && w[n] < |table| && w[n] <= high
    ensures WalkState(base, table[w[n] := syms[n]], w, syms, high, n + 1)
  {
    PlaceNext(table, w, syms, n);
  }

  /** The placement loop both builders run. */
  method SpreadWalk(norm: Norm, k: nat, high: int, table: array<nat>) returns (pos: nat)
    requires k >= 5 && ValidNorm(norm) && table.Length == Pow2(k) && -1 <= high < Pow2(k)
    requires |WalkSyms(norm, |norm|)| <= high + 1
    modifies table
    ensures |Walk(Pow2(k), high, Pow2(k))| == high + 1
    ensures WalkState(old(table[..]), table[..], Walk(Pow2(k), high, Pow2(k)), WalkSyms(norm, |norm|),
                      high, |WalkSyms(norm, |norm|)|)
    ensures pos == WalkPosition(Pow2(k), high, |WalkSyms(norm, |norm|)|)
  {
    hide Pow2, Walk, WalkState, WalkPosition;
    WalkPermutation(k, high);
    ghost var t := Pow2(k);
    ghost var w := Walk(t, high, t);
    ghost var syms := WalkSyms(norm, |norm|);
    pos := 0;
    WalkStart(k, high, table[..], syms);
    for i: nat := 0 to |norm|
      invariant |WalkSyms(norm, i)| <= |syms| && pos == WalkPosition(t, high, |WalkSyms(norm, i)|)
      invariant WalkState(old(table[..]), table[..], w, syms, high, |WalkSyms(norm, i)|)
    {
      var count := if norm[i] < 0 then 0 else norm[i];
      SymsStep(norm, i);
      pos := PlaceSymbol(k, high, i, count, table, pos, old(table[..]), syms, |WalkSyms(norm, i)|);
    }
  }

  lemma WalkStart(k: nat, high: int, table: seq<nat>, syms: seq<nat>)
    requires k >= 5 && -1 <= high < Pow2(k)
    ensures WalkState(table, table, Walk(Pow2(k), high, Pow2(k)), syms, high, 0)
    ensures WalkPosition(Pow2(k), high, 0) == 0
  {
    WalkPermutation(k, high);
    if high >= 0 { WalkBackAtZero(k, high, 0); }
  }

  lemma SymsStep(norm: Norm, i: nat)
    requires i < |norm|
    ensures var n, c := |WalkSyms(norm, i)|, if norm[i] < 0 then 0 else norm[i];
            && |WalkSyms(norm, i + 1)| == n + c <= |WalkSyms(norm, |norm|)|
            && forall j :: n <= j < n + c ==> WalkSyms(norm, |norm|)[j] == i
  {
    SymsPrefix(norm, i + 1, |norm|);
  }

  /** The first n less-than-one symbols stand at the top of the table. */
  ghost predicate TopPlaced(table: seq<nat>, low: seq<nat>, n: nat) {
    && n <= |low| <= |table|
    && forall i :: 0 <= i < n ==> table[|table| - 1 - i] == low[i]
  }

  lemma TopNone(table: seq<nat>, low: seq<nat>)
    requires |low| <= |table|
    ensures TopPlaced(table, low, 0)
  {}

  lemma TopNext(table: seq<nat>, low: seq<nat>, n: nat)
    requires TopPlaced(table, low, n) && n < |low|
    ensures TopPlaced(table[|table| - 1 - n := low[n]], low, n + 1)
  {}

  /** Filling the top slots and then running the walk yields the prescribed table. */
  lemma SpreadComplete(norm: Norm, k: nat, before: seq<nat>, table: seq<nat>)
    requires k >= 5 && Normalised(norm, k) && |table| == Pow2(k)
    requires TopPlaced(before, LowSyms(norm, |norm|), |LowSyms(norm, |norm|)|)
    requires WalkState(before, table, Walk(Pow2(k), High(norm, k), Pow2(k)), WalkSyms(norm, |norm|),
                       High(norm, k), |WalkSyms(norm, |norm|)|)
    ensures IsSpread(norm, k, table)
  {
    SymsTotal(norm, |norm|);
    WalkPermutation(k, High(norm, k));
  }

  lemma LowStep(norm: Norm, i: nat)
    requires i < |norm| && norm[i] == -1
    ensures |LowSyms(norm, i)| < |LowSyms(norm, |norm|)|
    ensures LowSyms(norm, |norm|)[|LowSyms(norm, i)|] == i
  {
    SymsPrefix(norm, i + 1, |norm|);
    assert LowSyms(norm, i + 1) == LowSyms(norm, i) + [i];
  }

  // ------------------------------------------------------------------ decoder

  datatype FseEntry = FseEntry(sym: nat, bits: nat, base: nat)

  /** The decoder's running counter for the symbol in slot p, before slot p is visited. */
  function NextState(norm: Norm, syms: seq<nat>, p: nat): nat
    requires p < |syms| && syms[p] < |norm| && norm[syms[p]] >= -1
  {
    Count(norm[syms[p]]) + Occ(syms, syms[p], p)
  }

  /** The entry a counter value x in [1, 2T) gives rise to. */
  function EntryOf(k: nat, sym: nat, x: nat): FseEntry
    requires 1 <= x < 2 * Pow2(k)
  {
    var h := HighBit(x);
    HighBitBound(k, x);
    ScaledRange(k, x);
    FseEntry(sym, k - h, x * Pow2(k - h) - Pow2(k))
  }

  lemma HighBitBound(k: nat, x: nat)
    requires 1 <= x < 2 * Pow2(k)
    ensures HighBit(x) <= k
  {
    if HighBit(x) > k { Pow2Monotone(k + 1, HighBit(x)); }
  }

  lemma ScaleBetween(p: nat, x: nat, b: nat)
    requires p <= x < 2 * p
    ensures p * b <= x * b <= 2 * (p * b) - b
  {
    MulMonotone(p, x, b);
    MulMonotone(x + 1, 2 * p, b);
  }

  /** Shifting x up to k + 1 bits lands in [T, 2T). */
  lemma ScaledRange(k: nat, x: nat)
    requires 1 <= x < 2 * Pow2(k) && HighBit(x) <= k
    ensures Pow2(k) <= x * Pow2(k - HighBit(x)) <= 2 * Pow2(k) - Pow2(k - HighBit(x))
  {
    var h := HighBit(x);
    Pow2Add(h, k - h);
    ScaleBetween(Pow2(h), x, Pow2(k - h));
  }

  /** The counter of a spread table stays in the range `EntryOf` needs. */
  lemma NextStateRange(norm: Norm, k: nat, syms: seq<nat>, p: nat)
    requires k >= 5 && Normalised(norm, k) && IsSpread(norm, k, syms) && p < |syms|
    ensures syms[p] < |norm|
    ensures var c := Count(norm[syms[p]]); 1 <= c <= NextState(norm, syms, p) < 2 * c <= 2 * Pow2(k)
  {
    SpreadInRange(norm, k, syms, p);
    var s := syms[p];
    SpreadHistogram(norm, k, syms, s);
    OccMonotone(syms, s, p, |syms|);
    CumMonotone(norm, s + 1, |norm|);
  }

  /** Every slot holds a symbol whose running counter fits an entry. */
  ghost predicate CountersFit(norm: Norm, k: nat, syms: seq<nat>) {
    && |syms| == Pow2(k) && |norm| <= 256
    && forall p :: 0 <= p < |syms| ==>
        && syms[p] < |norm| && norm[syms[p]] >= -1
        && 1 <= NextState(norm, syms, p) < 2 * Pow2(k)
  }

  lemma SpreadCountersFit(norm: Norm, k: nat, syms: seq<nat>)
    requires k >= 5 && Normalised(norm, k) && IsSpread(norm, k, syms)
    ensures CountersFit(norm, k, syms)
  {
    forall p: nat | p < |syms|
      ensures syms[p] < |norm| && norm[syms[p]] >= -1 && 1 <= NextState(norm, syms, p) < 2 * Pow2(k)
    {
      NextStateRange(norm, k, syms, p);
    }
  }

  /** The decoding table of a spread, slot by slot. */
  ghost function DecodeTable(norm: Norm, k: nat, syms: seq<nat>): (r: seq<FseEntry>)
    requires CountersFit(norm, k, syms)
    ensures |r| == Pow2(k)
    ensures forall p :: 0 <= p < |r| ==> r[p] == EntryOf(k, syms[p], NextState(norm, syms, p))
  {
    seq(Pow2(k), p requires 0 <= p < Pow2(k) => EntryOf(k, syms[p], NextState(norm, syms, p)))
  }

  method FillTop(norm: Norm, k: nat, syms: array<nat>, next: array<nat>) returns (high: int)
    requires k >= 5 && Normalised(norm, k) && syms.Length == Pow2(k)
    requires next.Length == 256 && next != syms
    modifies syms, next
    ensures high == High(norm, k)
    ensures TopPlaced(syms[..], LowSyms(norm, |norm|), |LowSyms(norm, |norm|)|)
    ensures forall s :: 0 <= s < |norm| ==> next[s] == Count(norm[s])
  {
    hide Pow2, Walk, WalkSyms, TopPlaced;
    SymsTotal(norm, |norm|);
    ghost var low := LowSyms(norm, |norm|);
    high := Pow2(k) - 1;
    TopNone(syms[..], low);
    for i: nat := 0 to |norm|
      invariant high == Pow2(k) - 1 - |LowSyms(norm, i)| && |LowSyms(norm, i)| <= |low|
      invariant TopPlaced(syms[..], low, |LowSyms(norm, i)|)
      invariant forall s :: 0 <= s < i ==> next[s] == Count(norm[s])
    {
      SymsPrefix(norm, i + 1, |norm|);
      if norm[i] >= 0 {
        next[i] := norm[i];
      } else {
        LowStep(norm, i);
        ghost var before := syms[..];
        TopNext(before, low, |LowSyms(norm, i)|);
        syms[high] := i;
        assert syms[..] == before[high := i];
        high := high - 1;
        next[i] := 1;
      }
    }
  }

  /**
   Decoding table construction.  The two error returns of the source (the walk
   not back at slot 0, a symbol without a state) are part of the model and are
   shown never to be taken for a normalised distribution.
   */
  method BuildFse(norm: Norm, k: nat, table: array<FseEntry>) returns (ok: bool, ghost syms: seq<nat>)
    requires 5 <= k <= 14 && Normalised(norm, k) && table.Length >= Pow2(k)
    modifies table
    ensures ok && IsSpread(norm, k, syms) && CountersFit(norm, k, syms)
    ensures table[..Pow2(k)] == DecodeTable(norm, k, syms)
  {
    var t := Pow2(k);
    var sym := new nat[t](_ => 0);
    var next := new nat[256](_ => 0);
    var high := FillTop(norm, k, sym, next);
    ghost var before := sym[..];
    SymsTotal(norm, |norm|);
    var pos := SpreadWalk(norm, k, high, sym);
    SpreadComplete(norm, k, before, sym[..]);
    syms := sym[..];
    ok := pos == 0;
    if !ok { return; }
    SpreadCountersFit(norm, k, syms);
    assert Counting(Counts(norm), next[..], syms, 0);
    ok := FillEntries(norm, k, sym, next, table);
  }

  /** Counters that started at `base` and have counted the first i symbols. */
  ghost predicate Counting(base: seq<nat>, counters: seq<nat>, syms: seq<nat>, i: nat) {
    && |base| <= |counters| && i <= |syms|
    && forall s :: 0 <= s < |base| ==> counters[s] == base[s] + Occ(syms, s, i)
  }

  lemma CountOne(base: seq<nat>, counters: seq<nat>, syms: seq<nat>, i: nat)
    requires Counting(base, counters, syms, i) && i < |syms| && syms[i] < |base|
    ensures syms[i] < |counters| && counters[syms[i]] == base[syms[i]] + Occ(syms, syms[i], i)
    ensures Counting(base, counters[syms[i] := counters[syms[i]] + 1], syms, i + 1)
  {}

  ghost function Counts(norm: Norm): (r: seq<nat>)
    requires ValidNorm(norm)
    ensures |r| == |norm| && forall s :: 0 <= s < |r| ==> r[s] == Count(norm[s])
  {
    seq(|norm|, s requires 0 <= s < |norm| => Count(norm[s]))
  }

  /** The last loop of the builder: one entry per slot, counting each symbol up. */
  method FillEntries(norm: Norm, k: nat, sym: array<nat>, next: array<nat>, table: array<FseEntry>) returns (ok: bool)
    requires 5 <= k <= 14 && table.Length >= Pow2(k) && next.Length == 256 && next != sym
    requires ValidNorm(norm) && CountersFit(norm, k, sym[..])
    requires Counting(Counts(norm), next[..], sym[..], 0)
    modifies next, table
    ensures ok && sym[..] == old(sym[..]) && table[..Pow2(k)] == DecodeTable(norm, k, sym[..])
  {
    hide Pow2, HighBit, Occ, Counting;
    var t := Pow2(k);
    ghost var syms := sym[..];
    ghost var want := DecodeTable(norm, k, syms);
    var i := 0;
    ok := true;
    while i < t
      invariant ok && i <= t && sym[..] == syms
      invariant Counting(Counts(norm), next[..], syms, i)
      invariant table[..i] == want[..i]
    {
      var s := sym[i];
      assert s == syms[i];
      CountOne(Counts(norm), next[..], syms, i);
      var nextState := next[s];
      assert nextState == NextState(norm, syms, i);
      ghost var before := next[..];
      next[s] := nextState + 1;
      assert next[..] == before[s := before[s] + 1];
      ok := nextState != 0;
      if !ok { return; }
      HighBitBound(k, nextState);
      var bits := k - HighBit(nextState);
      ScaledRange(k, nextState);
      table[i] := FseEntry(s, bits, nextState * Pow2(bits) - t);
      assert table[i] == want[i];
      i := i + 1;
    }
  }

  // ------------------------------------------------------------------ encoder

  datatype SymbolTransform = SymbolTransform(deltaNbBits: int, deltaFindState: int)

  /** The transform of a symbol with non-zero count c whose predecessors take `total` slots. */
  function TransformOf(k: nat, c: int, total: nat): SymbolTransform
    requires c == -1 || 1 <= c <= Pow2(k)
  {
    if c == -1 || c == 1 then
      SymbolTransform(k * 0x10000 - Pow2(k), total - 1)
    else
      BelowTable(k, c);
      var maxBitsOut := k - HighBit(c - 1);
      SymbolTransform(maxBitsOut * 0x10000 - c * Pow2(maxBitsOut), total - c)
  }

  lemma BelowTable(k: nat, c: nat)
    requires 2 <= c <= Pow2(k)
    ensures HighBit(c - 1) < k
  {
    if HighBit(c - 1) >= k { Pow2Monotone(k, HighBit(c - 1)); }
  }

  /** Every slot holds a symbol with fewer earlier occurrences than counts. */
  ghost predicate RanksFit(norm: Norm, k: nat, syms: seq<nat>) {
    && |syms| == Pow2(k)
    && forall p :: 0 <= p < |syms| ==>
        syms[p] < |norm| && norm[syms[p]] >= -1 && Occ(syms, syms[p], p) < Count(norm[syms[p]])
  }

  lemma SpreadRanksFit(norm: Norm, k: nat, syms: seq<nat>)
    requires k >= 5 && Normalised(norm, k) && IsSpread(norm, k, syms)
    ensures RanksFit(norm, k, syms)
  {
    forall p: nat | p < |syms|
      ensures syms[p] < |norm| && Occ(syms, syms[p], p) < Count(norm[syms[p]])
    {
      NextStateRange(norm, k, syms, p);
    }
  }

  /** Index into the state table of the slot p. */
  ghost function StateIndex(norm: Norm, k: nat, syms: seq<nat>, p: nat): nat
    requires ValidNorm(norm) && RanksFit(norm, k, syms) && p < |syms|
  {
    Cum(norm, syms[p]) + Occ(syms, syms[p], p)
  }

  lemma StateIndexRange(norm: Norm, k: nat, syms: seq<nat>, p: nat)
    requires Normalised(norm, k) && RanksFit(norm, k, syms) && p < |syms|
    ensures StateIndex(norm, k, syms, p) < Pow2(k)
  {
    CumMonotone(norm, syms[p] + 1, |norm|);
  }

  lemma StateIndexInjective(norm: Norm, k: nat, syms: seq<nat>, p: nat, q: nat)
    requires ValidNorm(norm) && RanksFit(norm, k, syms) && p < q < |syms|
    ensures StateIndex(norm, k, syms, p) != StateIndex(norm, k, syms, q)
  {
    var a, b := syms[p], syms[q];
    if a == b {
      OccMonotone(syms, a, p, q);
    } else if a < b {
      CumMonotone(norm, a + 1, b);
    } else {
      CumMonotone(norm, b + 1, a);
    }
  }

  /** The state index of every slot. */
  ghost function StateIndices(norm: Norm, k: nat, syms: seq<nat>): (r: seq<nat>)
    requires ValidNorm(norm) && RanksFit(norm, k, syms)
    ensures |r| == Pow2(k) && forall p :: 0 <= p < |r| ==> r[p] == StateIndex(norm, k, syms, p)
  {
    seq(Pow2(k), p requires 0 <= p < Pow2(k) => StateIndex(norm, k, syms, p))
  }

  lemma StateIndicesDistinct(norm: Norm, k: nat, syms: seq<nat>)
    requires Normalised(norm, k) && RanksFit(norm, k, syms)
    ensures var r := StateIndices(norm, k, syms);
            Distinct(r) && forall p :: 0 <= p < |r| ==> r[p] < Pow2(k)
  {
    var r := StateIndices(norm, k, syms);
    forall p, q | 0 <= p < q < |r| ensures r[p] != r[q] { StateIndexInjective(norm, k, syms, p, q); }
    forall p | 0 <= p < |r| ensures r[p] < Pow2(k) { StateIndexRange(norm, k, syms, p); }
  }

  /** Each symbol's slots stand in its block of the state table in ascending order. */
  ghost predicate IsStateTable(norm: Norm, k: nat, syms: seq<nat>, states: seq<nat>) {
    && ValidNorm(norm) && RanksFit(norm, k, syms) && |states| == Pow2(k)
    && forall p :: 0 <= p < Pow2(k) ==>
        var i := StateIndices(norm, k, syms)[p]; i < |states| && states[i] == Pow2(k) + p
  }

  ghost predicate CountsFit(norm: Norm, k: nat) {
    forall s :: 0 <= s < |norm| ==> norm[s] == -1 || 0 <= norm[s] <= Pow2(k)
  }

  lemma NormalisedCountsFit(norm: Norm, k: nat)
    requires Normalised(norm, k)
    ensures CountsFit(norm, k)
  {
    forall s: nat | s < |norm| ensures norm[s] == -1 || 0 <= norm[s] <= Pow2(k) {
      CumMonotone(norm, s + 1, |norm|);
    }
  }

  /** The transforms of the symbols with a non-zero count; the others are not used. */
  ghost function Transforms(norm: Norm, k: nat): (r: seq<SymbolTransform>)
    requires ValidNorm(norm) && CountsFit(norm, k)
    ensures |r| == |norm|
  {
    seq(|norm|, s requires 0 <= s < |norm| => TransformFor(norm, k, s))
  }

  function TransformFor(norm: Norm, k: nat, s: nat): SymbolTransform
    requires s < |norm| && ValidNorm(norm) && CountsFit(norm, k)
  {
    if norm[s] == 0 then SymbolTransform(0, 0) else TransformOf(k, norm[s], Cum(norm, s))
  }

  ghost predicate AreTransforms(norm: Norm, k: nat, tt: seq<SymbolTransform>) {
    && ValidNorm(norm) && CountsFit(norm, k) && |norm| <= |tt|
    && forall s :: 0 <= s < |norm| && norm[s] != 0 ==> tt[s] == Transforms(norm, k)[s]
  }

  lemma CumStep(norm: Norm, i: nat)
    requires ValidNorm(norm) && i < |norm|
    ensures Cum(norm, i + 1) == Cum(norm, i) + Count(norm[i])
  {}

  method FillCumul(norm: Norm, k: nat, syms: array<nat>, cumul: array<nat>) returns (high: int)
    requires ValidNorm(norm) && |norm| <= 255 && |LowSyms(norm, |norm|)| <= Pow2(k)
    requires syms.Length == Pow2(k) && cumul.Length == 256 && cumul != syms
    modifies syms, cumul
    ensures high == High(norm, k)
    ensures TopPlaced(syms[..], LowSyms(norm, |norm|), |LowSyms(norm, |norm|)|)
    ensures forall s :: 0 <= s <= |norm| ==> cumul[s] == Cum(norm, s)
  {
    hide Pow2, Walk, WalkSyms, TopPlaced, Cum;
    ghost var low := LowSyms(norm, |norm|);
    high := Pow2(k) - 1;
    TopNone(syms[..], low);
    assert Cum(norm, 0) == 0 by { CumZero(norm); }
    cumul[0] := 0;
    for i: nat := 0 to |norm|
      invariant high == Pow2(k) - 1 - |LowSyms(norm, i)| && |LowSyms(norm, i)| <= |low|
      invariant TopPlaced(syms[..], low, |LowSyms(norm, i)|)
      invariant forall s :: 0 <= s <= i ==> cumul[s] == Cum(norm, s)
    {
      SymsPrefix(norm, i + 1, |norm|);
      CumStep(norm, i);
      if norm[i] == -1 {
        LowStep(norm, i);
        cumul[i + 1] := cumul[i] + 1;
        ghost var before := syms[..];
        TopNext(before, low, |LowSyms(norm, i)|);
        syms[high] := i;
        assert syms[..] == before[high := i];
        high := high - 1;
      } else {
        cumul[i + 1] := cumul[i] + norm[i];
      }
    }
  }

  lemma CumZero(norm: Norm)
    requires ValidNorm(norm)
    ensures Cum(norm, 0) == 0
  {}

  ghost function Cums(norm: Norm): (r: seq<nat>)
    requires ValidNorm(norm)
    ensures |r| == |norm| && forall s :: 0 <= s < |r| ==> r[s] == Cum(norm, s)
  {
    seq(|norm|, s requires 0 <= s < |norm| => Cum(norm, s))
  }

  lemma CountingStarts(norm: Norm, cumul: seq<nat>, syms: seq<nat>)
    requires ValidNorm(norm) && |norm| <= |cumul|
    requires forall s :: 0 <= s < |norm| ==> cumul[s] == Cum(norm, s)
    ensures Counting(Cums(norm), cumul, syms, 0)
  {}

  method FillStates(norm: Norm, k: nat, syms: array<nat>, cumul: array<nat>, states: array<nat>, ghost index: seq<nat>)
    requires states.Length == Pow2(k) && states != syms && states != cumul
    requires ValidNorm(norm) && syms.Length == Pow2(k) == |index| && Distinct(index)
    requires forall p :: 0 <= p < syms.Length ==> syms[p] < |norm| && index[p] < Pow2(k)
    requires forall p :: 0 <= p < syms.Length ==> index[p] == Cum(norm, syms[p]) + Occ(syms[..], syms[p], p)
    requires cumul.Length == 256 && cumul != syms
    requires Counting(Cums(norm), cumul[..], syms[..], 0)
    modifies cumul, states
    ensures syms[..] == old(syms[..])
    ensures forall p :: 0 <= p < Pow2(k) ==> states[index[p]] == Pow2(k) + p
  {
    hide Pow2, Cum, Occ, Counting;
    var t := Pow2(k);
    ghost var ss := syms[..];
    for u: nat := 0 to t
      invariant syms[..] == ss
      invariant Counting(Cums(norm), cumul[..], ss, u)
      invariant forall p :: 0 <= p < u ==> states[index[p]] == t + p
    {
      var v := syms[u];
      assert v == ss[u];
      CountOne(Cums(norm), cumul[..], ss, u);
      assert cumul[v] == index[u];
      states[cumul[v]] := t + u;
      ghost var before := cumul[..];
      cumul[v] := cumul[v] + 1;
      assert cumul[..] == before[v := before[v] + 1];
    }
  }

  method FillTransforms(norm: Norm, k: nat, tt: array<SymbolTransform>) returns (total: nat)
    requires ValidNorm(norm) && CountsFit(norm, k) && tt.Length == 256
    modifies tt
    ensures AreTransforms(norm, k, tt[..])
    ensures total == Cum(norm, |norm|)
  {
    hide Pow2, HighBit;
    ghost var want := Transforms(norm, k);
    total := 0;
    for i: nat := 0 to |norm|
      invariant total == Cum(norm, i)
      invariant forall s :: 0 <= s < i && norm[s] != 0 ==> tt[s] == want[s]
    {
      var v := norm[i];
      if v == 0 {
      } else if v == -1 || v == 1 {
        tt[i] := SymbolTransform(k * 0x10000 - Pow2(k), total - 1);
        total := total + 1;
      } else {
        BelowTable(k, v);
        var maxBitsOut := k - HighBit(v - 1);
        var minStatePlus := v * Pow2(maxBitsOut);
        tt[i] := SymbolTransform(maxBitsOut * 0x10000 - minStatePlus, total - v);
        total := total + v;
      }
      assert v != 0 ==> tt[i] == want[i];
    }
  }

  class FseEncoder {
    var norm: Norm
    var tableLog: nat
    var tableSymbol: seq<nat>
    var stateTable: seq<nat>
    var symbolTT: seq<SymbolTransform>

    constructor (norm: Norm, tableLog: nat)
      ensures this.norm == norm && this.tableLog == tableLog
    {
      this.norm, this.tableLog := norm, tableLog;
      tableSymbol, stateTable, symbolTT := [], [], [];
    }

    /** Counts are 16-bit and the cumulative table has 256 cells. */
    ghost predicate Valid()
      reads this
    {
      && 5 <= tableLog <= 14 && ValidNorm(norm) && |norm| <= 255
      && Cum(norm, |norm|) < 0x8000
      && |LowSyms(norm, |norm|)| <= Pow2(tableLog)
    }

    /** The three tables are the ones the distribution calls for. */
    ghost predicate Built()
      reads this
    {
      EncodeTables(norm, tableLog, tableSymbol, stateTable, symbolTT)
    }

    /**
     Encoding table construction.  It fails exactly when the counts do not add
     up to the table size; the later error returns are never taken.
     */
    method BuildCTable() returns (ok: bool)
      requires Valid()
      modifies this`tableSymbol, this`stateTable, this`symbolTT
      ensures ok <==> Normalised(norm, tableLog)
      ensures ok ==> Built()
    {
      hide Pow2, Walk, WalkSyms, LowSyms, Cum, Occ, WalkState, TopPlaced;
      var t := Pow2(tableLog);
      var syms, states := new nat[t](_ => 0), new nat[t](_ => 0);
      var tt := new SymbolTransform[256](_ => SymbolTransform(0, 0));
      var cumul := new nat[256](_ => 0);
      var high := FillCumul(norm, tableLog, syms, cumul);
      ok := cumul[|norm|] == t;
      if !ok { return; }
      ghost var before := syms[..];
      SymsTotal(norm, |norm|);
      var pos := SpreadWalk(norm, tableLog, high, syms);
      SpreadComplete(norm, tableLog, before, syms[..]);
      SpreadRanksFit(norm, tableLog, syms[..]);
      NormalisedCountsFit(norm, tableLog);
      ok := pos == 0;
      if !ok { return; }
      StateIndicesDistinct(norm, tableLog, syms[..]);
      CountingStarts(norm, cumul[..], syms[..]);
      FillStates(norm, tableLog, syms, cumul, states, StateIndices(norm, tableLog, syms[..]));
      var total := FillTransforms(norm, tableLog, tt);
      tableSymbol, stateTable, symbolTT := syms[..], states[..], tt[..];
      ok := total == t;
    }
  }

  ghost predicate EncodeTables(norm: Norm, k: nat, syms: seq<nat>, states: seq<nat>, tt: seq<SymbolTransform>) {
    && k >= 5 && Normalised(norm, k) && IsSpread(norm, k, syms)
    && IsStateTable(norm, k, syms, states)
    && AreTransforms(norm, k, tt)
  }
}
