/**
 The encoder's state machine and the decoder's table are inverse to each
 other, for every normalised distribution (section 4.1.1 of RFC 8878).
 */
module FseDuality {
  import opened Wrappers
  import opened Arith
  import opened FseSpread
  import opened FseNorm
  import opened Occurrences
  import opened FseTables

  datatype Step = Step(bits: int, state: nat)

  /** Bits the encoder emits for a symbol in state x: a 16.16 fixed-point trick. */
  function BitsOut(t: SymbolTransform, x: nat): int { (x + t.deltaNbBits) / 0x10000 }

  /** One encoder transition. */
  function EncodeStep(states: seq<nat>, t: SymbolTransform, x: nat): (r: Step)
  {
    var nb := BitsOut(t, x);
    var dst := if nb < 0 then -1 else x / Pow2(nb) + t.deltaFindState;
    Step(nb, if 0 <= dst < |states| then states[dst] else 0)
  }

  /** The encoder's initial state for its first symbol. */
  function InitState(states: seq<nat>, t: SymbolTransform): nat
  {
    var nb := (t.deltaNbBits + 0x8000) / 0x10000;
    var im := nb * 0x10000 - t.deltaNbBits;
    var lu := if nb < 0 then -1 else im / Pow2(nb) + t.deltaFindState;
    if 0 <= lu < |states| then states[lu] else 0
  }

  lemma ShiftBetween(x: nat, b: nat, lo: nat, hi: nat)
    requires b >= 1 && lo * b <= x < hi * b
    ensures lo <= x / b < hi
  {
    var q, r := x / b, x % b;
    assert x == q * b + r;
    if q < lo { MulMonotone(q + 1, lo, b); }
    if q >= hi { MulMonotone(hi, q, b); }
  }

  lemma TableLimit(k: nat)
    requires k <= 14
    ensures Pow2(k) <= 0x4000
  {
    Pow2Monotone(k, 14);
    assert Pow2(14) == 0x4000 by { Pow2Add(7, 7); assert Pow2(7) == 128; }
  }

  /** For a count of one the whole state is emitted. */
  lemma BitsOutSingle(k: nat, x: nat)
    requires k <= 14 && Pow2(k) <= x < 2 * Pow2(k)
    ensures BitsOut(SymbolTransform(k * 0x10000 - Pow2(k), 0), x) == k
    ensures x / Pow2(k) == 1
  {
    TableLimit(k);
    DivModUnique(x + k * 0x10000 - Pow2(k), 0x10000, k, x - Pow2(k));
    ShiftBetween(x, Pow2(k), 1, 2);
  }

  lemma FixedPoint(t: nat, mb: nat, m: nat, x: nat)
    requires mb >= 1 && t <= x < 2 * t <= 0x8000 && t < m <= 2 * t
    ensures BitsOut(SymbolTransform(mb * 0x10000 - m, 0), x) == if x >= m then mb else mb - 1
  {
    if x >= m {
      DivModUnique(x + mb * 0x10000 - m, 0x10000, mb, x - m);
    } else {
      DivModUnique(x + mb * 0x10000 - m, 0x10000, mb - 1, x - m + 0x10000);
    }
  }

  lemma ScaleStrict(a: nat, b: nat, c: nat)
    requires a < b && c >= 1
    ensures a * c < b * c
  {
    MulMonotone(a + 1, b, c);
  }

  /** A count c with 2^h < c <= 2^(h+1), scaled up by k - h bits, lies in (T, 2T]. */
  lemma CountScale(k: nat, c: nat, h: nat)
    requires h < k && Pow2(h) < c <= Pow2(h + 1)
    ensures Pow2(k) < c * Pow2(k - h) <= 2 * Pow2(k)
    ensures Pow2(h + 1) * Pow2(k - h) == 2 * Pow2(k)
    ensures Pow2(h + 1) * Pow2(k - h - 1) == Pow2(k)
    ensures c * Pow2(k - h) == 2 * c * Pow2(k - h - 1)
  {
    assert Pow2(k + 1) == 2 * Pow2(k) && Pow2(k - h) == 2 * Pow2(k - h - 1);
    hide Pow2;
    Pow2Add(h, k - h);
    Pow2Add(h + 1, k - h);
    Pow2Add(h + 1, k - h - 1);
    ScaleStrict(Pow2(h), c, Pow2(k - h));
    MulMonotone(c, Pow2(h + 1), Pow2(k - h));
    MulAssoc(c, 2, Pow2(k - h - 1));
  }

  /** For a larger count the fixed-point sum picks one of two neighbouring widths. */
  lemma BitsOutMany(k: nat, c: nat, x: nat)
    requires k <= 14 && 2 <= c <= Pow2(k) && Pow2(k) <= x < 2 * Pow2(k)
    ensures HighBit(c - 1) < k
    ensures var mb := k - HighBit(c - 1);
            var nb := BitsOut(SymbolTransform(mb * 0x10000 - c * Pow2(mb), 0), x);
            0 <= nb <= k && c <= x / Pow2(nb) < 2 * c
  {
    hide Pow2, BitsOut, HighBit;
    var h := HighBit(c - 1);
    var mb := k - h;
    BelowTable(k, c);
    TableLimit(k);
    CountBetween(c);
    CountScale(k, c, h);
    TwoWidths(Pow2(k), mb, Pow2(mb), Pow2(mb - 1), Pow2(h + 1), c, x);
  }

  lemma CountBetween(c: nat)
    requires c >= 2
    ensures var h := HighBit(c - 1); Pow2(h) < c <= Pow2(h + 1) <= 2 * c
  {
    var h := HighBit(c - 1);
    assert Pow2(h + 1) == 2 * Pow2(h);
  }

  lemma TwoWidths(t: nat, mb: nat, pm: nat, pm': nat, ph: nat, c: nat, x: nat)
    requires mb >= 1 && pm >= 1 && pm' >= 1 && t <= x < 2 * t <= 0x8000
    requires t < c * pm <= 2 * t && ph * pm == 2 * t && ph * pm' == t && c * pm == 2 * c * pm' && c <= ph <= 2 * c
    ensures var nb := BitsOut(SymbolTransform(mb * 0x10000 - c * pm, 0), x);
            if x >= c * pm then nb == mb && c <= x / pm < 2 * c else nb == mb - 1 && c <= x / pm' < 2 * c
  {
    hide BitsOut;
    FixedPoint(t, mb, c * pm, x);
    if x >= c * pm { ShiftWithin(x, pm, c, ph, c); } else { ShiftWithin(x, pm', ph, 2 * c, c); }
  }

  lemma ShiftWithin(x: nat, b: nat, lo: nat, hi: nat, c: nat)
    requires b >= 1 && lo * b <= x < hi * b && c <= lo && hi <= 2 * c
    ensures c <= x / b < 2 * c
  {
    ShiftBetween(x, b, lo, hi);
  }

  /** Number of bits and quotient for every non-zero count. */
  lemma BitsOutFor(k: nat, c: int, total: nat, x: nat)
    requires k <= 14 && (c == -1 || 1 <= c <= Pow2(k)) && Pow2(k) <= x < 2 * Pow2(k)
    ensures var nb := BitsOut(TransformOf(k, c, total), x);
            0 <= nb <= k && Count(c) <= x / Pow2(nb) < 2 * Count(c)
    ensures TransformOf(k, c, total).deltaFindState == total - Count(c)
  {
    hide Pow2, HighBit;
    if c == -1 || c == 1 { BitsOutSingle(k, x); } else { BitsOutMany(k, c, x); }
  }

  /** The width is what a decoder entry for the quotient would say. */
  lemma QuotientWidth(k: nat, x: nat, nb: nat)
    requires nb <= k && Pow2(k) <= x < 2 * Pow2(k)
    ensures 1 <= x / Pow2(nb) && HighBit(x / Pow2(nb)) == k - nb
  {
    Pow2Add(k - nb, nb);
    Pow2Add(k - nb + 1, nb);
    ShiftBetween(x, Pow2(nb), Pow2(k - nb), Pow2(k - nb + 1));
    HighBitUnique(x / Pow2(nb), k - nb);
  }

  /** What the two builders leave behind for one distribution. */
  ghost predicate Paired(norm: Norm, k: nat, syms: seq<nat>, states: seq<nat>, tt: seq<SymbolTransform>,
                         dec: seq<FseEntry>) {
    && 5 <= k <= 14
    && EncodeTables(norm, k, syms, states, tt)
    && CountersFit(norm, k, syms) && dec == DecodeTable(norm, k, syms)
  }

  /** The builders work on separately spread tables, which are nevertheless equal. */
  lemma BuildersPaired(norm: Norm, k: nat, esyms: seq<nat>, states: seq<nat>, tt: seq<SymbolTransform>,
                       dsyms: seq<nat>, dec: seq<FseEntry>)
    requires 5 <= k <= 14 && EncodeTables(norm, k, esyms, states, tt)
    requires IsSpread(norm, k, dsyms) && CountersFit(norm, k, dsyms) && dec == DecodeTable(norm, k, dsyms)
    ensures Paired(norm, k, esyms, states, tt, dec)
  {
    SpreadUnique(norm, k, esyms, dsyms);
  }

  /** The state for the r-th slot of symbol s. */
  lemma StateOfRank(norm: Norm, k: nat, syms: seq<nat>, states: seq<nat>, s: nat, r: nat) returns (p: nat)
    requires k >= 5 && Normalised(norm, k) && IsSpread(norm, k, syms) && IsStateTable(norm, k, syms, states)
    requires s < |norm| && r < Count(norm[s])
    ensures p < Pow2(k) && syms[p] == s && Occ(syms, s, p) == r
    ensures Cum(norm, s) + r < |states| && states[Cum(norm, s) + r] == Pow2(k) + p
  {
    SpreadHistogram(norm, k, syms, s);
    p := NthOccurrence(syms, s, |syms|, r);
    assert StateIndices(norm, k, syms)[p] == StateIndex(norm, k, syms, p);
  }

  /** Dividing out the entry's width and adding the remainder back is the identity. */
  lemma EntryInverts(k: nat, s: nat, x: nat, nb: nat, q: nat)
    requires nb <= k && Pow2(k) <= x < 2 * Pow2(k) && q == x / Pow2(nb)
    ensures 1 <= q < 2 * Pow2(k)
    ensures var e := EntryOf(k, s, q);
            e.sym == s && e.bits == nb && e.base + x % Pow2(nb) == x - Pow2(k)
  {
    QuotientWidth(k, x, nb);
    QuotientParts(x, Pow2(nb), q);
    EntryFields(k, s, q, nb);
  }

  lemma EntryFields(k: nat, s: nat, q: nat, nb: nat)
    requires 1 <= q < 2 * Pow2(k) && nb <= k && HighBit(q) == k - nb
    ensures EntryOf(k, s, q).sym == s && EntryOf(k, s, q).bits == nb
    ensures EntryOf(k, s, q).base == q * Pow2(nb) - Pow2(k)
  {
    assert k - HighBit(q) == nb;
  }

  lemma QuotientParts(x: nat, b: nat, q: nat)
    requires b >= 1 && q == x / b
    ensures q <= x && x == q * b + x % b
  {
    MulMonotone(1, b, q);
  }

  /** The transition for s from x and the entry it leads to undo each other. */
  ghost predicate DualStep(k: nat, states: seq<nat>, t: SymbolTransform, dec: seq<FseEntry>, x: nat, s: nat) {
    var step := EncodeStep(states, t, x);
    && Pow2(k) <= step.state < 2 * Pow2(k) && |dec| == Pow2(k) && 0 <= step.bits <= k
    && var e := dec[step.state - Pow2(k)];
    && e.sym == s && e.bits == step.bits
    && e.base + x % Pow2(step.bits) == x - Pow2(k)
  }

  /**
   FSE duality: from any encoder state and any symbol that occurs, the encoder
   moves to a slot whose decoder entry names the symbol, asks for exactly the
   bits emitted and, with them, returns to the old state.
   */
  lemma Duality(norm: Norm, k: nat, syms: seq<nat>, states: seq<nat>, tt: seq<SymbolTransform>,
                dec: seq<FseEntry>, x: nat, s: nat)
    requires Paired(norm, k, syms, states, tt, dec)
    requires Pow2(k) <= x < 2 * Pow2(k) && s < |norm| && norm[s] != 0
    ensures DualStep(k, states, tt[s], dec, x, s)
  {
    var nb, q, p := StepTarget(norm, k, syms, states, tt, x, s);
    EntryInverts(k, s, x, nb, q);
    assert NextState(norm, syms, p) == q;
    assert dec[p] == EntryOf(k, s, q);
  }

  /** Width, quotient and target slot of one encoder transition. */
  lemma StepTarget(norm: Norm, k: nat, syms: seq<nat>, states: seq<nat>, tt: seq<SymbolTransform>, x: nat, s: nat)
    returns (nb: nat, q: nat, p: nat)
    requires k <= 14 && EncodeTables(norm, k, syms, states, tt)
    requires Pow2(k) <= x < 2 * Pow2(k) && s < |norm| && norm[s] != 0
    ensures nb <= k && q == x / Pow2(nb)
    ensures p < Pow2(k) && syms[p] == s && Count(norm[s]) + Occ(syms, s, p) == q
    ensures EncodeStep(states, tt[s], x) == Step(nb, Pow2(k) + p)
  {
    hide Pow2, HighBit, BitsOut, TransformOf, Cum, Occ, Walk, IsSpread, Transforms, CountsFit, RanksFit;
    TransformLookup(norm, k, tt, s);
    NormalisedCountsFit(norm, k);
    BitsOutFor(k, norm[s], Cum(norm, s), x);
    nb := BitsOut(tt[s], x);
    q := x / Pow2(nb);
    p := StateOfRank(norm, k, syms, states, s, q - Count(norm[s]));
  }

  lemma TransformLookup(norm: Norm, k: nat, tt: seq<SymbolTransform>, s: nat)
    requires AreTransforms(norm, k, tt) && s < |norm| && norm[s] != 0
    ensures tt[s] == TransformOf(k, norm[s], Cum(norm, s))
  {
    assert Transforms(norm, k)[s] == TransformFor(norm, k, s);
  }

  // -------------------------------------------------------------- completeness

  /** State y is one an entry leads to. */
  predicate Covers(e: FseEntry, y: nat) { e.base <= y < e.base + Pow2(e.bits) }

  lemma DoubleScale(a: nat, b: nat, b': nat)
    requires b < b'
    ensures 2 * a * Pow2(b) <= a * Pow2(b')
  {
    Pow2Monotone(b, b');
    MulMonotone(2 * Pow2(b), Pow2(b'), a);
  }

  lemma ScaledOnce(x: nat, a: nat, b: nat, a': nat, b': nat)
    requires a * Pow2(b) <= x < (a + 1) * Pow2(b)
    requires a' * Pow2(b') <= x < (a' + 1) * Pow2(b')
    ensures b == b' ==> a == a'
    ensures b < b' ==> 2 * a' <= a
  {
    ShiftBetween(x, Pow2(b), a, a + 1);
    if b == b' {
      ShiftBetween(x, Pow2(b), a', a' + 1);
    } else if b < b' {
      DoubleScale(a', b, b');
      ShiftBetween(x, Pow2(b), 2 * a', a + 1);
    }
  }

  lemma EntryBounds(k: nat, s: nat, q: nat, y: nat)
    requires 1 <= q < 2 * Pow2(k) && Covers(EntryOf(k, s, q), y)
    ensures var b := EntryOf(k, s, q).bits; q * Pow2(b) <= Pow2(k) + y < (q + 1) * Pow2(b)
  {
    var e := EntryOf(k, s, q);
    HighBitBound(k, q);
    EntryFields(k, s, q, e.bits);
    assert (q + 1) * Pow2(e.bits) == q * Pow2(e.bits) + Pow2(e.bits);
  }

  /**
   The intervals of one symbol's slots are pairwise disjoint; with
   `FseReader.SlotCovers` they partition the states.
   */
  lemma DecodeDisjoint(norm: Norm, k: nat, syms: seq<nat>, dec: seq<FseEntry>, y: nat, p: nat, p': nat)
    requires k >= 5 && Normalised(norm, k) && IsSpread(norm, k, syms)
    requires CountersFit(norm, k, syms) && dec == DecodeTable(norm, k, syms)
    requires p < |dec| && p' < |dec| && dec[p].sym == dec[p'].sym
    requires Covers(dec[p], y) && Covers(dec[p'], y)
    ensures p == p'
  {
    var q, q' := NextState(norm, syms, p), NextState(norm, syms, p');
    var s := syms[p];
    NextStateRange(norm, k, syms, p);
    NextStateRange(norm, k, syms, p');
    EntryBounds(k, s, q, y);
    EntryBounds(k, s, q', y);
    var b, b' := dec[p].bits, dec[p'].bits;
    ScaledOnce(Pow2(k) + y, q, b, q', b');
    ScaledOnce(Pow2(k) + y, q', b', q, b);
    assert q == q';
    OccurrenceUnique(syms, s, p, p');
  }

  // -------------------------------------------------------------- whole streams

  datatype Chunk = Chunk(value: nat, bits: nat)

  datatype Encoded = Encoded(state: nat, chunks: seq<Chunk>)

  function At(tt: seq<SymbolTransform>, s: nat): SymbolTransform { if s < |tt| then tt[s] else SymbolTransform(0, 0) }

  /** Encode a message back to front; the chunk of the first symbol is pushed last. */
  ghost function EncodeStream(states: seq<nat>, tt: seq<SymbolTransform>, msg: seq<nat>): Encoded
    requires |msg| >= 1
  {
    if |msg| == 1 then
      Encoded(InitState(states, At(tt, msg[0])), [])
    else
      var rest := EncodeStream(states, tt, msg[1..]);
      var step := EncodeStep(states, At(tt, msg[0]), rest.state);
      var bits: nat := if step.bits < 0 then 0 else step.bits;
      Encoded(step.state, rest.chunks + [Chunk(rest.state % Pow2(bits), bits)])
  }

  /** Decode n symbols, popping one chunk between two symbols; None if a chunk does not fit. */
  ghost function DecodeStream(dec: seq<FseEntry>, slot: nat, chunks: seq<Chunk>): Option<seq<nat>>
    decreases |chunks|
  {
    if slot >= |dec| then None
    else if chunks == [] then Some([dec[slot].sym])
    else
      var e, c := dec[slot], chunks[|chunks| - 1];
      if c.bits != e.bits then None
      else
        match DecodeStream(dec, e.base + c.value, chunks[..|chunks| - 1])
        case None => None
        case Some(rest) => Some([e.sym] + rest)
  }

  /** The initial state stands on the first slot of its symbol. */
  lemma InitStateSlot(norm: Norm, k: nat, syms: seq<nat>, states: seq<nat>, tt: seq<SymbolTransform>, s: nat)
    requires 5 <= k <= 14 && EncodeTables(norm, k, syms, states, tt) && s < |norm| && norm[s] != 0
    ensures var x := InitState(states, tt[s]);
            Pow2(k) <= x < 2 * Pow2(k) && syms[x - Pow2(k)] == s && Occ(syms, s, x - Pow2(k)) == 0
  {
    hide Pow2, HighBit, InitState, TransformOf, Cum, Walk, IsSpread, Transforms, CountsFit, RanksFit;
    TransformLookup(norm, k, tt, s);
    NormalisedCountsFit(norm, k);
    var p := StateOfRank(norm, k, syms, states, s, 0);
    InitStateIndex(states, k, norm[s], Cum(norm, s));
  }

  lemma InitStateIndex(states: seq<nat>, k: nat, c: int, total: nat)
    requires k <= 14 && (c == -1 || 1 <= c <= Pow2(k)) && total < |states|
    ensures InitState(states, TransformOf(k, c, total)) == states[total]
  {
    InitIndex(k, c, total);
  }

  lemma InitIndex(k: nat, c: int, total: nat)
    requires k <= 14 && (c == -1 || 1 <= c <= Pow2(k))
    ensures var t := TransformOf(k, c, total);
            var nb := (t.deltaNbBits + 0x8000) / 0x10000;
            && nb >= 0
            && (nb * 0x10000 - t.deltaNbBits) / Pow2(nb) + t.deltaFindState == total
  {
    hide Pow2, HighBit;
    TableLimit(k);
    if c == -1 || c == 1 {
      DivModUnique(k * 0x10000 - Pow2(k) + 0x8000, 0x10000, k, 0x8000 - Pow2(k));
      DivModUnique(Pow2(k), Pow2(k), 1, 0);
    } else {
      BelowTable(k, c);
      var h := HighBit(c - 1);
      CountScale(k, c, h);
      var m := c * Pow2(k - h);
      DivModUnique((k - h) * 0x10000 - m + 0x8000, 0x10000, k - h, 0x8000 - m);
      DivModUnique(m, Pow2(k - h), c, 0);
    }
  }

  /** The initial state of a symbol stands on one of its slots. */
  ghost predicate InitOk(k: nat, states: seq<nat>, t: SymbolTransform, dec: seq<FseEntry>, s: nat) {
    var x := InitState(states, t);
    Pow2(k) <= x < 2 * Pow2(k) && |dec| == Pow2(k) && dec[x - Pow2(k)].sym == s
  }

  /** Encoder and decoder tables undo each other on every state and occurring symbol. */
  ghost predicate Inverse(norm: Norm, k: nat, states: seq<nat>, tt: seq<SymbolTransform>, dec: seq<FseEntry>) {
    && |norm| <= |tt|
    && (forall x: nat, s: nat :: Pow2(k) <= x < 2 * Pow2(k) && s < |norm| && norm[s] != 0 ==>
          DualStep(k, states, tt[s], dec, x, s))
    && (forall s: nat :: s < |norm| && norm[s] != 0 ==> InitOk(k, states, tt[s], dec, s))
  }

  lemma InverseHolds(norm: Norm, k: nat, syms: seq<nat>, states: seq<nat>, tt: seq<SymbolTransform>,
                     dec: seq<FseEntry>)
    requires Paired(norm, k, syms, states, tt, dec)
    ensures Inverse(norm, k, states, tt, dec)
  {
    forall x: nat, s: nat | Pow2(k) <= x < 2 * Pow2(k) && s < |norm| && norm[s] != 0
      ensures DualStep(k, states, tt[s], dec, x, s)
    {
      Duality(norm, k, syms, states, tt, dec, x, s);
    }
    forall s: nat | s < |norm| && norm[s] != 0 ensures InitOk(k, states, tt[s], dec, s) {
      InitStateSlot(norm, k, syms, states, tt, s);
    }
  }

  ghost predicate Occurring(norm: Norm, msg: seq<nat>) {
    forall i :: 0 <= i < |msg| ==> msg[i] < |norm| && norm[msg[i]] != 0
  }

  /**
   Whole-stream round trip: for every distribution and every non-empty message
   over its occurring symbols, decoding the final state and the chunks returns
   the message and uses every chunk.
   */
  lemma {:induction false} StreamRoundTrip(norm: Norm, k: nat, states: seq<nat>, tt: seq<SymbolTransform>,
                                           dec: seq<FseEntry>, msg: seq<nat>)
    requires Inverse(norm, k, states, tt, dec) && |msg| >= 1 && Occurring(norm, msg)
    ensures var e := EncodeStream(states, tt, msg);
            && Pow2(k) <= e.state < 2 * Pow2(k) && |e.chunks| == |msg| - 1
            && DecodeStream(dec, e.state - Pow2(k), e.chunks) == Some(msg)
    decreases |msg|
  {
    hide Inverse, DualStep, InitOk, Pow2, EncodeStep, InitState, At, EncodeStream, DecodeStream;
    InverseAt(norm, k, states, tt, dec, msg[0]);
    if |msg| == 1 {
      StreamBase(k, states, tt, dec, msg);
    } else {
      StreamRoundTrip(norm, k, states, tt, dec, msg[1..]);
      StreamStep(k, states, tt, dec, msg);
    }
  }

  lemma InverseAt(norm: Norm, k: nat, states: seq<nat>, tt: seq<SymbolTransform>, dec: seq<FseEntry>, s: nat)
    requires Inverse(norm, k, states, tt, dec) && s < |norm| && norm[s] != 0
    ensures InitOk(k, states, At(tt, s), dec, s)
    ensures forall x: nat :: Pow2(k) <= x < 2 * Pow2(k) ==> DualStep(k, states, At(tt, s), dec, x, s)
  {}

  lemma StreamBase(k: nat, states: seq<nat>, tt: seq<SymbolTransform>, dec: seq<FseEntry>, msg: seq<nat>)
    requires |msg| == 1 && InitOk(k, states, At(tt, msg[0]), dec, msg[0])
    ensures var e := EncodeStream(states, tt, msg);
            && Pow2(k) <= e.state < 2 * Pow2(k) && |e.chunks| == 0
            && DecodeStream(dec, e.state - Pow2(k), e.chunks) == Some(msg)
  {
    hide InitState, Pow2;
    assert msg == [msg[0]];
  }

  lemma {:induction false} StreamStep(k: nat, states: seq<nat>, tt: seq<SymbolTransform>, dec: seq<FseEntry>, msg: seq<nat>)
    requires |msg| >= 2
    requires var rest := EncodeStream(states, tt, msg[1..]);
             && rest.state >= Pow2(k)
             && DecodeStream(dec, rest.state - Pow2(k), rest.chunks) == Some(msg[1..])
             && DualStep(k, states, At(tt, msg[0]), dec, rest.state, msg[0])
    ensures var e := EncodeStream(states, tt, msg);
            && Pow2(k) <= e.state < 2 * Pow2(k)
            && |e.chunks| == |EncodeStream(states, tt, msg[1..]).chunks| + 1
            && DecodeStream(dec, e.state - Pow2(k), e.chunks) == Some(msg)
  {
    hide Pow2, EncodeStep, InitState, DecodeStream;
    var rest := EncodeStream(states, tt, msg[1..]);
    var step := EncodeStep(states, At(tt, msg[0]), rest.state);
    var c := Chunk(rest.state % Pow2(step.bits), step.bits);
    assert EncodeStream(states, tt, msg) == Encoded(step.state, rest.chunks + [c]);
    DecodeChunk(dec, step.state - Pow2(k), rest.chunks, c, msg[1..]);
    assert [msg[0]] + msg[1..] == msg;
  }

  lemma {:induction false} DecodeChunk(dec: seq<FseEntry>, slot: nat, chunks: seq<Chunk>, c: Chunk, rest: seq<nat>)
    requires slot < |dec| && c.bits == dec[slot].bits
    requires DecodeStream(dec, dec[slot].base + c.value, chunks) == Some(rest)
    ensures DecodeStream(dec, slot, chunks + [c]) == Some([dec[slot].sym] + rest)
  {
    assert (chunks + [c])[..|chunks|] == chunks;
  }
}
