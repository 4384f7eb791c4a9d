/**
 `readFSE` as a whole: any accepted bytes give a decoding table, and its entries
 partition the states of every symbol.
 */
module FseReader {
  import opened Arith
  import opened Occurrences
  import opened ByteStream
  import opened FseNorm
  import opened FseTables
  import opened FseDuality
  import opened FseHeader

  /** Some slot of every symbol that occurs leads to every state. */
  lemma SlotCovers(norm: Norm, k: nat, syms: seq<nat>, dec: seq<FseEntry>, y: nat, s: nat) returns (p: nat)
    requires 5 <= k <= 14 && Normalised(norm, k) && IsSpread(norm, k, syms)
    requires CountersFit(norm, k, syms) && dec == DecodeTable(norm, k, syms)
    requires y < Pow2(k) && s < |norm| && norm[s] != 0
    ensures p < |dec| && dec[p].sym == s && Covers(dec[p], y)
  {
    hide Pow2, HighBit, TransformOf, Cum, Occ, IsSpread, BitsOut;
    var x := Pow2(k) + y;
    NormalisedCountsFit(norm, k);
    BitsOutFor(k, norm[s], Cum(norm, s), x);
    var nb := BitsOut(TransformOf(k, norm[s], Cum(norm, s)), x);
    var q := x / Pow2(nb);
    SpreadHistogram(norm, k, syms, s);
    p := NthOccurrence(syms, s, |syms|, q - Count(norm[s]));
    EntryInverts(k, s, x, nb, q);
    assert NextState(norm, syms, p) == q;
  }

  /** Slot p of symbol s leads to state y. */
  ghost predicate LeadsTo(dec: seq<FseEntry>, s: nat, y: nat, p: nat) {
    p < |dec| && dec[p].sym == s && Covers(dec[p], y)
  }

  ghost predicate Reached(dec: seq<FseEntry>, s: nat, y: nat) { exists p :: LeadsTo(dec, s, y, p) }

  /** From every symbol that occurs, every state is reached in exactly one way. */
  ghost predicate Partitions(norm: Norm, k: nat, dec: seq<FseEntry>) {
    && |dec| == Pow2(k)
    && (forall s: nat, y: nat :: s < |norm| && norm[s] != 0 && y < Pow2(k) ==> Reached(dec, s, y))
    && forall s: nat, y: nat, p: nat, q: nat :: LeadsTo(dec, s, y, p) && LeadsTo(dec, s, y, q) ==> p == q
  }

  /** The decoding table of a distribution. */
  ghost predicate IsTable(norm: Norm, k: nat, syms: seq<nat>, dec: seq<FseEntry>) {
    && 5 <= k <= 14 && Normalised(norm, k) && IsSpread(norm, k, syms)
    && CountersFit(norm, k, syms) && dec == DecodeTable(norm, k, syms)
  }

  lemma TableReaches(norm: Norm, k: nat, syms: seq<nat>, dec: seq<FseEntry>, s: nat, y: nat)
    requires IsTable(norm, k, syms, dec) && s < |norm| && norm[s] != 0 && y < Pow2(k)
    ensures Reached(dec, s, y)
  {
    hide Pow2, IsSpread, Normalised, CountersFit, Covers;
    var p := SlotCovers(norm, k, syms, dec, y, s);
    assert LeadsTo(dec, s, y, p);
  }

  lemma TableOnce(norm: Norm, k: nat, syms: seq<nat>, dec: seq<FseEntry>, s: nat, y: nat, p: nat, q: nat)
    requires IsTable(norm, k, syms, dec) && LeadsTo(dec, s, y, p) && LeadsTo(dec, s, y, q)
    ensures p == q
  {
    hide Pow2, IsSpread, Normalised, CountersFit, Covers;
    DecodeDisjoint(norm, k, syms, dec, y, p, q);
  }

  lemma TableSize(norm: Norm, k: nat, syms: seq<nat>, dec: seq<FseEntry>)
    requires IsTable(norm, k, syms, dec)
    ensures |dec| == Pow2(k)
  {
    hide Pow2, IsSpread, Normalised;
  }

  lemma TablePartitions(norm: Norm, k: nat, syms: seq<nat>, dec: seq<FseEntry>)
    requires IsTable(norm, k, syms, dec)
    ensures Partitions(norm, k, dec)
  {
    hide Pow2, IsTable, LeadsTo, Reached;
    TableSize(norm, k, syms, dec);
    forall s: nat, y: nat | s < |norm| && norm[s] != 0 && y < Pow2(k) ensures Reached(dec, s, y) {
      TableReaches(norm, k, syms, dec, s, y);
    }
    forall s: nat, y: nat, p: nat, q: nat | LeadsTo(dec, s, y, p) && LeadsTo(dec, s, y, q) ensures p == q {
      TableOnce(norm, k, syms, dec, s, y, p, q);
    }
  }

  /**
   `readFSE`: the header of the format, or its error; whatever bytes are accepted,
   the table can be built and its entries partition the states.
   */
  method ReadTable(data: seq<byte>, off: nat, maxSym: nat, maxBits: nat, table: array<FseEntry>) returns (r: Result<Header>)
    requires off <= |data| && maxSym <= 255 && maxBits <= 14 && table.Length >= Pow2(maxBits)
    modifies table
    ensures r == ParseHeader(data, off, maxSym, maxBits)
    ensures r.Ok? ==> Pow2(r.value.accuracyLog) <= table.Length
    ensures r.Ok? ==> Partitions(r.value.norm, r.value.accuracyLog, table[..Pow2(r.value.accuracyLog)])
  {
    hide Pow2, ParseHeader, IsSpread, Normalised, CountersFit, Partitions;
    r := ReadFse(data, off, maxSym, maxBits);
    if r.Ok? {
      var norm, k := r.value.norm, r.value.accuracyLog;
      HeaderNormalised(data, off, maxSym, maxBits);
      Pow2Monotone(k, maxBits);
      ghost var syms;
      var ok;
      ok, syms := BuildFse(norm, k, table);
      TablePartitions(norm, k, syms, table[..Pow2(k)]);
    }
  }
}
