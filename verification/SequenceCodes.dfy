/**
 Sequence codes: literal length, match length and offset are each split into a
 code and extra bits by the encoder and put together again by the decoder's
 baseline tables (section 3.1.1.3.2.1.1 of RFC 8878).
 */
module SequenceCodes {
  import opened Arith

  /** `llCodeTable`, row by row. */
  function LlCodeTable(l: nat): nat
    requires l < 64
  {
    if l < 16 then l
    else if l < 24 then 16 + (l - 16) / 2
    else if l < 32 then 20 + (l - 24) / 4
    else if l < 48 then 22 + (l - 32) / 8
    else 24
  }

  /** `mlCodeTable`, row by row. */
  function MlCodeTable(m: nat): nat
    requires m < 128
  {
    if m < 32 then m
    else if m < 40 then 32 + (m - 32) / 2
    else if m < 48 then 36 + (m - 40) / 4
    else if m < 64 then 38 + (m - 48) / 8
    else if m < 96 then 40 + (m - 64) / 16
    else 42
  }

  function LlCode(l: nat): nat { if l <= 63 then LlCodeTable(l) else HighBit(l) + 19 }

  function MlCode(m: nat): nat { if m <= 127 then MlCodeTable(m) else HighBit(m) + 36 }

  function OfCode(v: nat): nat
    requires v >= 1
  {
    HighBit(v)
  }

  /** `llBitsTable`; the offset table is the identity. */
  function LlBits(code: nat): nat {
    if code < 16 then 0 else if code < 20 then 1 else if code < 22 then 2
    else if code < 24 then 3 else if code == 24 then 4 else code - 19
  }

  function MlBits(code: nat): nat {
    if code < 32 then 0 else if code < 36 then 1 else if code < 38 then 2
    else if code < 40 then 3 else if code < 42 then 4 else if code == 42 then 5 else code - 36
  }

  const MAX_LL_CODE := 35
  const MAX_ML_CODE := 52
  const MAX_OF_CODE := 31

  /** The decoder's `literalLengthBase`. */
  function LlBase(code: nat): nat {
    if code < 16 then code
    else if code < 20 then 16 + 2 * (code - 16)
    else if code < 22 then 24 + 4 * (code - 20)
    else if code < 24 then 32 + 8 * (code - 22)
    else if code == 24 then 48
    else Pow2(code - 19)
  }

  /** The decoder's `matchLengthBase`, which includes the minimum match of 3. */
  function MlBase(code: nat): nat {
    if code < 32 then code + 3
    else if code < 36 then 35 + 2 * (code - 32)
    else if code < 38 then 43 + 4 * (code - 36)
    else if code < 40 then 51 + 8 * (code - 38)
    else if code < 42 then 67 + 16 * (code - 40)
    else if code == 42 then 99
    else Pow2(code - 36) + 3
  }

  /** The decoder's offset baseline: large offsets have the bias of 3 taken off. */
  function OfBase(code: nat): nat {
    if code >= 2 then
      assert Pow2(code) >= 4 by { Pow2Monotone(2, code); assert Pow2(2) == 4; }
      Pow2(code) - 3
    else Pow2(code)
  }

  lemma LowBits(x: nat, h: nat)
    requires Pow2(h) <= x < 2 * Pow2(h)
    ensures x == Pow2(h) + x % Pow2(h)
  {
    DivModUnique(x, Pow2(h), 1, x - Pow2(h));
  }

  lemma SmallPowers()
    ensures Pow2(0) == 1 && Pow2(1) == 2 && Pow2(2) == 4 && Pow2(3) == 8 && Pow2(4) == 16
    ensures Pow2(5) == 32 && Pow2(6) == 64 && Pow2(7) == 128
  {
    assert Pow2(4) == 16;
    assert Pow2(6) == 64;
  }

  lemma Pow2Of17()
    ensures Pow2(17) == 0x20000
  {
    Pow2Add(8, 8);
    assert Pow2(8) == 256;
  }

  /** Literal lengths survive the code, exactly as far as the decoder has codes for them. */
  lemma LlRoundTrip(l: nat)
    ensures LlBase(LlCode(l)) + l % Pow2(LlBits(LlCode(l))) == l
    ensures LlCode(l) <= MAX_LL_CODE <==> l < 0x20000
  {
    hide Pow2, HighBit;
    SmallPowers();
    if l > 63 {
      Pow2Of17();
      HighBitBounds(l);
      CodeRange(l, HighBit(l), 6, 17);
      LowBits(l, HighBit(l));
    }
  }

  lemma CodeRange(x: nat, h: nat, lo: nat, hi: nat)
    requires Pow2(h) <= x < Pow2(h + 1) && Pow2(lo) <= x && lo < hi
    ensures h >= lo && (h < hi <==> x < Pow2(hi)) && Pow2(h + 1) == 2 * Pow2(h)
  {
    if h < lo { Pow2Monotone(h + 1, lo); }
    if h < hi { Pow2Monotone(h + 1, hi); } else { Pow2Monotone(hi, h); }
  }

  /** Match lengths (less the minimum) likewise; the decoder adds the minimum back. */
  lemma MlRoundTrip(m: nat)
    ensures MlBase(MlCode(m)) + m % Pow2(MlBits(MlCode(m))) == m + 3
    ensures MlCode(m) <= MAX_ML_CODE <==> m < 0x20000
  {
    hide Pow2, HighBit;
    SmallPowers();
    if m > 127 {
      Pow2Of17();
      HighBitBounds(m);
      CodeRange(m, HighBit(m), 7, 17);
      LowBits(m, HighBit(m));
    }
  }

  lemma HighBitBounds(v: nat)
    requires v >= 1
    ensures Pow2(HighBit(v)) <= v < Pow2(HighBit(v) + 1)
  {}

  lemma OfCodeRange(v: nat)
    requires v >= 1
    ensures OfCode(v) <= MAX_OF_CODE <==> v < 0x1_0000_0000
  {
    hide Pow2, HighBit;
    Pow2Of32();
    HighBitBounds(v);
    if HighBit(v) <= 31 { Pow2Monotone(HighBit(v) + 1, 32); } else { Pow2Monotone(32, HighBit(v)); }
  }

  /** Offset values likewise; codes of two and more extra bits are the ones above 3. */
  lemma OfRoundTrip(v: nat)
    requires v >= 1
    ensures OfBase(OfCode(v)) + v % Pow2(OfCode(v)) == if v > 3 then v - 3 else v
    ensures OfCode(v) > 1 <==> v > 3
    ensures OfCode(v) <= MAX_OF_CODE <==> v < 0x1_0000_0000
  {
    OfCodeRange(v);
    SmallPowers();
    var h := HighBit(v);
    assert Pow2(h + 1) == 2 * Pow2(h);
    LowBits(v, h);
    if h > 1 { Pow2Monotone(2, h); }
  }
}
