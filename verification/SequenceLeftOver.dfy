/**
 Data left over after the sequences: whole bytes in front of the bit stream are
 never reached and never noticed.
 */
module SequenceLeftOver {
  import opened Arith
  import opened ByteStream
  import opened BitStack
  import opened FseTables
  import opened SequenceCodes
  import opened Lz77
  import opened SequenceStream
  import opened SequenceReader

  /** The stack b with u below it. */
  ghost function Over(u: Bits, b: Bits): Bits { Bits(u.value + b.value * Pow2(u.n), u.n + b.n) }

  /** Whole bytes. */
  ghost predicate Whole(u: Bits) { WellFormed(u) && u.n % 8 == 0 }

  lemma OverPops(u: Bits, b: Bits, w: nat)
    requires Whole(u) && w <= b.n
    ensures Top(Over(u, b), w) == Top(b, w) && Pop(Over(u, b), w) == Over(u, Pop(b, w))
    ensures Taken(Over(u, b), w) == Taken(b, w)
  {
    hide Pow2;
    OverTop(u, b, w);
    SamePart(u, b);
    hide Over, Top, Pop;
  }

  lemma OverTop(u: Bits, b: Bits, w: nat)
    requires WellFormed(u) && w <= b.n
    ensures Top(Over(u, b), w) == Top(b, w) && Pop(Over(u, b), w) == Over(u, Pop(b, w))
  {
    hide Pow2;
    SplitTop(u.value, b.value, u.n, b.n - w);
  }

  lemma SamePart(u: Bits, b: Bits)
    requires u.n % 8 == 0
    ensures Over(u, b).n == u.n + b.n && Over(u, b).n % 8 == b.n % 8
  {}

  lemma OverOne(u: Bits, el: FseEntry, eo: FseEntry, em: FseEntry, b: Bits)
    requires Whole(u)
    ensures var one := DecodeOne(el, eo, em, b);
            one.One? ==> DecodeOne(el, eo, em, Over(u, b)) == One(one.s, Over(u, one.left))
  {
    hide Pow2, Pop, Top, Taken, LlBits, MlBits, Decoded, Whole, Over;
    PopLength(b);
    var one := DecodeOne(el, eo, em, b);
    if one.One? {
      var b1 := Pop(b, eo.sym);
      PopLength(b1);
      var b2 := Pop(b1, MlBits(em.sym));
      OverLength(u, b);
      OverLength(u, b1);
      OverLength(u, b2);
      OverPops(u, b, eo.sym);
      OverPops(u, b1, MlBits(em.sym));
      OverPops(u, b2, LlBits(el.sym));
    }
  }

  lemma OverLength(u: Bits, b: Bits)
    ensures Over(u, b).n == u.n + b.n
  {}

  lemma OverSlots(u: Bits, el: FseEntry, eo: FseEntry, em: FseEntry, b: Bits)
    requires Whole(u)
    ensures var s := DecodeSlots(el, eo, em, b);
            s.Slots? ==> DecodeSlots(el, eo, em, Over(u, b)) == Slots(s.ll, s.of, s.ml, Over(u, s.left))
  {
    hide Pow2, Pop, Top, Whole, Over;
    PopLength(b);
    var s := DecodeSlots(el, eo, em, b);
    if s.Slots? {
      var b1 := Pop(b, el.bits);
      PopLength(b1);
      var b2 := Pop(b1, em.bits);
      OverLength(u, b);
      OverLength(u, b1);
      OverLength(u, b2);
      OverPops(u, b, el.bits);
      OverPops(u, b1, em.bits);
      OverPops(u, b2, eo.bits);
    }
  }

  lemma {:induction false} OverLoop(u: Bits, t: Coders, ll: nat, of: nat, ml: nat, b: Bits, n: nat)
    requires Whole(u) && n >= 1 && ll < |t.ll.dec| && of < |t.of.dec| && ml < |t.ml.dec|
    ensures var d := DecodeLoop(t, ll, of, ml, b, n);
            d.Got? ==> DecodeLoop(t, ll, of, ml, Over(u, b), n) == Got(d.ss, Over(u, d.left))
    decreases n
  {
    hide DecodeOne, DecodeSlots, Over, Whole;
    var el, eo, em := t.ll.dec[ll], t.of.dec[of], t.ml.dec[ml];
    OverOne(u, el, eo, em, b);
    var one := DecodeOne(el, eo, em, b);
    if one.One? && n > 1 {
      OverSlots(u, el, eo, em, one.left);
      var slots := DecodeSlots(el, eo, em, one.left);
      if slots.Slots? && slots.ll < |t.ll.dec| && slots.of < |t.of.dec| && slots.ml < |t.ml.dec| {
        OverLoop(u, t, slots.ll, slots.of, slots.ml, slots.left, n - 1);
      }
    }
  }

  lemma OverBits(u: Bits, t: Coders, b: Bits, n: nat)
    requires Whole(u) && n >= 1
    ensures var d := DecodeBits(t, b, n);
            d.Got? ==> DecodeBits(t, Over(u, b), n) == Got(d.ss, Over(u, d.left))
  {
    hide Pow2, Pop, Top, DecodeLoop, Whole, Over;
    PopLength(b);
    OverLength(u, b);
    if t.ll.log + t.of.log + t.ml.log <= b.n {
      var b1 := Pop(b, t.ll.log);
      PopLength(b1);
      var b2 := Pop(b1, t.of.log);
      OverPops(u, b, t.ll.log);
      OverPops(u, b1, t.of.log);
      OverPops(u, b2, t.ml.log);
      var ll, of, ml := Top(b, t.ll.log), Top(b1, t.of.log), Top(b2, t.ml.log);
      if ll < |t.ll.dec| && of < |t.of.dec| && ml < |t.ml.dec| { OverLoop(u, t, ll, of, ml, Pop(b2, t.ml.log), n); }
    }
  }

  /** Bytes in front of a closed stream lie below its stack. */
  lemma OpenedBehind(junk: seq<byte>, bytes: seq<byte>)
    requires LE(bytes) >= 1
    ensures LE(junk + bytes) >= 1
    ensures var u := Bits(LE(junk), 8 * |junk|);
            Whole(u) && Opened(junk + bytes) == Over(u, Opened(bytes))
  {
    hide Pow2, LE, HighBit;
    LEConcat(junk, bytes);
    LEBound(junk);
    TopByte(LE(junk), LE(bytes), 8 * |junk|);
    BelowMarker(LE(bytes));
  }

  lemma BelowMarker(c: nat)
    requires c >= 1
    ensures c % Pow2(HighBit(c)) == c - Pow2(HighBit(c))
  {
    var h := HighBit(c);
    assert Pow2(h + 1) == 2 * Pow2(h);
    LowBits(c, h);
  }

  /**
   Whole bytes put in front of an accepted stream change nothing: the same
   sequences, the same output, and the bytes are what is left.
   */
  lemma LeftOverUnnoticed(t: Coders, junk: seq<byte>, bytes: seq<byte>, n: nat, w: seq<byte>, lits: seq<byte>, recent: Recent)
    requires LE(bytes) >= 1 && n >= 1 && RunStream(t, bytes, n, w, lits, recent).Accepted?
    ensures LE(junk + bytes) >= 1
    ensures RunStream(t, junk + bytes, n, w, lits, recent) == RunStream(t, bytes, n, w, lits, recent)
    ensures var d, d' := DecodeBits(t, Opened(bytes), n), DecodeBits(t, Opened(junk + bytes), n);
            d.Got? && d'.Got? && d'.ss == d.ss && d'.left.n == d.left.n + 8 * |junk|
  {
    hide Pow2, LE, Opened, DecodeBits, ExecAll, Whole;
    OpenedBehind(junk, bytes);
    OverBits(Bits(LE(junk), 8 * |junk|), t, Opened(bytes), n);
  }
}
