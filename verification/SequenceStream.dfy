/**
 The entropy stage of a block: three FSE state machines and the sequences'
 extra bits interleaved on one bit stack.
 */
module SequenceStream {
  import opened Arith
  import opened BitStack
  import opened FseNorm
  import opened FseTables
  import opened FseDuality
  import opened SequenceCodes
  import opened Lz77

  /** The tables of one code kind, as the two builders leave them. */
  datatype Coder = Coder(norm: Norm, log: nat, states: seq<nat>, tt: seq<SymbolTransform>, dec: seq<FseEntry>)

  datatype Coders = Coders(ll: Coder, of: Coder, ml: Coder)

  ghost predicate Good(c: Coder) {
    && 5 <= c.log <= 9 && |c.dec| == Pow2(c.log)
    && Inverse(c.norm, c.log, c.states, c.tt, c.dec)
    && forall p :: 0 <= p < |c.dec| ==> InTable(c, c.dec[p])
  }

  /** Whatever bits an entry reads, the next state is a slot of the table. */
  ghost predicate InTable(c: Coder, e: FseEntry) { e.bits <= c.log && e.base + Pow2(e.bits) <= Pow2(c.log) }

  ghost predicate AllGood(t: Coders) { Good(t.ll) && Good(t.of) && Good(t.ml) }

  /** The builders' results are good. */
  lemma BuiltIsGood(norm: Norm, k: nat, syms: seq<nat>, states: seq<nat>, tt: seq<SymbolTransform>, dec: seq<FseEntry>)
    requires Paired(norm, k, syms, states, tt, dec) && k <= 9
    ensures Good(Coder(norm, k, states, tt, dec))
  {
    InverseHolds(norm, k, syms, states, tt, dec);
    forall p: nat | p < |dec| ensures InTable(Coder(norm, k, states, tt, dec), dec[p]) {
      EntryBits(k, syms[p], NextState(norm, syms, p));
    }
  }

  lemma EntryBits(k: nat, s: nat, x: nat)
    requires 1 <= x < 2 * Pow2(k)
    ensures EntryOf(k, s, x).bits <= k && EntryOf(k, s, x).base + Pow2(EntryOf(k, s, x).bits) <= Pow2(k)
  {
    HighBitBound(k, x);
    ScaledRange(k, x);
  }

  // ------------------------------------------------------------- codes

  function Ll(s: Sequence): nat { LlCode(s.litLen) }

  function Ml(s: Sequence): nat { if s.matchLen >= MIN_MATCH then MlCode(s.matchLen - MIN_MATCH) else 0 }

  function Of(s: Sequence): nat { if s.offset >= 1 then OfCode(s.offset) else 0 }

  /** Extra bits the encoder packs into one write. */
  function ExtraBits(s: Sequence): nat { Of(s) + MlBits(Ml(s)) + LlBits(Ll(s)) }

  ghost predicate Occurs(c: Coder, code: nat) { code < |c.norm| <= |c.tt| && c.norm[code] != 0 }

  /** The format has codes for the sequence, and the distributions give them slots. */
  ghost predicate Codable(t: Coders, s: Sequence) {
    && s.litLen < 0x20000 && MIN_MATCH <= s.matchLen < 0x20000 + MIN_MATCH && 1 <= s.offset && Of(s) <= 25
    && Occurs(t.ll, Ll(s)) && Occurs(t.ml, Ml(s)) && Occurs(t.of, Of(s))
  }

  // ------------------------------------------------------------- encoding

  datatype Encoder = Encoder(ll: nat, of: nat, ml: nat, bits: Bits)

  /** The last sequence: initial states, extra bits one kind after the other. */
  function EncodeLast(t: Coders, s: Sequence): Encoder
    requires Ll(s) < |t.ll.tt| && Ml(s) < |t.ml.tt| && Of(s) < |t.of.tt| && s.matchLen >= MIN_MATCH
  {
    var b1 := Push(EMPTY, s.litLen, LlBits(Ll(s)));
    var b2 := Push(b1, s.matchLen - MIN_MATCH, MlBits(Ml(s)));
    var b := Push(b2, s.offset, Of(s));
    Encoder(InitState(t.ll.states, t.ll.tt[Ll(s)]), InitState(t.of.states, t.of.tt[Of(s)]),
            InitState(t.ml.states, t.ml.tt[Ml(s)]), b)
  }

  /** Shift hi up by w bits and put lo below it. */
  function Pack(hi: nat, w: nat, lo: nat): nat {
    MulMonotone(0, hi, Pow2(w));
    hi * Pow2(w) + lo
  }

  /** The three extra-bit fields packed into one number, offset on top. */
  function Packed(s: Sequence): nat
    requires s.matchLen >= MIN_MATCH
  {
    var of := s.offset % Pow2(Of(s));
    var ml := (s.matchLen - MIN_MATCH) % Pow2(MlBits(Ml(s)));
    var ll := s.litLen % Pow2(LlBits(Ll(s)));
    Pack(Pack(of, MlBits(Ml(s)), ml), LlBits(Ll(s)), ll)
  }

  /** Bits a transition emits; none when the table is out of range. */
  function Emitted(c: Coder, code: nat, x: nat): nat
    requires code < |c.tt|
  {
    var nb := EncodeStep(c.states, c.tt[code], x).bits;
    if nb < 0 then 0 else nb
  }

  /** The state bits of one step of the three coders. */
  function PushStates(t: Coders, e: Encoder, s: Sequence): Bits
    requires Ll(s) < |t.ll.tt| && Ml(s) < |t.ml.tt| && Of(s) < |t.of.tt| && s.matchLen >= MIN_MATCH
  {
    var b1 := Push(e.bits, e.of, Emitted(t.of, Of(s), e.of));
    var b2 := Push(b1, e.ml, Emitted(t.ml, Ml(s), e.ml));
    Push(b2, e.ll, Emitted(t.ll, Ll(s), e.ll))
  }

  /** Every earlier sequence: state bits, then what the masked write keeps of the packed extra bits. */
  function EncodeNext(t: Coders, e: Encoder, s: Sequence): Encoder
    requires Ll(s) < |t.ll.tt| && Ml(s) < |t.ml.tt| && Of(s) < |t.of.tt| && s.matchLen >= MIN_MATCH
  {
    var b := Push(PushStates(t, e, s), Masked(Packed(s), ExtraBits(s)), ExtraBits(s));
    Encoder(EncodeStep(t.ll.states, t.ll.tt[Ll(s)], e.ll).state,
            EncodeStep(t.of.states, t.of.tt[Of(s)], e.of).state,
            EncodeStep(t.ml.states, t.ml.tt[Ml(s)], e.ml).state, b)
  }

  ghost predicate AllCodable(t: Coders, ss: seq<Sequence>) {
    forall i :: 0 <= i < |ss| ==> Codable(t, ss[i])
  }

  /** Encode back to front. */
  ghost function EncodeStates(t: Coders, ss: seq<Sequence>): Encoder
    requires |ss| >= 1 && AllCodable(t, ss)
  {
    if |ss| == 1 then EncodeLast(t, ss[0]) else EncodeNext(t, EncodeStates(t, ss[1..]), ss[0])
  }

  /** The final states go on top. */
  ghost function EncodeBits(t: Coders, ss: seq<Sequence>): Bits
    requires |ss| >= 1 && AllCodable(t, ss)
  {
    var e := EncodeStates(t, ss);
    Push(Push(Push(e.bits, e.ml, t.ml.log), e.of, t.of.log), e.ll, t.ll.log)
  }

  // ------------------------------------------------------------- decoding

  /** What the decoder makes of codes and extra bits. */
  function Decoded(ll: nat, llExtra: nat, ml: nat, mlExtra: nat, of: nat, ofExtra: nat): Sequence {
    Sequence(LlBase(ll) + llExtra, MlBase(ml) + mlExtra, Pow2(of) + ofExtra)
  }

  /** Sequences decoded and the bits left; too few bits; or a code the format does not have. */
  datatype Decoding = Got(ss: seq<Sequence>, left: Bits) | Short | Wide

  datatype OneDecoded = One(s: Sequence, left: Bits) | OneShort | OneWide

  /** One sequence: the codes of three entries, and their extra bits off the stack. */
  function DecodeOne(el: FseEntry, eo: FseEntry, em: FseEntry, b: Bits): OneDecoded {
    if el.sym > MAX_LL_CODE || em.sym > MAX_ML_CODE || eo.sym > MAX_OF_CODE then OneWide
    else if eo.sym > b.n then OneShort
    else
      var b1 := Pop(b, eo.sym);
      if MlBits(em.sym) > b1.n then OneShort
      else
        var b2 := Pop(b1, MlBits(em.sym));
        if LlBits(el.sym) > b2.n then OneShort
        else
          One(Decoded(el.sym, Top(b2, LlBits(el.sym)), em.sym, Top(b1, MlBits(em.sym)), eo.sym, Taken(b, eo.sym)),
              Pop(b2, LlBits(el.sym)))
  }

  datatype NextSlots = Slots(ll: nat, of: nat, ml: nat, left: Bits) | SlotsShort

  /** The next states, in the order literal length, match length, offset. */
  function DecodeSlots(el: FseEntry, eo: FseEntry, em: FseEntry, b: Bits): NextSlots {
    if el.bits > b.n then SlotsShort
    else
      var b1 := Pop(b, el.bits);
      if em.bits > b1.n then SlotsShort
      else
        var b2 := Pop(b1, em.bits);
        if eo.bits > b2.n then SlotsShort
        else
          Slots(el.base + Top(b, el.bits), eo.base + Top(b2, eo.bits), em.base + Top(b1, em.bits), Pop(b2, eo.bits))
  }

  /** Decode n sequences from three slots and a bit stack. */
  ghost function DecodeLoop(t: Coders, ll: nat, of: nat, ml: nat, b: Bits, n: nat): Decoding
    requires ll < |t.ll.dec| && of < |t.of.dec| && ml < |t.ml.dec| && n >= 1
    decreases n
  {
    var el, eo, em := t.ll.dec[ll], t.of.dec[of], t.ml.dec[ml];
    match DecodeOne(el, eo, em, b)
    case OneShort => Short
    case OneWide => Wide
    case One(s, left) =>
      if n == 1 then Got([s], left)
      else
        match DecodeSlots(el, eo, em, left)
        case SlotsShort => Short
        case Slots(ll', of', ml', left') =>
          if ll' >= |t.ll.dec| || of' >= |t.of.dec| || ml' >= |t.ml.dec| then Wide
          else
            match DecodeLoop(t, ll', of', ml', left', n - 1)
            case Got(rest, end) => Got([s] + rest, end)
            case Short => Short
            case Wide => Wide
  }

  /** The initial states come off first. */
  ghost function DecodeBits(t: Coders, b: Bits, n: nat): Decoding
    requires n >= 1
  {
    if t.ll.log + t.of.log + t.ml.log > b.n then Short
    else
      var b1 := Pop(b, t.ll.log);
      var b2 := Pop(b1, t.of.log);
      var ll, of, ml := Top(b, t.ll.log), Top(b1, t.of.log), Top(b2, t.ml.log);
      if ll >= |t.ll.dec| || of >= |t.of.dec| || ml >= |t.ml.dec| then Wide
      else DecodeLoop(t, ll, of, ml, Pop(b2, t.ml.log), n)
  }

  // ------------------------------------------------------------- one is the inverse of the other

  /** The three fields of a packed number. */
  function LlField(s: Sequence, x: nat): nat { x % Pow2(LlBits(Ll(s))) }

  function MlField(s: Sequence, x: nat): nat {
    DivNonNegative(x, Pow2(LlBits(Ll(s))));
    (x / Pow2(LlBits(Ll(s)))) % Pow2(MlBits(Ml(s)))
  }

  function OfField(s: Sequence, x: nat): nat {
    DivNonNegative(x, Pow2(LlBits(Ll(s))));
    DivNonNegative(x / Pow2(LlBits(Ll(s))), Pow2(MlBits(Ml(s))));
    x / Pow2(LlBits(Ll(s))) / Pow2(MlBits(Ml(s)))
  }

  /** What the decoder makes of s when the packed number x stands in its place. */
  function Unpacked(s: Sequence, x: nat): Sequence {
    Decoded(Ll(s), LlField(s, x), Ml(s), MlField(s, x), Of(s), OfField(s, x))
  }

  /** What the decoder makes of the sequence: the last one is written without a mask. */
  function SeenOne(s: Sequence): Sequence
    requires s.matchLen >= MIN_MATCH
  {
    Unpacked(s, Masked(Packed(s), ExtraBits(s)))
  }

  function Seen(ss: seq<Sequence>): (r: seq<Sequence>)
    requires Matches(ss)
    ensures |r| == |ss|
  {
    if |ss| <= 1 then ss else [SeenOne(ss[0])] + Seen(ss[1..])
  }

  /** The packed number survives its write. */
  ghost predicate Packable(s: Sequence)
    requires s.matchLen >= MIN_MATCH
  {
    ExtraBits(s) <= 31 || Packed(s) < Pow2(ExtraBits(s) - 32)
  }

  ghost predicate AllPackable(ss: seq<Sequence>)
    requires Matches(ss)
  {
    forall i :: 0 <= i < |ss| - 1 ==> Packable(ss[i])
  }

  /** A number is its three fields packed again. */
  lemma FieldsPack(x: nat, i: nat, j: nat, k: nat)
    requires x < Pow2(i + j + k)
    ensures var lo, mid, hi := x % Pow2(k), (x / Pow2(k)) % Pow2(j), x / Pow2(k) / Pow2(j);
            0 <= hi < Pow2(i) && 0 <= mid && Pack(Pack(hi, j, mid), k, lo) == x
  {
    hide Pow2;
    var q := x / Pow2(k);
    DivParts(x, Pow2(k));
    DivNonNegative(x, Pow2(k));
    DivParts(q, Pow2(j));
    Pow2Add(i + j, k);
    DivBelow(x, Pow2(k), Pow2(i + j));
    Pow2Add(i, j);
    DivBelow(q, Pow2(j), Pow2(i));
  }

  /** Pushing a number is pushing its fields. */
  lemma FieldsPush(b: Bits, s: Sequence, x: nat)
    requires x < Pow2(ExtraBits(s))
    ensures OfField(s, x) < Pow2(Of(s))
    ensures Push(b, x, ExtraBits(s)) == Extras(b, s, x)
  {
    hide Pow2, Push, Pack, LlBits, MlBits, Ll, Ml, Of;
    var i, j, k := Of(s), MlBits(Ml(s)), LlBits(Ll(s));
    FieldsPack(x, i, j, k);
    var lo, mid, hi := LlField(s, x), MlField(s, x), OfField(s, x);
    PackThree(b, hi, i, mid, j, lo, k);
    DivModUnique(hi, Pow2(i), 0, hi);
    DivModUnique(mid, Pow2(j), 0, mid);
    DivModUnique(lo, Pow2(k), 0, lo);
  }

  lemma PackThree(b: Bits, x: nat, i: nat, y: nat, j: nat, z: nat, k: nat)
    ensures Push(b, Pack(Pack(x % Pow2(i), j, y % Pow2(j)), k, z % Pow2(k)), i + j + k)
         == Push(Push(Push(b, z, k), y, j), x, i)
  {
    hide Pow2, Push, Pack;
    var two := Pack(x % Pow2(i), j, y % Pow2(j));
    PackTwo(Push(b, z, k), x, i, y, j);
    PackTwo(b, two, i + j, z, k);
    PackRange(x, i, y, j);
    DivModUnique(two, Pow2(i + j), 0, two);
  }

  lemma PackRange(x: nat, i: nat, y: nat, j: nat)
    ensures Pack(x % Pow2(i), j, y % Pow2(j)) < Pow2(i + j)
  {
    hide Pow2;
    Pow2Add(i, j);
    MulMonotone(x % Pow2(i) + 1, Pow2(i), Pow2(j));
    MulDistributes(x % Pow2(i), 1, Pow2(j));
  }

  lemma ScalePack(hi: nat, j: nat, lo: nat, n: nat)
    ensures Pack(hi, j, lo) * Pow2(n) == lo * Pow2(n) + hi * Pow2(n + j)
  {
    hide Pow2;
    Pow2Add(j, n);
    MulDistributes(hi * Pow2(j), lo, Pow2(n));
    MulAssoc(hi, Pow2(j), Pow2(n));
  }

  lemma PackTwo(b: Bits, x: nat, i: nat, y: nat, j: nat)
    ensures Push(b, Pack(x % Pow2(i), j, y % Pow2(j)), i + j) == Push(Push(b, y, j), x, i)
  {
    hide Pow2, Pack;
    var hi, lo := x % Pow2(i), y % Pow2(j);
    var packed := Pack(hi, j, lo);
    assert packed % Pow2(i + j) == packed by {
      PackRange(x, i, y, j);
      DivModUnique(packed, Pow2(i + j), 0, packed);
    }
    ScalePack(hi, j, lo, b.n);
  }

  /** The fields of a packed number, pushed one kind after the other. */
  function Extras(b: Bits, s: Sequence, x: nat): Bits {
    Push(Push(Push(b, LlField(s, x), LlBits(Ll(s))), MlField(s, x), MlBits(Ml(s))), OfField(s, x), Of(s))
  }

  /** The packed number of a sequence has the sequence's own fields. */
  lemma PackedFields(s: Sequence)
    requires s.matchLen >= MIN_MATCH
    ensures Packed(s) < Pow2(ExtraBits(s))
    ensures LlField(s, Packed(s)) == s.litLen % Pow2(LlBits(Ll(s)))
    ensures MlField(s, Packed(s)) == (s.matchLen - MIN_MATCH) % Pow2(MlBits(Ml(s)))
    ensures OfField(s, Packed(s)) == s.offset % Pow2(Of(s))
  {
    hide Pow2, LlBits, MlBits, Ll, Ml, Of;
    var i, j, k := Of(s), MlBits(Ml(s)), LlBits(Ll(s));
    PackedParts(s.offset % Pow2(i), i, (s.matchLen - MIN_MATCH) % Pow2(j), j, s.litLen % Pow2(k), k);
  }

  lemma PackedParts(hi: nat, i: nat, mid: nat, j: nat, lo: nat, k: nat)
    requires hi < Pow2(i) && mid < Pow2(j) && lo < Pow2(k)
    ensures var x := Pack(Pack(hi, j, mid), k, lo);
            x < Pow2(i + j + k) && x % Pow2(k) == lo && (x / Pow2(k)) % Pow2(j) == mid && x / Pow2(k) / Pow2(j) == hi
  {
    hide Pow2;
    var two := Pack(hi, j, mid);
    DivModUnique(hi, Pow2(i), 0, hi);
    DivModUnique(mid, Pow2(j), 0, mid);
    PackRange(hi, i, mid, j);
    DivModUnique(two, Pow2(i + j), 0, two);
    DivModUnique(lo, Pow2(k), 0, lo);
    PackRange(two, i + j, lo, k);
    DivModUnique(Pack(two, k, lo), Pow2(k), two, lo);
    DivModUnique(two, Pow2(j), hi, mid);
  }

  /** Only the sequence's own packed number unpacks to the sequence. */
  lemma UnpackedExact(s: Sequence, x: nat)
    requires s.matchLen >= MIN_MATCH && s.offset >= 1 && x < Pow2(ExtraBits(s))
    ensures Unpacked(s, x) == s <==> x == Packed(s)
  {
    DecodedIs(s);
    hide Pow2, LlBits, MlBits, Ll, Ml, Of, Packed, LlField, MlField, OfField, LlBase, MlBase;
    PackedFields(s);
    if Unpacked(s, x) == s { SameFields(s, x, Packed(s)); }
  }

  lemma SameFields(s: Sequence, x: nat, y: nat)
    requires x < Pow2(ExtraBits(s)) && y < Pow2(ExtraBits(s))
    requires LlField(s, x) == LlField(s, y) && MlField(s, x) == MlField(s, y) && OfField(s, x) == OfField(s, y)
    ensures x == y
  {
    hide Pow2, LlBits, MlBits, Ll, Ml, Of, Pack;
    FieldsPack(x, Of(s), MlBits(Ml(s)), LlBits(Ll(s)));
    FieldsPack(y, Of(s), MlBits(Ml(s)), LlBits(Ll(s)));
  }

  lemma MaskedBelow(x: nat, n: nat)
    ensures Masked(x, n) < Pow2(n)
  {
    hide Pow2;
    Pow2Monotone(n % 32, n);
  }

  /** A sequence is seen as it is if and only if its packed number survives. */
  lemma SeenOneExact(s: Sequence)
    requires s.matchLen >= MIN_MATCH && s.offset >= 1 && ExtraBits(s) <= 63
    ensures SeenOne(s) == s <==> Packable(s)
  {
    hide Pow2, Masked, Packed, ExtraBits, Unpacked, LlField, MlField, OfField, Ll, Ml, Of, LlBits, MlBits;
    PackedFields(s);
    MaskedBelow(Packed(s), ExtraBits(s));
    UnpackedExact(s, Masked(Packed(s), ExtraBits(s)));
    MaskedExact(Packed(s), ExtraBits(s));
  }

  lemma DecodedIs(s: Sequence)
    requires s.matchLen >= MIN_MATCH && s.offset >= 1
    ensures Decoded(Ll(s), s.litLen % Pow2(LlBits(Ll(s))),
                    Ml(s), (s.matchLen - MIN_MATCH) % Pow2(MlBits(Ml(s))),
                    Of(s), s.offset % Pow2(Of(s))) == s
  {
    LlRoundTrip(s.litLen);
    MlRoundTrip(s.matchLen - MIN_MATCH);
    assert Pow2(Of(s) + 1) == 2 * Pow2(Of(s));
    LowBits(s.offset, Of(s));
  }

  /** Extra bits come back as the fields they were pushed for. */
  lemma OneRoundTrip(el: FseEntry, eo: FseEntry, em: FseEntry, b: Bits, s: Sequence, x: nat)
    requires WellFormed(b) && x < Pow2(ExtraBits(s))
    requires el.sym == Ll(s) <= MAX_LL_CODE && em.sym == Ml(s) <= MAX_ML_CODE && eo.sym == Of(s) <= 25
    ensures WellFormed(Push(b, x, ExtraBits(s)))
    ensures DecodeOne(el, eo, em, Push(b, x, ExtraBits(s))) == One(Unpacked(s, x), b)
  {
    var lo, mid, hi := LlField(s, x), MlField(s, x), OfField(s, x);
    var k, j, i := LlBits(Ll(s)), MlBits(Ml(s)), Of(s);
    FieldsPush(b, s, x);
    FieldSizes(s, x);
    hide Pow2, Push, Pop, Top, WellFormed, LlBits, MlBits, Ll, Ml, Of, Decoded, LlField, MlField, OfField, Taken;
    var b1 := Push(b, lo, k);
    var b2 := Push(b1, mid, j);
    var b3 := Push(b2, hi, i);
    PushLength(b, lo, k);
    PushLength(b1, mid, j);
    PushLength(b2, hi, i);
    PushWellFormed(b, lo, k);
    PushWellFormed(b1, mid, j);
    PushWellFormed(b2, hi, i);
    PopPush(b, lo, k);
    PopPush(b1, mid, j);
    PopPush(b2, hi, i);
    TakenNarrow(b3, i);
  }

  lemma FieldSizes(s: Sequence, x: nat)
    requires x < Pow2(ExtraBits(s))
    ensures LlField(s, x) % Pow2(LlBits(Ll(s))) == LlField(s, x)
    ensures MlField(s, x) % Pow2(MlBits(Ml(s))) == MlField(s, x)
    ensures OfField(s, x) % Pow2(Of(s)) == OfField(s, x)
  {
    hide Pow2, LlBits, MlBits, Ll, Ml, Of, Pack;
    FieldsPack(x, Of(s), MlBits(Ml(s)), LlBits(Ll(s)));
    DivModUnique(LlField(s, x), Pow2(LlBits(Ll(s))), 0, LlField(s, x));
    DivModUnique(MlField(s, x), Pow2(MlBits(Ml(s))), 0, MlField(s, x));
    DivModUnique(OfField(s, x), Pow2(Of(s)), 0, OfField(s, x));
  }

  /** State bits come back as the three states they were pushed for. */
  lemma SlotsRoundTrip(el: FseEntry, eo: FseEntry, em: FseEntry, e: Encoder, tl: nat, to: nat, tm: nat)
    requires WellFormed(e.bits)
    requires el.base + e.ll % Pow2(el.bits) == e.ll - tl
    requires eo.base + e.of % Pow2(eo.bits) == e.of - to
    requires em.base + e.ml % Pow2(em.bits) == e.ml - tm
    ensures var p := StateBits(e, el.bits, eo.bits, em.bits);
            WellFormed(p) && e.ll >= tl && e.of >= to && e.ml >= tm
            && DecodeSlots(el, eo, em, p) == Slots(e.ll - tl, e.of - to, e.ml - tm, e.bits)
  {
    var b, ll, of, ml := e.bits, e.ll, e.of, e.ml;
    var b1 := Push(b, of, eo.bits);
    var b2 := Push(b1, ml, em.bits);
    var b3 := Push(b2, ll, el.bits);
    assert b1.n == b.n + eo.bits && b2.n == b1.n + em.bits && b3.n == b2.n + el.bits;
    hide Pow2, Push, Pop, Top, WellFormed;
    PushWellFormed(b, of, eo.bits);
    PushWellFormed(b1, ml, em.bits);
    PushWellFormed(b2, ll, el.bits);
    PopPush(b, of, eo.bits);
    PopPush(b1, ml, em.bits);
    PopPush(b2, ll, el.bits);
  }

  /** State x of a coder stands on a slot of the code. */
  ghost predicate OnSlot(c: Coder, x: nat, code: nat) {
    Pow2(c.log) <= x < 2 * Pow2(c.log) && |c.dec| == Pow2(c.log) && c.dec[x - Pow2(c.log)].sym == code
  }

  lemma CoderInit(c: Coder, code: nat)
    requires Good(c) && Occurs(c, code)
    ensures OnSlot(c, InitState(c.states, c.tt[code]), code)
  {
    assert InitOk(c.log, c.states, c.tt[code], c.dec, code);
  }

  lemma CoderStep(c: Coder, code: nat, x: nat)
    requires Good(c) && Occurs(c, code) && Pow2(c.log) <= x < 2 * Pow2(c.log)
    ensures var x' := EncodeStep(c.states, c.tt[code], x).state;
            && OnSlot(c, x', code)
            && var e := c.dec[x' - Pow2(c.log)];
            && e.bits == Emitted(c, code, x) && e.base + x % Pow2(e.bits) == x - Pow2(c.log)
  {
    assert DualStep(c.log, c.states, c.tt[code], c.dec, x, code);
  }

  /** The encoder stands on slots of the next sequence's codes. */
  ghost predicate Facing(t: Coders, e: Encoder, s: Sequence) {
    OnSlot(t.ll, e.ll, Ll(s)) && OnSlot(t.of, e.of, Of(s)) && OnSlot(t.ml, e.ml, Ml(s)) && WellFormed(e.bits)
  }

  ghost function DecodeFrom(t: Coders, e: Encoder, s: Sequence, n: nat): Decoding
    requires Facing(t, e, s) && n >= 1
  {
    DecodeLoop(t, e.ll - Pow2(t.ll.log), e.of - Pow2(t.of.log), e.ml - Pow2(t.ml.log), e.bits, n)
  }

  lemma EntryCodes(t: Coders, s: Sequence)
    requires Codable(t, s)
    ensures Ll(s) <= MAX_LL_CODE && Ml(s) <= MAX_ML_CODE && Of(s) <= 25
  {
    LlRoundTrip(s.litLen);
    MlRoundTrip(s.matchLen - MIN_MATCH);
  }

  /** The last sequence's extra bits are its packed number, unmasked. */
  lemma LastBits(t: Coders, s: Sequence)
    requires Codable(t, s)
    ensures EncodeLast(t, s).bits == Push(EMPTY, Packed(s), ExtraBits(s)) && WellFormed(EMPTY)
  {
    assert WellFormed(EMPTY);
    hide Pow2, Push, LlBits, MlBits, Ll, Ml, Of, Packed, InitState;
    PackedPush(EMPTY, s);
  }

  lemma PackedPush(b: Bits, s: Sequence)
    requires s.matchLen >= MIN_MATCH
    ensures Push(b, Packed(s), ExtraBits(s)) ==
            Push(Push(Push(b, s.litLen, LlBits(Ll(s))), s.matchLen - MIN_MATCH, MlBits(Ml(s))), s.offset, Of(s))
  {
    hide Pow2, Push, Pack, LlBits, MlBits, Ll, Ml, Of;
    PackThree(b, s.offset, Of(s), s.matchLen - MIN_MATCH, MlBits(Ml(s)), s.litLen, LlBits(Ll(s)));
  }

  /** The state bits of one transition, under the extra bits. */
  function StateBits(e: Encoder, el: nat, eo: nat, em: nat): Bits {
    Push(Push(Push(e.bits, e.of, eo), e.ml, em), e.ll, el)
  }

  lemma LastRoundTrip(t: Coders, s: Sequence)
    requires AllGood(t) && Codable(t, s)
    ensures var e := EncodeLast(t, s); Facing(t, e, s) && DecodeFrom(t, e, s, 1) == Got([s], EMPTY)
  {
    hide Good, Push, DecodeOne, Ll, Ml, Of, LlBits, MlBits, Pow2, InitState, WellFormed, Packed, ExtraBits, Unpacked;
    var e := EncodeLast(t, s);
    CoderInit(t.ll, Ll(s));
    CoderInit(t.of, Of(s));
    CoderInit(t.ml, Ml(s));
    EntryCodes(t, s);
    LastBits(t, s);
    PackedFields(s);
    UnpackedExact(s, Packed(s));
    OneRoundTrip(t.ll.dec[e.ll - Pow2(t.ll.log)], t.of.dec[e.of - Pow2(t.of.log)], t.ml.dec[e.ml - Pow2(t.ml.log)],
                 EMPTY, s, Packed(s));
  }

  lemma NextRoundTrip(t: Coders, e: Encoder, s: Sequence, next: Sequence, n: nat)
    requires AllGood(t) && Codable(t, s) && Facing(t, e, next) && n >= 1
    ensures var e' := EncodeNext(t, e, s);
            && Facing(t, e', s)
            && DecodeFrom(t, e', s, n + 1) ==
               (match DecodeFrom(t, e, next, n)
                case Got(rest, end) => Got([SeenOne(s)] + rest, end)
                case Short => Short
                case Wide => Wide)
  {
    hide Good, Push, Packed, StateBits, DecodeOne, DecodeSlots, Ll, Ml, Of, LlBits, MlBits, Pow2, EncodeStep,
      WellFormed, Emitted, ExtraBits, Masked, Unpacked;
    var e' := EncodeNext(t, e, s);
    CoderStep(t.ll, Ll(s), e.ll);
    CoderStep(t.of, Of(s), e.of);
    CoderStep(t.ml, Ml(s), e.ml);
    EntryCodes(t, s);
    var el, eo, em := t.ll.dec[e'.ll - Pow2(t.ll.log)], t.of.dec[e'.of - Pow2(t.of.log)], t.ml.dec[e'.ml - Pow2(t.ml.log)];
    var b, x := StateBits(e, el.bits, eo.bits, em.bits), Masked(Packed(s), ExtraBits(s));
    NextBits(t, e, s);
    SlotsRoundTrip(el, eo, em, e, Pow2(t.ll.log), Pow2(t.of.log), Pow2(t.ml.log));
    MaskedBelow(Packed(s), ExtraBits(s));
    OneRoundTrip(el, eo, em, b, s, x);
  }

  lemma NextBits(t: Coders, e: Encoder, s: Sequence)
    requires Codable(t, s)
    ensures EncodeNext(t, e, s).bits == Push(
              StateBits(e, Emitted(t.ll, Ll(s), e.ll), Emitted(t.of, Of(s), e.of), Emitted(t.ml, Ml(s), e.ml)),
              Masked(Packed(s), ExtraBits(s)), ExtraBits(s))
  {
    hide Pow2, Packed, EncodeStep, Push, LlBits, MlBits, Ll, Ml, Of, ExtraBits, Masked;
  }

  lemma CodableLength(t: Coders, ss: seq<Sequence>)
    requires AllCodable(t, ss)
    ensures Matches(ss)
  {}

  /**
   The interleaved states and extra bits decode to the sequences as they are seen
   through the masked writes, and no bit is left.
   */
  lemma {:induction false} StatesRoundTrip(t: Coders, ss: seq<Sequence>)
    requires AllGood(t) && |ss| >= 1 && AllCodable(t, ss)
    ensures Matches(ss)
    ensures var e := EncodeStates(t, ss);
            Facing(t, e, ss[0]) && DecodeFrom(t, e, ss[0], |ss|) == Got(Seen(ss), EMPTY)
    decreases |ss|
  {
    hide AllGood, Facing, DecodeFrom, EncodeNext, EncodeLast, Codable, SeenOne, AllCodable, EncodeStates, Seen;
    StatesUnfold(t, ss);
    if |ss| == 1 {
      LastRoundTrip(t, ss[0]);
      assert ss == [ss[0]];
    } else {
      var rest := ss[1..];
      StatesRoundTrip(t, rest);
      NextRoundTrip(t, EncodeStates(t, rest), ss[0], rest[0], |rest|);
    }
  }

  lemma {:induction false} StatesUnfold(t: Coders, ss: seq<Sequence>)
    requires |ss| >= 1 && AllCodable(t, ss)
    ensures Matches(ss) && Matches(ss[1..]) && Codable(t, ss[0]) && AllCodable(t, ss[1..])
    ensures ss[0].matchLen >= MIN_MATCH
    ensures |ss| == 1 ==> EncodeStates(t, ss) == EncodeLast(t, ss[0]) && Seen(ss) == ss
    ensures |ss| > 1 ==> EncodeStates(t, ss) == EncodeNext(t, EncodeStates(t, ss[1..]), ss[0])
    ensures |ss| > 1 ==> Seen(ss) == [SeenOne(ss[0])] + Seen(ss[1..])
  {
    CodableLength(t, ss);
    hide EncodeNext, EncodeLast, Codable, SeenOne;
  }

  /** What the written stream decodes to, for all distributions and all codable sequences. */
  lemma BitsRoundTrip(t: Coders, ss: seq<Sequence>)
    requires AllGood(t) && |ss| >= 1 && AllCodable(t, ss)
    ensures Matches(ss)
    ensures WellFormed(EncodeBits(t, ss)) && DecodeBits(t, EncodeBits(t, ss), |ss|) == Got(Seen(ss), EMPTY)
  {
    hide Good, Pow2, Push, Pop, Top, WellFormed, EncodeStates, DecodeLoop, Codable, Ll, Ml, Of, Seen;
    StatesRoundTrip(t, ss);
    StartRoundTrip(t, EncodeStates(t, ss), ss[0], |ss|);
  }

  lemma {:induction false} SeenExact(t: Coders, ss: seq<Sequence>)
    requires AllCodable(t, ss) && Matches(ss)
    ensures Seen(ss) == ss <==> AllPackable(ss)
  {
    hide Packable, SeenOne, ExtraBits, Codable, AllCodable, Matches, AllPackable, Seen;
    if |ss| <= 1 {
      OneIsSeen(ss);
    } else {
      StatesUnfold(t, ss);
      CodableExtra(t, ss[0]);
      SeenOneExact(ss[0]);
      SeenExact(t, ss[1..]);
      PackableStep(ss);
      ConsEqual(ss, SeenOne(ss[0]), Seen(ss[1..]));
    }
  }

  lemma OneIsSeen(ss: seq<Sequence>)
    requires |ss| <= 1 && Matches(ss)
    ensures Seen(ss) == ss && AllPackable(ss)
  {}

  lemma ConsEqual(ss: seq<Sequence>, s: Sequence, rest: seq<Sequence>)
    requires |ss| >= 1
    ensures [s] + rest == ss <==> s == ss[0] && rest == ss[1..]
  {
    assert ss == [ss[0]] + ss[1..];
    if [s] + rest == ss { assert ([s] + rest)[0] == s && ([s] + rest)[1..] == rest; }
  }

  lemma PackableStep(ss: seq<Sequence>)
    requires |ss| > 1 && Matches(ss)
    ensures Matches(ss[1..])
    ensures AllPackable(ss) <==> Packable(ss[0]) && AllPackable(ss[1..])
  {
    hide Packable;
    if Packable(ss[0]) && AllPackable(ss[1..]) {
      forall i | 0 <= i < |ss| - 1 ensures Packable(ss[i]) {
        if i > 0 { assert Packable(ss[1..][i - 1]); }
      }
    }
    if AllPackable(ss) {
      forall i | 0 <= i < |ss[1..]| - 1 ensures Packable(ss[1..][i]) { assert Packable(ss[i + 1]); }
    }
  }

  lemma CodableExtra(t: Coders, s: Sequence)
    requires Codable(t, s)
    ensures ExtraBits(s) <= 57 && s.offset >= 1
  {
    EntryCodes(t, s);
  }

  /**
   Entropy stage round trip, exactly: the stream decodes to the sequences if and
   only if every packed number but the last survives its masked write.
   */
  lemma BitsExact(t: Coders, ss: seq<Sequence>)
    requires AllGood(t) && |ss| >= 1 && AllCodable(t, ss)
    ensures Matches(ss)
    ensures DecodeBits(t, EncodeBits(t, ss), |ss|) == Got(ss, EMPTY) <==> AllPackable(ss)
  {
    hide AllGood, AllCodable, EncodeBits, DecodeBits, AllPackable, Seen;
    BitsRoundTrip(t, ss);
    SeenExact(t, ss);
  }

  /**
   A sequence that does not survive: 65536 literals, a match of 32774 bytes and
   offset value 65536 need 47 extra bits, and the match comes back as 32771.
   */
  lemma LostSequence()
    ensures var s := Sequence(65536, 32774, 65536);
            ExtraBits(s) == 47 && !Packable(s) && SeenOne(s) == Sequence(65536, 32771, 65536)
  {
    LostCodes();
    hide Pow2, HighBit, LlCode, MlCode, OfCode;
    LostPowers();
  }

  lemma LostCodes()
    ensures LlCode(65536) == 35 && MlCode(32771) == 51 && OfCode(65536) == 16
  {
    LostPowers();
    hide Pow2, HighBit;
    HighBitUnique(65536, 16);
    HighBitUnique(32771, 15);
  }

  lemma LostPowers()
    ensures Pow2(15) == 0x8000 && Pow2(16) == 0x1_0000 && Pow2(17) == 0x2_0000 && Pow2(32) == 0x1_0000_0000
  {
    Pow2Add(8, 8);
    Pow2Of32();
  }

  lemma StartRoundTrip(t: Coders, e: Encoder, s: Sequence, n: nat)
    requires Facing(t, e, s) && n >= 1
    ensures var b := Push(Push(Push(e.bits, e.ml, t.ml.log), e.of, t.of.log), e.ll, t.ll.log);
            WellFormed(b) && DecodeBits(t, b, n) == DecodeFrom(t, e, s, n)
  {
    var b1 := Push(e.bits, e.ml, t.ml.log);
    var b2 := Push(b1, e.of, t.of.log);
    var b3 := Push(b2, e.ll, t.ll.log);
    assert b1.n == e.bits.n + t.ml.log && b2.n == b1.n + t.of.log && b3.n == b2.n + t.ll.log;
    hide Pow2, Push, Pop, Top, WellFormed, DecodeLoop, Ll, Ml, Of;
    PushWellFormed(e.bits, e.ml, t.ml.log);
    PushWellFormed(b1, e.of, t.of.log);
    PushWellFormed(b2, e.ll, t.ll.log);
    StateField(t.ml, e.ml);
    StateField(t.of, e.of);
    StateField(t.ll, e.ll);
    PopPush(e.bits, e.ml, t.ml.log);
    PopPush(b1, e.of, t.of.log);
    PopPush(b2, e.ll, t.ll.log);
    assert Pop(b3, t.ll.log) == b2 && Pop(b2, t.of.log) == b1 && Pop(b1, t.ml.log) == e.bits;
  }

  /** A state written in its table's width leaves the slot number. */
  lemma StateField(c: Coder, x: nat)
    requires Pow2(c.log) <= x < 2 * Pow2(c.log)
    ensures x % Pow2(c.log) == x - Pow2(c.log)
  {
    LowBits(x, c.log);
  }
}
