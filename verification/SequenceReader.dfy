/** `execSeqs`: decoding sequences from the bit stream and executing them as they come. */
module SequenceReader {
  import opened Arith
  import opened ByteStream
  import opened BitStack
  import opened Window
  import opened MatchCopy
  import opened FseTables
  import opened SequenceCodes
  import opened Lz77
  import opened SequenceStream

  const MAX_BLOCK := 128 * 1024

  /** `make*BaselineFSE` has accepted the tables: their symbols have baselines. */
  ghost predicate Baselined(t: Coders) {
    && (forall p :: 0 <= p < |t.ll.dec| ==> t.ll.dec[p].sym <= MAX_LL_CODE)
    && (forall p :: 0 <= p < |t.of.dec| ==> t.of.dec[p].sym <= MAX_OF_CODE)
    && (forall p :: 0 <= p < |t.ml.dec| ==> t.ml.dec[p].sym <= MAX_ML_CODE)
  }

  /** Extra bits in the order offset, match length, literal length. */
  method ReadOne(rbr: ReverseBitReader, el: FseEntry, eo: FseEntry, em: FseEntry) returns (ok: bool, s: Sequence)
    requires rbr.Valid() && rbr.cnt <= 7 && el.sym <= MAX_LL_CODE && em.sym <= MAX_ML_CODE && eo.sym <= MAX_OF_CODE
    modifies rbr
    ensures rbr.Valid()
    ensures match DecodeOne(el, eo, em, old(rbr.Rest()))
            case One(s', left) => ok && s == s' && rbr.Rest() == left
            case OneShort => !ok
            case OneWide => false
    ensures ok ==> rbr.cnt <= 7
  {
    hide Pow2, Top, Pop, LlBits, MlBits, LlBase, MlBase, Layered, Taken;
    ExtraWidths(el.sym, em.sym);
    s := Sequence(0, 0, 0);
    NarrowTaken();
    var of, ml, ll;
    ok, of := rbr.Val(eo.sym);
    if !ok { return; }
    ok, ml := rbr.Val(MlBits(em.sym));
    if !ok { return; }
    ok, ll := rbr.Val(LlBits(el.sym));
    if !ok { return; }
    s := Decoded(el.sym, ll, em.sym, ml, eo.sym, of);
  }

  lemma NarrowTaken()
    ensures forall b: Bits, w: nat :: w <= b.n && w <= 25 ==> Taken(b, w) == Top(b, w)
  {
    forall b: Bits, w: nat | w <= b.n && w <= 25 ensures Taken(b, w) == Top(b, w) { TakenNarrow(b, w); }
  }

  lemma ExtraWidths(ll: nat, ml: nat)
    requires ll <= MAX_LL_CODE && ml <= MAX_ML_CODE
    ensures LlBits(ll) <= 16 && MlBits(ml) <= 16
  {}

  method ReadSlots(rbr: ReverseBitReader, el: FseEntry, eo: FseEntry, em: FseEntry)
    returns (ok: bool, ll: nat, of: nat, ml: nat)
    requires rbr.Valid() && rbr.cnt <= 7 && el.bits <= 9 && eo.bits <= 9 && em.bits <= 9
    modifies rbr
    ensures rbr.Valid()
    ensures match DecodeSlots(el, eo, em, old(rbr.Rest()))
            case Slots(ll', of', ml', left) => ok && ll == ll' && of == of' && ml == ml' && rbr.Rest() == left
            case SlotsShort => !ok
    ensures ok ==> rbr.cnt <= 7
    ensures ll < el.base + Pow2(el.bits) && of < eo.base + Pow2(eo.bits) && ml < em.base + Pow2(em.bits)
  {
    hide Pow2, Top, Pop, Layered, Taken;
    NarrowTaken();
    ll, of, ml := el.base, eo.base, em.base;
    var add;
    ok, add := rbr.Val(el.bits);
    if !ok { return; }
    ll := el.base + add;
    ok, add := rbr.Val(em.bits);
    if !ok { return; }
    ml := em.base + add;
    ok, add := rbr.Val(eo.bits);
    if !ok { return; }
    of := eo.base + add;
  }

  /** Execute one decoded sequence on the block. */
  method ExecSequence(br: BlockReader, s: Sequence, lits: seq<byte>, recent: Recent)
    returns (ok: bool, lits': seq<byte>, recent': Recent)
    requires br.window.Valid()
    modifies br`buffer
    ensures var r := ExecOne(br.window.Contents(), Running(old(br.buffer), lits, recent), s, MAX_BLOCK);
            && (ok <==> r.Running?)
            && (ok ==> r == Running(br.buffer, lits', recent'))
  {
    lits', recent' := lits, recent;
    if |br.buffer| + |lits| > MAX_BLOCK { return false, lits', recent'; }
    var (offset, next) := DecodeOffset(s.offset, s.litLen, recent);
    recent' := next;
    if s.litLen > |lits| { return false, lits', recent'; }
    ghost var w := br.window.Contents();
    if s.litLen > 0 {
      br.buffer := br.buffer + lits[..s.litLen];
      lits' := lits[s.litLen..];
    }
    assert lits[..0] == [] && lits[0..] == lits;
    assert br.buffer == old(br.buffer) + lits[..s.litLen];
    ok := true;
    if s.matchLen > 0 {
      var outcome := br.CopyFromWindow(offset, s.matchLen);
      ok := outcome == Copied;
      assert ok ==> (w + br.buffer)[|w|..] == br.buffer;
    }
  }

  /** What a run over n sequences has done after i of them. */
  ghost predicate Progress(whole: Decoding, rest: Decoding, i: nat, w: seq<byte>, lits: seq<byte>, recent: Recent,
                           st: Exec) {
    match whole
    case Got(ss, left) => i < |ss| && rest == Got(ss[i..], left) && ExecAll(w, lits, recent, ss[..i], MAX_BLOCK) == st
    case Short => rest == Short
    case Wide => true
  }

  /** One sequence read and executed. */
  lemma ProgressStep(t: Coders, ll: nat, of: nat, ml: nat, b: Bits, n: nat, whole: Decoding, i: nat,
                     w: seq<byte>, lits: seq<byte>, recent: Recent, st: Exec)
    requires ll < |t.ll.dec| && of < |t.of.dec| && ml < |t.ml.dec| && n >= 1
    requires Progress(whole, DecodeLoop(t, ll, of, ml, b, n), i, w, lits, recent, st)
    ensures var el, eo, em := t.ll.dec[ll], t.of.dec[of], t.ml.dec[ml];
            match DecodeOne(el, eo, em, b)
            case OneShort => !whole.Got?
            case OneWide => whole.Wide?
            case One(s, left) =>
              && (whole.Got? ==> i < |whole.ss| && s == whole.ss[i])
              && (whole.Got? ==>
                    ExecAll(w, lits, recent, whole.ss[..i + 1], MAX_BLOCK) == ExecOne(w, st, s, MAX_BLOCK))
              && (n == 1 ==> !whole.Short? && (whole.Got? ==> i + 1 == |whole.ss| && left == whole.left))
              && (n > 1 ==>
                    match DecodeSlots(el, eo, em, left)
                    case SlotsShort => !whole.Got?
                    case Slots(ll', of', ml', left') =>
                      if ll' < |t.ll.dec| && of' < |t.of.dec| && ml' < |t.ml.dec| then
                        Progress(whole, DecodeLoop(t, ll', of', ml', left', n - 1), i + 1, w, lits, recent,
                                 ExecOne(w, st, s, MAX_BLOCK))
                      else whole.Wide?)
  {
    hide DecodeOne, DecodeSlots, ExecOne;
    if whole.Got? {
      assert whole.ss[..i + 1][..i] == whole.ss[..i];
      var rest := DecodeLoop(t, ll, of, ml, b, n);
      assert rest.ss[0] == whole.ss[i];
      if n > 1 { assert whole.ss[i + 1..] == rest.ss[1..]; }
    }
  }

  datatype StreamRun = Accepted(buffer: seq<byte>, recent: Recent) | Refused

  /**
   What a closed stream of n sequences does: it is accepted if and only if it has
   enough bits, the sequences execute and no part of a byte is left over.
   */
  ghost function RunStream(t: Coders, bytes: seq<byte>, n: nat, w: seq<byte>, lits: seq<byte>, recent: Recent): StreamRun
    requires LE(bytes) >= 1 && n >= 1
  {
    var d := DecodeBits(t, Opened(bytes), n);
    if !d.Got? || d.left.n % 8 != 0 then Refused
    else
      match ExecAll(w, lits, recent, d.ss, MAX_BLOCK)
      case Running(buffer, rest, recent') => Accepted(buffer + rest, recent')
      case Failed(_) => Refused
  }

  /** `execSeqs`: what the closed stream does. */
  method ExecSeqs(br: BlockReader, t: Coders, data: seq<byte>, off: nat, litbuf: seq<byte>, recent: Recent, seqCount: nat)
    returns (ok: bool, recent': Recent)
    requires br.window.Valid() && br.buffer == [] && AllGood(t) && Baselined(t)
    requires off < |data| && seqCount >= 1
    modifies br`buffer
    ensures data[|data| - 1] == 0 ==> !ok
    ensures data[|data| - 1] != 0 ==> LE(data[off..]) >= 1
    ensures data[|data| - 1] != 0 ==>
              match RunStream(t, data[off..], seqCount, br.window.Contents(), litbuf, recent)
              case Accepted(buffer, r) => ok && br.buffer == buffer && recent' == r
              case Refused => !ok
  {
    recent' := recent;
    if data[|data| - 1] == 0 { return false, recent'; }
    hide Pow2, LE, Top, Pop, Layered, AllGood, Good, DecodeLoop, DecodeOne, DecodeSlots, DecodeBits, ExecAll, ExecOne, Opened,
      Progress;
    var rbr := new ReverseBitReader(data, |data| - 1, off);
    assert data[off..|data| - 1 + 1] == data[off..];
    ghost var d := DecodeBits(t, Opened(data[off..]), seqCount);
    OpenedWellFormed(data[off..]);
    NeverWide(t, Opened(data[off..]), seqCount);
    var ll, of, ml;
    ok, ll, of, ml := ReadStart(rbr, t, seqCount);
    if !ok { return; }
    NothingYet(d, rbr.Rest(), t, ll, of, ml, seqCount, br.window.Contents(), litbuf, recent);
    var lits;
    ok, lits, recent' := ExecLoop(br, rbr, t, ll, of, ml, litbuf, recent, seqCount, d);
    if !ok { return; }
    br.buffer := br.buffer + lits;
    ok := rbr.cnt == 0;
    PartOfByte(data[off..rbr.off], rbr.bits % Pow2(rbr.cnt), rbr.cnt);
  }

  lemma OpenedWellFormed(bytes: seq<byte>)
    requires LE(bytes) >= 1
    ensures WellFormed(Opened(bytes))
  {
    var h := HighBit(LE(bytes));
    assert Pow2(h + 1) == 2 * Pow2(h);
  }

  lemma PopWellFormed(b: Bits, w: nat)
    requires WellFormed(b) && w <= b.n
    ensures WellFormed(Pop(b, w)) && Top(b, w) < Pow2(w)
  {
    hide Pow2;
    Pow2Add(w, b.n - w);
    DivBelow(b.value, Pow2(b.n - w), Pow2(w));
  }

  lemma OneWellFormed(el: FseEntry, eo: FseEntry, em: FseEntry, b: Bits)
    requires WellFormed(b)
    ensures var one := DecodeOne(el, eo, em, b); one.One? ==> WellFormed(one.left)
  {
    hide Pow2, Pop, Top, WellFormed, Taken, LlBits, MlBits, Decoded;
    PopLength(b);
    var one := DecodeOne(el, eo, em, b);
    if one.One? {
      var b1 := Pop(b, eo.sym);
      var b2 := Pop(b1, MlBits(em.sym));
      PopWellFormed(b, eo.sym);
      PopWellFormed(b1, MlBits(em.sym));
      PopWellFormed(b2, LlBits(el.sym));
    }
  }

  lemma SlotsInTable(t: Coders, el: FseEntry, eo: FseEntry, em: FseEntry, b: Bits)
    requires WellFormed(b) && InTable(t.ll, el) && InTable(t.of, eo) && InTable(t.ml, em)
    ensures var s := DecodeSlots(el, eo, em, b);
            s.Slots? ==> WellFormed(s.left) && s.ll < Pow2(t.ll.log) && s.of < Pow2(t.of.log) && s.ml < Pow2(t.ml.log)
  {
    hide Pow2, Pop, Top, WellFormed;
    var s := DecodeSlots(el, eo, em, b);
    if s.Slots? {
      var b1 := Pop(b, el.bits);
      var b2 := Pop(b1, em.bits);
      PopWellFormed(b, el.bits);
      PopWellFormed(b1, em.bits);
      PopWellFormed(b2, eo.bits);
    }
  }

  lemma {:induction false} LoopNeverWide(t: Coders, ll: nat, of: nat, ml: nat, b: Bits, n: nat)
    requires AllGood(t) && Baselined(t) && WellFormed(b) && n >= 1
    requires ll < |t.ll.dec| && of < |t.of.dec| && ml < |t.ml.dec|
    ensures !DecodeLoop(t, ll, of, ml, b, n).Wide?
    decreases n
  {
    hide Good, Pow2, DecodeSlots, WellFormed, Pop, Top, Taken, LlBits, MlBits, InTable;
    TableFacts(t);
    var el, eo, em := t.ll.dec[ll], t.of.dec[of], t.ml.dec[ml];
    OneWellFormed(el, eo, em, b);
    var one := DecodeOne(el, eo, em, b);
    if one.One? && n > 1 {
      SlotsInTable(t, el, eo, em, one.left);
      var slots := DecodeSlots(el, eo, em, one.left);
      if slots.Slots? { LoopNeverWide(t, slots.ll, slots.of, slots.ml, slots.left, n - 1); }
    }
  }

  /** Accepted tables never meet a code the format does not have. */
  lemma NeverWide(t: Coders, b: Bits, n: nat)
    requires AllGood(t) && Baselined(t) && WellFormed(b) && n >= 1
    ensures !DecodeBits(t, b, n).Wide?
  {
    hide Good, Baselined, Pow2, WellFormed, Pop, Top, DecodeLoop;
    TableFacts(t);
    if t.ll.log + t.of.log + t.ml.log <= b.n {
      PopLength(b);
      var b1 := Pop(b, t.ll.log);
      PopLength(b1);
      var b2 := Pop(b1, t.of.log);
      PopWellFormed(b, t.ll.log);
      PopWellFormed(b1, t.of.log);
      PopWellFormed(b2, t.ml.log);
      LoopNeverWide(t, Top(b, t.ll.log), Top(b1, t.of.log), Top(b2, t.ml.log), Pop(b2, t.ml.log), n);
    }
  }

  /** The initial states, in the order literal length, offset, match length. */
  method ReadStart(rbr: ReverseBitReader, t: Coders, ghost n: nat) returns (ok: bool, ll: nat, of: nat, ml: nat)
    requires rbr.Valid() && rbr.cnt <= 7 && AllGood(t) && n >= 1
    modifies rbr
    ensures rbr.Valid()
    ensures ll < |t.ll.dec| && of < |t.of.dec| && ml < |t.ml.dec|
    ensures ok ==> DecodeBits(t, old(rbr.Rest()), n) == DecodeLoop(t, ll, of, ml, rbr.Rest(), n)
    ensures !ok ==> DecodeBits(t, old(rbr.Rest()), n) == Short
    ensures ok ==> rbr.cnt <= 7
  {
    hide Pow2, LE, Top, Pop, Layered, AllGood, Good, DecodeLoop, Taken;
    TableFacts(t);
    NarrowTaken();
    ll, of, ml := 0, 0, 0;
    PopLength(rbr.Rest());
    var v;
    ok, v := rbr.Val(t.ll.log);
    if !ok { return; }
    ll := v;
    PopLength(rbr.Rest());
    ok, v := rbr.Val(t.of.log);
    if !ok { return; }
    of := v;
    PopLength(rbr.Rest());
    ok, v := rbr.Val(t.ml.log);
    if !ok { return; }
    ml := v;
  }

  lemma PopLength(b: Bits)
    ensures forall w: nat :: w <= b.n ==> Pop(b, w).n == b.n - w
  {}

  lemma TableFacts(t: Coders)
    requires AllGood(t)
    ensures t.ll.log <= 9 && t.of.log <= 9 && t.ml.log <= 9
    ensures |t.ll.dec| == Pow2(t.ll.log) && |t.of.dec| == Pow2(t.of.log) && |t.ml.dec| == Pow2(t.ml.log)
    ensures forall p :: 0 <= p < |t.ll.dec| ==> InTable(t.ll, t.ll.dec[p])
    ensures forall p :: 0 <= p < |t.of.dec| ==> InTable(t.of, t.of.dec[p])
    ensures forall p :: 0 <= p < |t.ml.dec| ==> InTable(t.ml, t.ml.dec[p])
  {}

  lemma {:induction false} GotLength(t: Coders, ll: nat, of: nat, ml: nat, b: Bits, n: nat)
    requires ll < |t.ll.dec| && of < |t.of.dec| && ml < |t.ml.dec| && n >= 1
    ensures var d := DecodeLoop(t, ll, of, ml, b, n); d.Got? ==> |d.ss| == n
    decreases n
  {
    hide DecodeOne, DecodeSlots;
    var el, eo, em := t.ll.dec[ll], t.of.dec[of], t.ml.dec[ml];
    var one := DecodeOne(el, eo, em, b);
    if one.One? && n > 1 {
      var slots := DecodeSlots(el, eo, em, one.left);
      if slots.Slots? && slots.ll < |t.ll.dec| && slots.of < |t.of.dec| && slots.ml < |t.ml.dec| {
        GotLength(t, slots.ll, slots.of, slots.ml, slots.left, n - 1);
      }
    }
  }

  lemma NothingYet(d: Decoding, b: Bits, t: Coders, ll: nat, of: nat, ml: nat, n: nat,
                   w: seq<byte>, lits: seq<byte>, recent: Recent)
    requires ll < |t.ll.dec| && of < |t.of.dec| && ml < |t.ml.dec| && n >= 1
    requires d == DecodeLoop(t, ll, of, ml, b, n)
    ensures Progress(d, d, 0, w, lits, recent, Running([], lits, recent))
    ensures d.Got? ==> |d.ss| == n
  {
    GotLength(t, ll, of, ml, b, n);
    if d.Got? { assert d.ss[0..] == d.ss && d.ss[..0] == []; }
  }

  lemma ProgressWide(rest: Decoding, i: nat, w: seq<byte>, lits: seq<byte>, recent: Recent, st: Exec)
    ensures Progress(Wide, rest, i, w, lits, recent, st)
  {}

  lemma {:induction false} StaysFailed(w: seq<byte>, lits: seq<byte>, recent: Recent, ss: seq<Sequence>, i: nat, n: nat)
    requires i <= n <= |ss| && ExecAll(w, lits, recent, ss[..i], MAX_BLOCK).Failed?
    ensures ExecAll(w, lits, recent, ss[..n], MAX_BLOCK).Failed?
    ensures n == |ss| ==> ExecAll(w, lits, recent, ss, MAX_BLOCK).Failed?
    decreases n
  {
    assert n == |ss| ==> ss[..n] == ss;
    if i < n {
      StaysFailed(w, lits, recent, ss, i, n - 1);
      assert ss[..n][..n - 1] == ss[..n - 1];
    }
  }

  method ExecLoop(br: BlockReader, rbr: ReverseBitReader, t: Coders, ll0: nat, of0: nat, ml0: nat,
                  litbuf: seq<byte>, recent0: Recent, seqCount: nat, ghost d: Decoding)
    returns (ok: bool, lits: seq<byte>, recent: Recent)
    requires br.window.Valid() && br.buffer == [] && AllGood(t) && Baselined(t) && rbr.Valid() && seqCount >= 1
    requires ll0 < |t.ll.dec| && of0 < |t.of.dec| && ml0 < |t.ml.dec|
    requires d == DecodeLoop(t, ll0, of0, ml0, rbr.Rest(), seqCount)
    requires Progress(d, d, 0, br.window.Contents(), litbuf, recent0, Running([], litbuf, recent0))
    requires d.Got? ==> |d.ss| == seqCount
    requires rbr.cnt <= 7
    modifies br`buffer, rbr
    ensures rbr.Valid()
    ensures ok ==> rbr.cnt <= 7
    ensures d.Short? ==> !ok
    ensures d.Got? ==>
              var st := ExecAll(br.window.Contents(), litbuf, recent0, d.ss, MAX_BLOCK);
              && (ok <==> st.Running?)
              && (ok ==> st == Running(br.buffer, lits, recent) && rbr.Rest() == d.left)
  {
    hide Pow2, LE, Top, Pop, Layered, AllGood, Good, DecodeLoop, DecodeOne, DecodeSlots, ExecAll, ExecOne, Progress;
    TableFacts(t);
    ghost var w := br.window.Contents();
    var ll: nat, of: nat, ml: nat := ll0, of0, ml0;
    lits, recent := litbuf, recent0;
    var i: nat := 0;
    while i < seqCount
      invariant rbr.cnt <= 7
      invariant i <= seqCount && rbr.Valid() && br.window.Valid() && br.window.Contents() == w
      invariant ll < |t.ll.dec| && of < |t.of.dec| && ml < |t.ml.dec|
      invariant i < seqCount ==> Progress(d, DecodeLoop(t, ll, of, ml, rbr.Rest(), seqCount - i), i, w, litbuf, recent0,
                                          Running(br.buffer, lits, recent))
      invariant i == seqCount ==> !d.Short? && (d.Got? ==>
        rbr.Rest() == d.left && ExecAll(w, litbuf, recent0, d.ss, MAX_BLOCK) == Running(br.buffer, lits, recent))
    {
      ProgressStep(t, ll, of, ml, rbr.Rest(), seqCount - i, d, i, w, litbuf, recent0, Running(br.buffer, lits, recent));
      var el, eo, em := t.ll.dec[ll], t.of.dec[of], t.ml.dec[ml];
      var s;
      ok, s := ReadOne(rbr, el, eo, em);
      if !ok { return; }
      if i + 1 < seqCount {
        ok, ll, of, ml := ReadSlots(rbr, el, eo, em);
        if !ok { return; }
      }
      ok, lits, recent := ExecSequence(br, s, lits, recent);
      if !ok {
        if d.Got? { StaysFailed(w, litbuf, recent0, d.ss, i + 1, |d.ss|); }
        return;
      }
      i := i + 1;
      if d.Wide? {
        ProgressWide(DecodeLoop(t, ll, of, ml, rbr.Rest(), if i < seqCount then seqCount - i else 1), i, w, litbuf,
                     recent0, Running(br.buffer, lits, recent));
      }
      if d.Got? && i == seqCount { assert d.ss[..i] == d.ss; }
    }
    ok := true;
  }

  // ------------------------------------------------------------- the source's form of an offset

  /** The offset as `execSeqs` computes it: the baseline of its code, then the repeat rules for codes 0 and 1. */
  function SourceOffset(code: nat, extra: nat, lits: nat, r: Recent): (nat, Recent) {
    var offset := OfBase(code) + extra;
    if code > 1 then (offset, Recent(offset, r.r1, r.r2))
    else
      var which := if lits == 0 then offset + 1 else offset;
      if which == 1 then (r.r1, r)
      else if which == 2 then (r.r2, Recent(r.r2, r.r1, r.r3))
      else if which == 3 then (r.r3, Recent(r.r3, r.r1, r.r2))
      else if which == 4 then (Previous(r.r1), Recent(Previous(r.r1), r.r1, r.r2))
      else (which, r)
  }

  /** Testing the code and subtracting three in the table is testing the offset value. */
  lemma OffsetRule(code: nat, extra: nat, lits: nat, r: Recent)
    requires extra < Pow2(code)
    ensures SourceOffset(code, extra, lits, r) == DecodeOffset(Pow2(code) + extra, lits, r)
  {
    if code >= 2 {
      assert Pow2(2) == 4;
      Pow2Monotone(2, code);
    } else {
      assert Pow2(0) == 1 && Pow2(1) == 2;
    }
  }
}
