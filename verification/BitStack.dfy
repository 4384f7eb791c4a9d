/**
 The sequence bit stream: bits are appended at the high end by `BitWriter` and
 taken back from the high end by `ReverseBitReader`.  Both are proved against
 a stack of bits.
 */
module BitStack {
  import opened Arith
  import opened ByteStream

  /** n bits with the value `value`; the most recently pushed bits are the highest. */
  datatype Bits = Bits(value: nat, n: nat)

  const EMPTY := Bits(0, 0)

  ghost predicate WellFormed(b: Bits) { b.value < Pow2(b.n) }

  function Push(b: Bits, v: nat, w: nat): Bits { Bits(b.value + (v % Pow2(w)) * Pow2(b.n), b.n + w) }

  function Top(b: Bits, w: nat): nat
    requires w <= b.n
  {
    DivNonNegative(b.value, Pow2(b.n - w));
    b.value / Pow2(b.n - w)
  }

  function Pop(b: Bits, w: nat): Bits
    requires w <= b.n
  {
    Bits(b.value % Pow2(b.n - w), b.n - w)
  }

  lemma PushWellFormed(b: Bits, v: nat, w: nat)
    requires WellFormed(b)
    ensures WellFormed(Push(b, v, w))
  {
    hide Pow2;
    var x := v % Pow2(w);
    Pow2Add(w, b.n);
    MulMonotone(x + 1, Pow2(w), Pow2(b.n));
    MulDistributes(x, 1, Pow2(b.n));
  }

  /** What was pushed last is popped first, and nothing else changes. */
  lemma PopPush(b: Bits, v: nat, w: nat)
    requires WellFormed(b)
    ensures Top(Push(b, v, w), w) == v % Pow2(w)
    ensures Pop(Push(b, v, w), w) == b
  {
    hide Pow2;
    DivModUnique(b.value + (v % Pow2(w)) * Pow2(b.n), Pow2(b.n), v % Pow2(w), b.value);
  }

  // ------------------------------------------------------------- whole runs

  function PushAll(b: Bits, items: seq<Item>): Bits {
    if items == [] then b
    else
      var n := |items| - 1;
      Push(PushAll(b, items[..n]), items[n].value, items[n].width)
  }

  /** Pop the items' widths from the last to the first; the values popped and what is left. */
  function PopAll(b: Bits, items: seq<Item>): (seq<nat>, Bits)
    decreases |items|
  {
    if items == [] then ([], b)
    else
      var n := |items| - 1;
      var w := items[n].width;
      if w > b.n then ([], b)
      else
        var (rest, left) := PopAll(Pop(b, w), items[..n]);
        ([Top(b, w)] + rest, left)
  }

  /** The values of the items, cut to their widths, last first. */
  function Reversed(items: seq<Item>): seq<nat> {
    if items == [] then []
    else
      var n := |items| - 1;
      [items[n].value % Pow2(items[n].width)] + Reversed(items[..n])
  }

  lemma {:induction false} PushAllWellFormed(b: Bits, items: seq<Item>)
    requires WellFormed(b)
    ensures WellFormed(PushAll(b, items))
  {
    if items != [] {
      var n := |items| - 1;
      PushAllWellFormed(b, items[..n]);
      PushWellFormed(PushAll(b, items[..n]), items[n].value, items[n].width);
    }
  }

  /** Bit-stack duality: every run of pushes is undone by popping the widths in reverse. */
  lemma {:induction false} StackRoundTrip(b: Bits, items: seq<Item>)
    requires WellFormed(b)
    ensures PopAll(PushAll(b, items), items) == (Reversed(items), b)
  {
    if items != [] {
      var n := |items| - 1;
      var below := PushAll(b, items[..n]);
      PushAllWellFormed(b, items[..n]);
      hide Top, Pop, Push;
      PopPush(below, items[n].value, items[n].width);
      StackRoundTrip(b, items[..n]);
      PushLength(below, items[n].value, items[n].width);
    }
  }

  lemma PushLength(b: Bits, v: nat, w: nat)
    ensures Push(b, v, w).n == b.n + w
  {}

  // ------------------------------------------------------------- the writer

  /** Bytes below, container bits above. */
  ghost function Layered(bytes: seq<byte>, container: nat, nBits: nat): Bits {
    Bits(LE(bytes) + container * Pow2(8 * |bytes|), 8 * |bytes| + nBits)
  }

  /** Moving the container's low byte to the byte string changes nothing. */
  lemma SpillByte(bytes: seq<byte>, container: nat, nBits: nat)
    requires nBits >= 8
    ensures container / 256 >= 0
    ensures Layered(bytes + [container % 256], container / 256, nBits - 8) == Layered(bytes, container, nBits)
  {
    hide Pow2, LE;
    var c, rest := container % 256, container / 256;
    LESnoc(bytes, c);
    var u := Pow2(8 * |bytes|);
    assert Pow2(8) == 256 by { PowEight(); }
    Pow2Add(8, 8 * |bytes|);
    MulDistributes(256 * rest, c, u);
    MulAssoc(rest, 256, u);
    assert container == 256 * rest + c;
  }

  lemma PowEight()
    ensures Pow2(8) == 256
  {}

  function LowBytes(x: nat): seq<byte> { [x % 256, x / 256 % 256, x / 0x1_0000 % 256, x / 0x100_0000 % 256] }

  /** Four spilled bytes. */
  lemma SpillFour(bytes: seq<byte>, x: nat, nBits: nat)
    requires nBits >= 32
    ensures x / 0x1_0000_0000 >= 0
    ensures var spilled := bytes + LowBytes(x);
            Layered(spilled, x / 0x1_0000_0000, nBits - 32) == Layered(bytes, x, nBits)
  {
    hide Layered;
    var x1 := x / 256;
    var x2 := x1 / 256;
    var x3 := x2 / 256;
    var b1 := bytes + [x % 256];
    var b2 := b1 + [x1 % 256];
    var b3 := b2 + [x2 % 256];
    SpillByte(bytes, x, nBits);
    SpillByte(b1, x1, nBits - 8);
    SpillByte(b2, x2, nBits - 16);
    SpillByte(b3, x3, nBits - 24);
    assert x2 == x / 0x1_0000 && x3 == x / 0x100_0000 && x3 / 256 == x / 0x1_0000_0000;
    assert b3 + [x3 % 256] == bytes + [x % 256, x1 % 256, x2 % 256, x3 % 256];
  }

  class BitWriter {
    var bitContainer: nat
    var nBits: nat
    var out: seq<byte>
    ghost const base: nat

    /**
     The container holds nBits bits, in a 64-bit word: after a write wider than its
     mask nBits may exceed 64, and the bits beyond the word are zeros.
     */
    ghost predicate Valid()
      reads this
    {
      base <= |out| && nBits <= 127 && bitContainer < Pow2(nBits) && bitContainer < Pow2(64)
    }

    /** Everything written so far, as a stack. */
    ghost function Stack(): Bits
      requires Valid()
      reads this
    {
      Layered(out[base..], bitContainer, nBits)
    }

    /** `reset`: start a stream after the given bytes. */
    constructor (out: seq<byte>)
      ensures Valid() && Stack() == EMPTY && this.out == out && base == |out| && nBits == 0
    {
      this.bitContainer, this.nBits, this.out, this.base := 0, 0, out, |out|;
      new;
      assert out[|out|..] == [];
    }

    /**
     `addBits16NC` and `addBits32NC`.  Of the value only as many bits are kept as
     the mask table has for bits modulo 32, while the count grows by all of them.
     The caller leaves room for the bits kept, so they do not overlap the old ones
     and combining them is an addition.
     */
    method AddBits(value: nat, bits: nat)
      requires Valid() && bits <= 63 && nBits + bits % 32 <= 64
      modifies this
      ensures Valid() && Stack() == Push(old(Stack()), Masked(value, bits), bits)
      ensures bits <= 31 ==> Stack() == Push(old(Stack()), value, bits)
      ensures nBits == old(nBits) + bits && out == old(out)
    {
      hide Pow2, LE, Layered, Masked, Push;
      var kept := Masked(value, bits);
      PushMasked(out[base..], bitContainer, nBits, value, bits);
      bitContainer := bitContainer + kept * Pow2(nBits);
      nBits := nBits + bits;
    }

    method Flush32()
      requires Valid()
      modifies this
      ensures Valid() && Stack() == old(Stack())
      ensures nBits == if old(nBits) < 32 then old(nBits) else old(nBits) - 32
      ensures old(out) <= out
    {
      if nBits < 32 { return; }
      hide Pow2, LE, Layered, LowBytes;
      SpillFour(out[base..], bitContainer, nBits);
      ContainerShift(bitContainer, nBits);
      var x := bitContainer;
      var spilled := LowBytes(x);
      assert (out + spilled)[base..] == out[base..] + spilled;
      out := out + spilled;
      nBits := nBits - 32;
      bitContainer := x / 0x1_0000_0000;
    }

    method FlushAlign()
      requires Valid()
      modifies this
      ensures Valid() && nBits == 0 && old(out) <= out
      ensures LE(out[base..]) == old(Stack()).value
      ensures |out| - base == (old(Stack()).n + 7) / 8
    {
      hide Pow2, LE, Layered;
      ghost var s := Stack();
      ghost var bytes, x, left := out[base..], bitContainer, nBits;
      StackLength(bytes, x, left);
      var nbBytes := (nBits + 7) / 8;
      var rest: nat := bitContainer;
      for i := 0 to nbBytes
        invariant base <= |out| && old(out) <= out && |out| == |old(out)| + i && nBits == left
        invariant i == nbBytes ==> LE(out[base..]) == s.value
        invariant i < nbBytes ==>
          8 * i < nBits && rest < Pow2(nBits - 8 * i) && Layered(out[base..], rest, nBits - 8 * i) == s
      {
        SpillStep(out[base..], rest, nBits - 8 * i);
        assert (out + [rest % 256])[base..] == out[base..] + [rest % 256];
        out := out + [rest % 256];
        rest := rest / 256;
      }
      nBits := 0;
      bitContainer := 0;
    }

    /** `close`: a final one-bit marks the end, then the container is padded to bytes. */
    method Close()
      requires Valid() && nBits <= 63
      modifies this
      ensures old(out) <= out
      ensures LE(out[base..]) == old(Stack()).value + Pow2(old(Stack()).n)
      ensures |out| - base == old(Stack()).n / 8 + 1
    {
      MarkerBit(Stack());
      AddBits(1, 1);
      FlushAlign();
    }
  }

  lemma MarkerBit(b: Bits)
    ensures Push(b, 1, 1) == Bits(b.value + Pow2(b.n), b.n + 1)
  {
    assert Pow2(1) == 2;
  }

  lemma StackLength(bytes: seq<byte>, container: nat, nBits: nat)
    requires container < Pow2(nBits)
    ensures Layered(bytes, container, nBits).n == 8 * |bytes| + nBits
    ensures nBits == 0 ==> LE(bytes) == Layered(bytes, container, nBits).value
  {}

  /** What a masked write keeps of an n-bit value. */
  function Masked(x: nat, n: nat): nat { (x % Pow2(32)) % Pow2(n % 32) }

  /**
   A masked write keeps its value exactly when it is at most 31 bits wide, or
   happens to be so small that the cut does not show.
   */
  lemma MaskedExact(x: nat, n: nat)
    requires n <= 63 && x < Pow2(n)
    ensures Masked(x, n) == x <==> n <= 31 || x < Pow2(n - 32)
  {
    hide Pow2;
    if n <= 31 {
      MaskedNarrow(x, n);
      DivModUnique(x, Pow2(n), 0, x);
    } else {
      ModMod(x, 32, n - 32);
      if x < Pow2(n - 32) { DivModUnique(x, Pow2(n - 32), 0, x); }
    }
  }

  lemma MaskedNarrow(x: nat, n: nat)
    requires n <= 31
    ensures Masked(x, n) == x % Pow2(n)
  {
    hide Pow2, Masked;
    MaskedIs(x, n, n);
    ModMod(x, 32, n);
  }

  lemma MaskedIs(x: nat, n: nat, w: nat)
    requires n % 32 == w
    ensures Masked(x, n) == (x % Pow2(32)) % Pow2(w)
  {
    hide Pow2;
  }

  lemma PushMasked(bytes: seq<byte>, container: nat, nBits: nat, value: nat, bits: nat)
    requires container < Pow2(nBits) && bits <= 63 && nBits + bits % 32 <= 64
    ensures var kept := Masked(value, bits);
            var c := container + kept * Pow2(nBits);
            && 0 <= c < Pow2(nBits + bits) && c < Pow2(64)
            && Layered(bytes, c, nBits + bits) == Push(Layered(bytes, container, nBits), kept, bits)
            && (bits <= 31 ==> Push(Layered(bytes, container, nBits), kept, bits) ==
                               Push(Layered(bytes, container, nBits), value, bits))
  {
    hide Pow2, LE, Layered;
    var kept, w := Masked(value, bits), bits % 32;
    assert kept < Pow2(w);
    Pow2Monotone(w, bits);
    DivModUnique(kept, Pow2(bits), 0, kept);
    DivModUnique(kept, Pow2(w), 0, kept);
    PushContainer(bytes, container, nBits, kept, bits);
    PushContainer(bytes, container, nBits, kept, w);
    Pow2Monotone(nBits + w, 64);
    if bits <= 31 { MaskedNarrow(value, bits); }
  }

  lemma PushContainer(bytes: seq<byte>, container: nat, nBits: nat, value: nat, bits: nat)
    requires container < Pow2(nBits)
    ensures var c := container + (value % Pow2(bits)) * Pow2(nBits);
            && 0 <= c < Pow2(nBits + bits)
            && Layered(bytes, c, nBits + bits) == Push(Layered(bytes, container, nBits), value, bits)
  {
    hide Pow2, LE;
    var v, u := value % Pow2(bits), Pow2(8 * |bytes|);
    PushWellFormed(Bits(container, nBits), value, bits);
    Pow2Add(nBits, 8 * |bytes|);
    MulAssoc(v, Pow2(nBits), u);
    MulDistributes(container, v * Pow2(nBits), u);
    MulMonotone(0, v, Pow2(nBits));
  }

  lemma ContainerShift(x: nat, nBits: nat)
    requires x < Pow2(nBits) && nBits >= 32
    ensures 0 <= x / 0x1_0000_0000 < Pow2(nBits - 32) && x / 0x1_0000_0000 <= x
  {
    Pow2Add(nBits - 32, 32);
    Pow2Of32();
    DivBelow(x, 0x1_0000_0000, Pow2(nBits - 32));
  }

  lemma DivBelow(x: nat, d: nat, q: nat)
    requires d >= 1 && x < q * d
    ensures 0 <= x / d < q
  {
    DivParts(x, d);
    if x / d >= q { MulMonotone(q, x / d, d); }
  }

  /** One byte of the padding loop. */
  lemma SpillStep(bytes: seq<byte>, rest: nat, left: nat)
    requires left >= 1 && rest < Pow2(left)
    ensures rest / 256 >= 0
    ensures left <= 8 ==> rest / 256 == 0 && LE(bytes + [rest % 256]) == Layered(bytes, rest, left).value
    ensures left > 8 ==>
      rest / 256 < Pow2(left - 8) && Layered(bytes + [rest % 256], rest / 256, left - 8) == Layered(bytes, rest, left)
  {
    PowEight();
    hide Pow2, LE;
    if left <= 8 {
      Pow2Monotone(left, 8);
      LESnoc(bytes, rest);
    } else {
      SpillByte(bytes, rest, left);
      Pow2Add(left - 8, 8);
      DivBelow(rest, 256, Pow2(left - 8));
    }
  }

  // ------------------------------------------------------------- the reader

  /** The stack a closed stream holds: its highest one-bit is the end marker. */
  ghost function Opened(bytes: seq<byte>): Bits
    requires LE(bytes) >= 1
  {
    var h := HighBit(LE(bytes));
    Bits(LE(bytes) - Pow2(h), h)
  }

  /** Closing a stack and opening the bytes again gives the stack back. */
  lemma OpenClosed(b: Bits, bytes: seq<byte>)
    requires WellFormed(b) && LE(bytes) == b.value + Pow2(b.n)
    ensures Opened(bytes) == b
  {
    HighBitUnique(LE(bytes), b.n);
  }

  lemma TopByte(low: nat, c: nat, m: nat)
    requires low < Pow2(m) && c >= 1
    ensures var x := low + c * Pow2(m);
            && x >= 1 && HighBit(x) == m + HighBit(c)
            && x - Pow2(HighBit(x)) == low + (c % Pow2(HighBit(c))) * Pow2(m)
  {
    hide Pow2, HighBit;
    var h := HighBit(c);
    HighBitDoubles(c);
    Pow2Add(h, m);
    Pow2Next(m + h);
    LeadingDigit(low, c, Pow2(h), Pow2(m));
    HighBitUnique(low + c * Pow2(m), m + h);
    DivModUnique(c, Pow2(h), 1, c - Pow2(h));
  }

  lemma HighBitDoubles(c: nat)
    requires c >= 1
    ensures Pow2(HighBit(c)) <= c < 2 * Pow2(HighBit(c))
  {}

  lemma Pow2Next(n: nat)
    ensures Pow2(n + 1) == 2 * Pow2(n)
  {}

  lemma LeadingDigit(low: nat, c: nat, t: nat, u: nat)
    requires low < u && t <= c < 2 * t
    ensures t * u <= low + c * u < 2 * (t * u) && low + c * u - t * u == low + (c - t) * u
  {
    MulMonotone(t, c, u);
    MulMonotone(c + 1, 2 * t, u);
    MulDistributes(c, 1, u);
    MulAssoc(2, t, u);
    MulDistributes(c - t, t, u);
  }

  lemma OpenLayered(bytes: seq<byte>, c: byte)
    requires c >= 1
    ensures LE(bytes + [c]) >= 1
    ensures Opened(bytes + [c]) == Layered(bytes, c % Pow2(HighBit(c)), HighBit(c))
  {
    hide Pow2, LE, HighBit;
    LESnoc(bytes, c);
    LEBound(bytes);
    TopByte(LE(bytes), c, 8 * |bytes|);
  }

  const WORD := 0x1_0000_0000

  class ReverseBitReader {
    const data: seq<byte>
    const start: nat
    var off: nat
    var bits: nat
    var cnt: nat

    ghost predicate Valid()
      reads this
    {
      start <= off <= |data| && bits < WORD
    }

    /** The bits not yet taken. */
    ghost function Rest(): Bits
      requires Valid()
      reads this
    {
      Layered(data[start..off], bits % Pow2(cnt), cnt)
    }

    constructor (data: seq<byte>, off: nat, start: nat)
      requires start <= off < |data| && data[off] != 0
      ensures Valid() && this.data == data && this.start == start
      ensures LE(data[start..off + 1]) >= 1 && Rest() == Opened(data[start..off + 1]) && cnt <= 7
    {
      this.data, this.start, this.off := data, start, off;
      this.bits, this.cnt := data[off], HighBit(data[off]);
      new;
      ByteHighBit(data[off]);
      OpenLayered(data[start..off], data[off]);
      assert data[start..off + 1] == data[start..off] + [data[off]];
    }

    /**
     Load bytes until b bits are there.  The word keeps the 32 lowest bits of m, the
     bits that should be at hand; for up to 32 bits asked for, `Kept` says before
     the call whether that is all of them.
     */
    method Fetch(b: nat) returns (ok: bool, ghost m: nat)
      requires Valid()
      modifies this
      ensures Valid()
      ensures ok <==> b <= old(Rest()).n
      ensures ok ==> b <= cnt
      ensures !ok ==> cnt < b
      ensures ok ==> cnt < b + 8 || cnt == old(cnt)
      ensures m < Pow2(cnt) && Layered(data[start..off], m, cnt) == old(Rest()) && Agree(bits, m, Low(cnt))
      ensures ok && old(cnt) <= 7 && b <= 32 ==> (Rest() == old(Rest()) <==> Kept(old(Rest()), b))
    {
      hide Pow2, LE, Layered, Agree, Kept;
      m := bits % Pow2(cnt);
      LayeredLength(data[start..off], m, cnt);
      PartOfByte(data[start..off], m, cnt);
      StartsAgree(bits, cnt);
      while cnt < b
        invariant Valid() && (cnt < b + 8 || cnt == old(cnt))
        invariant m < Pow2(cnt) && Layered(data[start..off], m, cnt) == old(Rest()) && Agree(bits, m, Low(cnt))
        decreases b - cnt
      {
        LayeredLength(data[start..off], m, cnt);
        if off <= start { return false, m; }
        assert data[start..off] == data[start..off - 1] + [data[off - 1]];
        off := off - 1;
        var c := data[off];
        LoadLayered(data[start..off], c, m, cnt);
        LoadAgrees(bits, m, c, cnt);
        bits, m := (bits * 256 + c) % WORD, m * 256 + c;
        cnt := cnt + 8;
      }
      LayeredLength(data[start..off], m, cnt);
      ok := true;
      if old(cnt) <= 7 && b <= 32 { FetchKept(old(Rest()), data[start..off], bits, m, cnt, old(cnt), b); }
    }

    /** Take the b highest bits, or fail when fewer are left. */
    method Val(b: nat) returns (ok: bool, v: nat)
      requires Valid()
      modifies this
      ensures Valid()
      ensures ok <==> b <= old(Rest()).n
      ensures v < Pow2(b)
      ensures b <= 32 && !ok ==> Rest() == old(Rest())
      ensures ok && b <= 32 && old(cnt) <= 7 ==> cnt <= 7 && v == Taken(old(Rest()), b) && Rest() == Pop(old(Rest()), b)
    {
      hide Pow2, LE, Layered, Agree, Kept, Taken, Top, Pop, Field;
      ghost var m;
      ghost var c0 := cnt;
      PartOfByte(data[start..off], bits % Pow2(cnt), cnt);
      ok, m := Fetch(b);
      if !ok {
        if b <= 32 { AllAtHand(bits, m, cnt); }
        return false, 0;
      }
      if b <= 32 && c0 <= 7 { TakeLow(data[start..off], bits, m, cnt, c0, b); }
      cnt := cnt - b;
      v := Field(bits, cnt, b);
    }
  }

  // ------------------------------------------------------------- what the 32-bit word keeps

  function Low(cnt: nat): nat { if cnt < 32 then cnt else 32 }

  /** The same number in its w lowest bits. */
  ghost predicate Agree(x: nat, y: nat, w: nat) { x % Pow2(w) == y % Pow2(w) }

  /**
   What the reader takes: with c bits at hand, and a number so wide that the byte
   that completes it no longer fits the word with them, those c bits are lost.
   */
  function Taken(b: Bits, w: nat): nat
    requires w <= b.n
  {
    var c := b.n % 8;
    if c == 0 || w <= c + 24 then Top(b, w) else Top(b, w) % Pow2(w - c)
  }

  /** Nothing is lost: the number is narrow enough, or the bits at hand are zeros. */
  ghost predicate Kept(b: Bits, w: nat) { b.n % 8 == 0 || w <= b.n % 8 + 24 || Top(b, b.n % 8) == 0 }

  /** The reader takes what was written if and only if nothing is lost. */
  lemma TakenExact(b: Bits, w: nat)
    requires w <= b.n
    ensures Taken(b, w) == Top(b, w) <==> Kept(b, w)
  {
    hide Pow2;
    var c := b.n % 8;
    if c != 0 && w > c + 24 {
      TopOfTop(b, w, c);
      var x, p := Top(b, w), Pow2(w - c);
      DivParts(x, p);
      if x / p == 0 { DivModUnique(x, p, 0, x); }
    }
  }

  lemma TopOfTop(b: Bits, w: nat, c: nat)
    requires c <= w <= b.n
    ensures Top(b, w) / Pow2(w - c) == Top(b, c)
  {
    hide Pow2;
    ShiftShift(b.value, b.n - w, w - c);
  }

  /** Offset code 26 with one bit at hand: the stream holds 2^25 there and the reader takes 0. */
  lemma TopBitLost()
    ensures LE([0, 0, 0, 0, 3]) >= 1 && Opened([0, 0, 0, 0, 3]) == Bits(WORD, 33)
    ensures Top(Bits(WORD, 33), 26) == 0x200_0000 && Taken(Bits(WORD, 33), 26) == 0
  {
    hide Pow2, LE, HighBit, Opened, Layered;
    var zeros: seq<byte> := [0, 0, 0, 0];
    assert [0, 0, 0, 0, 3] == zeros + [3];
    OpenLayered(zeros, 3);
    OneAboveZeros();
    LostValue();
  }

  lemma OneAboveZeros()
    ensures Layered([0, 0, 0, 0], 3 % Pow2(HighBit(3)), HighBit(3)) == Bits(WORD, 33)
  {
    assert HighBit(3) == 1 && Pow2(1) == 2;
    hide Pow2, LE, HighBit;
    FourZeros();
    Pow2Of32();
  }

  lemma LostValue()
    ensures Top(Bits(WORD, 33), 26) == 0x200_0000 && Taken(Bits(WORD, 33), 26) == 0
  {
    hide Pow2;
    PowSeven();
  }

  lemma PowSeven()
    ensures Pow2(7) == 128 && Pow2(25) == 0x200_0000
  {
    Pow2Of24();
  }

  lemma FourZeros()
    ensures LE([0, 0, 0, 0]) == 0
  {
    LESnoc([], 0);
    LESnoc([0], 0);
    LESnoc([0, 0], 0);
    LESnoc([0, 0, 0], 0);
    assert [] + [0] == [0] && [0] + [0] == [0, 0] && [0, 0] + [0] == [0, 0, 0] && [0, 0, 0] + [0] == [0, 0, 0, 0];
  }

  /**
   Loading a byte keeps the bits at hand exactly when they number at most 24 or
   the ones above the 24th are zeros.
   */
  lemma LoadExact(bits: nat, c: byte, cnt: nat)
    ensures ((bits * 256 + c) % WORD) % Pow2(cnt + 8) == (bits % Pow2(cnt)) * 256 + c <==>
              cnt <= 24 || bits % Pow2(cnt) < 0x100_0000
  {
    hide Pow2;
    var x, m := bits * 256 + c, bits % Pow2(cnt);
    if cnt <= 24 {
      ShiftIn(bits, c, cnt);
      Pow2Of32();
      ModMod(x, 32, cnt + 8);
    } else {
      Pow2Of32();
      Pow2Of24();
      Pow2Monotone(32, cnt + 8);
      DivModUnique(x % WORD, Pow2(cnt + 8), 0, x % WORD);
      ShiftIn(bits, c, 24);
      ModMod(bits, cnt, 24);
      DivParts(m, 0x100_0000);
      if m < 0x100_0000 { DivModUnique(m, 0x100_0000, 0, m); }
    }
  }

  lemma Pow2Of24()
    ensures Pow2(24) == 0x100_0000
  {
    Pow2Add(8, 8);
    Pow2Add(16, 8);
    assert Pow2(8) == 256;
  }

  lemma StartsAgree(bits: nat, cnt: nat)
    ensures Agree(bits, bits % Pow2(cnt), Low(cnt))
  {
    ModMod(bits, cnt, Low(cnt));
  }

  lemma LayeredLength(bytes: seq<byte>, m: nat, cnt: nat)
    ensures Layered(bytes, m, cnt).n == 8 * |bytes| + cnt
  {}

  lemma LayeredRest(bytes: seq<byte>, m: nat, cnt: nat)
    ensures Layered(bytes, m, cnt).n >= cnt && Layered(bytes, m, cnt).n % 8 == cnt % 8
  {}

  /** As long as the word can hold them, the bits at hand are the true ones. */
  lemma AllAtHand(bits: nat, m: nat, cnt: nat)
    requires m < Pow2(cnt) && Agree(bits, m, Low(cnt)) && cnt <= 32
    ensures bits % Pow2(cnt) == m
  {
    DivModUnique(m, Pow2(cnt), 0, m);
  }

  lemma TopLayered(bytes: seq<byte>, m: nat, cnt: nat, b: nat)
    requires m < Pow2(cnt) && b <= cnt
    ensures Top(Layered(bytes, m, cnt), b) == m / Pow2(cnt - b)
    ensures Pop(Layered(bytes, m, cnt), b) == Layered(bytes, m % Pow2(cnt - b), cnt - b)
  {
    hide Pow2, LE;
    LEBound(bytes);
    SplitTop(LE(bytes), m, 8 * |bytes|, cnt - b);
  }

  /** Where a fetch ends, and when it has lost something. */
  lemma FetchKept(whole: Bits, bytes: seq<byte>, bits: nat, m: nat, cnt: nat, c0: nat, b: nat)
    requires m < Pow2(cnt) && whole == Layered(bytes, m, cnt) && Agree(bits, m, Low(cnt)) && bits < WORD
    requires c0 <= 7 && whole.n % 8 == c0 && b <= 32 && b <= cnt && (cnt < b + 8 || cnt == c0)
    ensures Layered(bytes, bits % Pow2(cnt), cnt) == whole <==> Kept(whole, b)
  {
    hide Pow2, LE, Top, Layered, Kept, Agree;
    LayeredPart(bytes, m, cnt);
    if cnt <= 32 {
      AllAtHand(bits, m, cnt);
      NarrowKept(whole, b, cnt);
    } else {
      FetchedCount(cnt, c0, b);
      FetchWide(whole, bytes, bits, m, cnt, c0, b);
    }
  }

  lemma LayeredPart(bytes: seq<byte>, m: nat, cnt: nat)
    ensures var n := Layered(bytes, m, cnt).n; n >= cnt && n % 8 == cnt % 8
  {}

  lemma FetchWide(whole: Bits, bytes: seq<byte>, bits: nat, m: nat, cnt: nat, c0: nat, b: nat)
    requires m < Pow2(cnt) && whole == Layered(bytes, m, cnt) && Agree(bits, m, Low(cnt)) && bits < WORD
    requires cnt == c0 + 32 && c0 >= 1 && b > c0 + 24 && whole.n >= cnt && whole.n % 8 == c0
    ensures Layered(bytes, bits % Pow2(cnt), cnt) == whole <==> Kept(whole, b)
  {
    hide Pow2, LE, Top, Layered, Kept, Agree;
    TopLayered(bytes, m, cnt, c0);
    WideKept(whole, b, c0);
    WordLost(bits, m, cnt);
    SameLayer(bytes, bits, m, cnt);
  }

  /** A fetch that overshoots the word overshoots it by the bits that were at hand. */
  lemma FetchedCount(cnt: nat, c0: nat, b: nat)
    requires cnt % 8 == c0 && b <= 32 < cnt && (cnt < b + 8 || cnt == c0)
    ensures cnt == c0 + 32 && c0 >= 1 && b > c0 + 24
  {}

  lemma NarrowKept(whole: Bits, b: nat, cnt: nat)
    requires b <= cnt <= 32 && whole.n % 8 == cnt % 8
    ensures Kept(whole, b)
  {
    hide Pow2, Top;
  }

  lemma WideKept(whole: Bits, b: nat, c0: nat)
    requires whole.n % 8 == c0 >= 1 && b > c0 + 24 && c0 <= whole.n
    ensures Kept(whole, b) <==> Top(whole, c0) == 0
  {
    hide Pow2, Top;
  }

  /** The word is all of the bits exactly when there is nothing above it. */
  lemma WordLost(bits: nat, m: nat, cnt: nat)
    requires Agree(bits, m, Low(cnt)) && bits < WORD && cnt > 32
    ensures bits % Pow2(cnt) == bits && (bits == m <==> m / Pow2(32) == 0)
  {
    hide Pow2;
    Pow2Of32();
    WordOf(bits, m, cnt);
    DivParts(m, WORD);
    if m < WORD { DivModUnique(m, WORD, 0, m); }
  }

  /** Beyond 32 bits the word is the low part. */
  lemma WordOf(bits: nat, m: nat, cnt: nat)
    requires Agree(bits, m, Low(cnt)) && bits < WORD && cnt > 32
    ensures bits == m % WORD && bits % Pow2(cnt) == bits
  {
    Pow2Of32();
    hide Pow2;
    Pow2Monotone(32, cnt);
    DivModUnique(bits, Pow2(cnt), 0, bits);
    DivModUnique(bits, Pow2(32), 0, bits);
  }

  lemma SameLayer(bytes: seq<byte>, x: nat, y: nat, cnt: nat)
    ensures Layered(bytes, x, cnt) == Layered(bytes, y, cnt) <==> x == y
  {
    hide Pow2, LE;
    if x < y { ScaleLess(x, y, Pow2(8 * |bytes|)); }
    if y < x { ScaleLess(y, x, Pow2(8 * |bytes|)); }
  }

  lemma ScaleLess(x: nat, y: nat, u: nat)
    requires x < y && u >= 1
    ensures x * u < y * u
  {
    MulMonotone(x + 1, y, u);
    MulDistributes(x, 1, u);
  }

  /** The value taken and the bits left, in terms of the true bits. */
  lemma TakeLow(bytes: seq<byte>, bits: nat, m: nat, cnt: nat, c0: nat, b: nat)
    requires m < Pow2(cnt) && Agree(bits, m, Low(cnt)) && bits < WORD
    requires c0 <= 7 && Layered(bytes, m, cnt).n % 8 == c0 && b <= 32 && b <= cnt && (cnt < b + 8 || cnt == c0)
    ensures var whole := Layered(bytes, m, cnt);
            && cnt - b <= 7 && b <= whole.n
            && Field(bits, cnt - b, b) == Taken(whole, b)
            && Layered(bytes, bits % Pow2(cnt - b), cnt - b) == Pop(whole, b)
  {
    hide Pow2, LE, Top, Pop, Layered, Agree, Field, Taken;
    LayeredRest(bytes, m, cnt);
    TopLayered(bytes, m, cnt, b);
    AgreeLower(bits, m, Low(cnt), cnt - b);
    SameLow(bits, m, cnt - b);
    var whole := Layered(bytes, m, cnt);
    if cnt <= 32 { TakeNarrow(whole, bits, m, cnt, b); } else { TakeWide(whole, bits, m, cnt, b); }
  }

  lemma TakeNarrow(whole: Bits, bits: nat, m: nat, cnt: nat, b: nat)
    requires m < Pow2(cnt) && Agree(bits, m, Low(cnt)) && b <= cnt <= 32
    requires cnt <= whole.n && whole.n % 8 == cnt % 8 && Top(whole, b) == m / Pow2(cnt - b)
    ensures Field(bits, cnt - b, b) == Taken(whole, b)
  {
    hide Pow2, Top, Agree, Field, Taken;
    AllAtHand(bits, m, cnt);
    TakeTop(bits, cnt, b);
    TakenAll(whole, b, cnt);
  }

  lemma TakeWide(whole: Bits, bits: nat, m: nat, cnt: nat, b: nat)
    requires Agree(bits, m, Low(cnt)) && bits < WORD && 32 < cnt < b + 8 && b <= 32
    requires cnt <= whole.n && whole.n % 8 == cnt % 8 && Top(whole, b) == m / Pow2(cnt - b)
    ensures Field(bits, cnt - b, b) == Taken(whole, b)
  {
    hide Pow2, Top, Agree, Field, Taken;
    WordOf(bits, m, cnt);
    TakeWord(m, cnt - b, b);
    TakenPart(whole, b, cnt);
  }

  lemma PartOfByte(bytes: seq<byte>, m: nat, cnt: nat)
    ensures cnt <= 7 ==> Layered(bytes, m, cnt).n % 8 == cnt
  {}

  lemma TakenAll(whole: Bits, b: nat, cnt: nat)
    requires b <= cnt <= 32 && cnt <= whole.n && whole.n % 8 == cnt % 8
    ensures Taken(whole, b) == Top(whole, b)
  {}

  lemma TakenPart(whole: Bits, b: nat, cnt: nat)
    requires 32 < cnt < b + 8 && b <= 32 && cnt <= whole.n && whole.n % 8 == cnt % 8
    ensures Taken(whole, b) == Top(whole, b) % Pow2(32 - (cnt - b))
  {
    hide Pow2, Top;
    assert whole.n % 8 == cnt - 32;
  }

  lemma SameLow(x: nat, y: nat, l: nat)
    requires Agree(x, y, l)
    ensures x % Pow2(l) == y % Pow2(l)
  {}

  lemma TakeWord(m: nat, l: nat, b: nat)
    requires l <= 32 <= l + b
    ensures Field(m % WORD, l, b) == (m / Pow2(l)) % Pow2(32 - l)
  {
    hide Pow2;
    LowQuotient(m, l);
    Pow2Monotone(32 - l, b);
    var v := m / Pow2(l) % Pow2(32 - l);
    DivModUnique(v, Pow2(b), 0, v);
  }

  lemma AgreeLower(x: nat, y: nat, w: nat, l: nat)
    requires Agree(x, y, w) && l <= w
    ensures Agree(x, y, l)
  {
    ModMod(x, w, l);
    ModMod(y, w, l);
  }

  lemma LowQuotient(m: nat, l: nat)
    requires l <= 32
    ensures (m % WORD) / Pow2(l) == (m / Pow2(l)) % Pow2(32 - l)
  {
    Pow2Of32();
    hide Pow2;
    FieldOfField(m, 0, 32, l, 32 - l);
    WholeField(m, 32);
    FieldOfSmall(m % WORD, l, 32 - l);
  }

  lemma ByteHighBit(c: byte)
    requires c >= 1
    ensures HighBit(c) <= 7
  {
    if HighBit(c) >= 8 { Pow2Monotone(8, HighBit(c)); PowEight(); }
  }

  /** Loading one byte below the bits at hand. */
  lemma LoadLayered(bytes: seq<byte>, c: byte, m: nat, cnt: nat)
    requires m < Pow2(cnt)
    ensures Layered(bytes, m * 256 + c, cnt + 8) == Layered(bytes + [c], m, cnt) && m * 256 + c < Pow2(cnt + 8)
  {
    hide Pow2, LE;
    var u := Pow2(8 * |bytes|);
    LESnoc(bytes, c);
    PowEight();
    Pow2Add(8, 8 * |bytes|);
    Pow2Add(cnt, 8);
    MulMonotone(m + 1, Pow2(cnt), 256);
    MulDistributes(m * 256, c, u);
    MulAssoc(m, 256, u);
  }

  lemma ShiftIn(x: nat, c: byte, w: nat)
    ensures (x * 256 + c) % Pow2(w + 8) == (x % Pow2(w)) * 256 + c
  {
    PowEight();
    hide Pow2;
    var q, m := x / Pow2(w), x % Pow2(w);
    Pow2Add(w, 8);
    DivParts(x, Pow2(w));
    MulMonotone(m + 1, Pow2(w), 256);
    MulAssoc(q, Pow2(w), 256);
    DivModUnique(x * 256 + c, Pow2(w + 8), q, m * 256 + c);
  }

  lemma LoadAgrees(bits: nat, m: nat, c: byte, cnt: nat)
    requires Agree(bits, m, Low(cnt))
    ensures Agree((bits * 256 + c) % WORD, m * 256 + c, Low(cnt + 8))
  {
    hide Pow2, Agree;
    var x, y, w, w' := bits * 256 + c, m * 256 + c, Low(cnt), Low(cnt + 8);
    ShiftAgrees(bits, m, c, w);
    AgreeLower(x, y, w + 8, w');
    WordAgrees(x, w');
    AgreeTrans(x % WORD, x, y, w');
  }

  lemma ShiftAgrees(x: nat, y: nat, c: byte, w: nat)
    requires Agree(x, y, w)
    ensures Agree(x * 256 + c, y * 256 + c, w + 8)
  {
    hide Pow2;
    ShiftIn(x, c, w);
    ShiftIn(y, c, w);
  }

  lemma WordAgrees(x: nat, w: nat)
    requires w <= 32
    ensures Agree(x % WORD, x, w)
  {
    Pow2Of32();
    hide Pow2;
    ModMod(x, 32, w);
  }

  lemma AgreeTrans(x: nat, y: nat, z: nat, w: nat)
    requires Agree(x, y, w) && Agree(y, z, w)
    ensures Agree(x, z, w)
  {
    hide Pow2;
  }

  lemma ModMod(x: nat, a: nat, b: nat)
    requires b <= a
    ensures (x % Pow2(a)) % Pow2(b) == x % Pow2(b)
  {
    hide Pow2;
    DivParts(x, Pow2(a));
    DivNonNegative(x, Pow2(a));
    ModHigh(x % Pow2(a), x / Pow2(a), a, b);
  }

  /** Taking bits from a word that holds them all. */
  lemma TakeTop(bits: nat, cnt: nat, b: nat)
    requires b <= cnt
    ensures Field(bits, cnt - b, b) == (bits % Pow2(cnt)) / Pow2(cnt - b)
  {
    hide Pow2;
    FieldOfField(bits, 0, cnt, cnt - b, b);
    WholeField(bits, cnt);
    FieldOfSmall(bits % Pow2(cnt), cnt - b, b);
  }

  lemma WholeField(x: nat, n: nat)
    ensures Field(x, 0, n) == x % Pow2(n)
  {
    assert Pow2(0) == 1;
  }

  lemma FieldOfSmall(m: nat, l: nat, b: nat)
    requires m < Pow2(l + b)
    ensures Field(m, l, b) == m / Pow2(l)
  {
    hide Pow2;
    Pow2Add(b, l);
    DivBelow(m, Pow2(l), Pow2(b));
    DivModUnique(m / Pow2(l), Pow2(b), 0, m / Pow2(l));
  }

  lemma SplitTop(low: nat, m: nat, n: nat, l: nat)
    requires low < Pow2(n)
    ensures (low + m * Pow2(n)) / Pow2(n + l) == m / Pow2(l)
    ensures (low + m * Pow2(n)) % Pow2(n + l) == low + (m % Pow2(l)) * Pow2(n)
  {
    hide Pow2;
    var q, r, u := m / Pow2(l), m % Pow2(l), Pow2(n);
    DivParts(m, Pow2(l));
    Pow2Add(l, n);
    MulDistributes(q * Pow2(l), r, u);
    MulAssoc(q, Pow2(l), u);
    MulMonotone(r + 1, Pow2(l), u);
    MulDistributes(r, 1, u);
    MulMonotone(0, r, u);
    DivModUnique(low + m * u, Pow2(n + l), q, low + r * u);
  }

  // ------------------------------------------------------------- a list through the writer and the reader

  /** The end marker is in the last byte, so that byte is not zero. */
  lemma LastByteSet(bytes: seq<byte>, b: Bits)
    requires WellFormed(b) && LE(bytes) == b.value + Pow2(b.n) && |bytes| == b.n / 8 + 1
    ensures bytes[|bytes| - 1] != 0
  {
    var n := |bytes| - 1;
    if bytes[n] == 0 {
      assert LE(bytes) == LE(bytes[..n]);
      LEBound(bytes[..n]);
      Pow2Monotone(8 * n, b.n);
    }
  }

  /** Up to 25 bits are always taken as written. */
  lemma TakenNarrow(b: Bits, w: nat)
    requires w <= b.n && w <= 25
    ensures Taken(b, w) == Top(b, w)
  {}

  ghost predicate Narrow(items: seq<Item>) { forall i :: 0 <= i < |items| ==> items[i].width <= 25 }

  /** Writes a list of numbers and closes the stream. */
  method WriteItems(items: seq<Item>) returns (bytes: seq<byte>)
    requires Narrow(items)
    ensures |bytes| >= 1 && bytes[|bytes| - 1] != 0
    ensures LE(bytes) >= 1 && Opened(bytes) == PushAll(EMPTY, items)
  {
    hide Pow2, LE, Layered, Push, Opened, Masked;
    var wr := new BitWriter([]);
    assert items[..0] == [];
    for i := 0 to |items|
      invariant fresh(wr) && wr.Valid() && wr.nBits <= 56 && wr.base == 0
      invariant wr.Stack() == PushAll(EMPTY, items[..i])
    {
      assert items[..i + 1][..i] == items[..i];
      wr.Flush32();
      wr.AddBits(items[i].value, items[i].width);
    }
    assert items[..|items|] == items;
    EmptyWellFormed();
    PushAllWellFormed(EMPTY, items);
    wr.Close();
    bytes := wr.out;
    assert bytes[0..] == bytes;
    OpenClosed(PushAll(EMPTY, items), bytes);
    LastByteSet(bytes, PushAll(EMPTY, items));
    MarkerCounts(PushAll(EMPTY, items));
  }

  lemma EmptyWellFormed()
    ensures WellFormed(EMPTY)
  {}

  lemma MarkerCounts(b: Bits)
    ensures b.value + Pow2(b.n) >= 1
  {}

  /**
   Bit-stack duality, through the objects: for any list of numbers of at most 25
   bits, what is written comes back in reverse order and no bit is left.
   */
  method WriteThenRead(items: seq<Item>) returns (values: seq<nat>, left: nat)
    requires Narrow(items)
    ensures values == Reversed(items) && left == 0
  {
    hide Pow2, LE, Layered, Push, Pop, Top, Opened, Taken, Reversed;
    var bytes := WriteItems(items);
    var rbr := new ReverseBitReader(bytes, |bytes| - 1, 0);
    assert bytes[0..|bytes| - 1 + 1] == bytes;
    values := [];
    var n := |items|;
    assert items[..n] == items;
    assert [] + Reversed(items[..n]) == Reversed(items);
    while n > 0
      invariant 0 <= n <= |items| && fresh(rbr) && rbr.Valid() && rbr.cnt <= 7
      invariant rbr.Rest() == PushAll(EMPTY, items[..n])
      invariant values + Reversed(items[..n]) == Reversed(items)
    {
      n := n - 1;
      ghost var below := PushAll(EMPTY, items[..n]);
      var v, w := items[n].value, items[n].width;
      assert items[..n + 1][..n] == items[..n];
      EmptyWellFormed();
      PushAllWellFormed(EMPTY, items[..n]);
      PopPush(below, v, w);
      PushLength(below, v, w);
      TakenNarrow(rbr.Rest(), w);
      var ok, x := rbr.Val(w);
      ReversedStep(items, n);
      assert values + ([x] + Reversed(items[..n])) == values + [x] + Reversed(items[..n]);
      values := values + [x];
    }
    NothingReversed(items);
    PartOfByte(rbr.data[rbr.start..rbr.off], rbr.bits % Pow2(rbr.cnt), rbr.cnt);
    left := rbr.cnt;
  }

  lemma ReversedStep(items: seq<Item>, n: nat)
    requires n < |items|
    ensures Reversed(items[..n + 1]) == [items[n].value % Pow2(items[n].width)] + Reversed(items[..n])
  {
    assert items[..n + 1][..n] == items[..n];
  }

  lemma NothingReversed(items: seq<Item>)
    ensures Reversed(items[..0]) == [] && PushAll(EMPTY, items[..0]) == EMPTY
  {}
}
