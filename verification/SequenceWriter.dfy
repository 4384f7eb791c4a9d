/** `encodeSequences`: writing the interleaved states and extra bits. */
module SequenceWriter {
  import opened Arith
  import opened ByteStream
  import opened BitStack
  import opened FseDuality
  import opened SequenceCodes
  import opened Lz77
  import opened SequenceStream

  /**
   The 64-bit container never overflows: the tables are small, and a block is too
   short for wide sequences next to one another.
   */
  ghost predicate Roomy(ss: seq<Sequence>) {
    && (forall i :: 0 <= i < |ss| - 1 ==> ExtraBits(ss[i]) <= 48)
    && forall i :: 0 <= i < |ss| - 2 && ExtraBits(ss[i]) == 48 ==> ExtraBits(ss[i + 1]) <= 46
  }

  predicate SmallLogs(t: Coders) { t.ll.log + t.of.log + t.ml.log <= 17 }

  lemma Widths(t: Coders, s: Sequence)
    requires Codable(t, s)
    ensures LlBits(Ll(s)) <= 16 && MlBits(Ml(s)) <= 16 && Of(s) <= 25
  {
    EntryCodes(t, s);
  }

  lemma StepWidth(c: Coder, code: nat, x: nat)
    requires Good(c) && Occurs(c, code) && Pow2(c.log) <= x < 2 * Pow2(c.log)
    ensures EncodeStep(c.states, c.tt[code], x).bits == Emitted(c, code, x) <= c.log
  {
    assert DualStep(c.log, c.states, c.tt[code], c.dec, x, code);
  }

  /** The first part of `encodeSequences`: the last sequence. */
  method WriteLast(wr: BitWriter, t: Coders, s: Sequence) returns (ll: nat, of: nat, ml: nat)
    requires wr.Valid() && wr.nBits == 0 && wr.Stack() == EMPTY && Codable(t, s)
    modifies wr
    ensures wr.Valid() && wr.nBits <= 62 && old(wr.out) <= wr.out
    ensures Encoder(ll, of, ml, wr.Stack()) == EncodeLast(t, s)
  {
    hide Masked, Layered, Pow2, Push, InitState, LlBits, MlBits, Ll, Ml, Of;
    Widths(t, s);
    ll := InitState(t.ll.states, t.ll.tt[Ll(s)]);
    of := InitState(t.of.states, t.of.tt[Of(s)]);
    wr.Flush32();
    ml := InitState(t.ml.states, t.ml.tt[Ml(s)]);
    wr.AddBits(s.litLen, LlBits(Ll(s)));
    wr.AddBits(s.matchLen - MIN_MATCH, MlBits(Ml(s)));
    wr.Flush32();
    wr.AddBits(s.offset, Of(s));
  }

  /** `encodeSequenceStates`. */
  method WriteNext(wr: BitWriter, t: Coders, s: Sequence, ll: nat, of: nat, ml: nat, ghost next: Sequence)
    returns (ll': nat, of': nat, ml': nat)
    requires wr.Valid() && AllGood(t) && SmallLogs(t) && Codable(t, s)
    requires wr.nBits <= 79 && ExtraBits(s) <= 48 && (ExtraBits(s) == 48 ==> wr.nBits <= 78)
    requires Facing(t, Encoder(ll, of, ml, wr.Stack()), next)
    modifies wr
    ensures wr.Valid() && wr.nBits <= 79 && (ExtraBits(s) <= 46 ==> wr.nBits <= 78) && old(wr.out) <= wr.out
    ensures Encoder(ll', of', ml', wr.Stack()) == EncodeNext(t, Encoder(ll, of, ml, old(wr.Stack())), s)
  {
    hide Good, Pow2, Push, EncodeStep, LlBits, MlBits, Ll, Ml, Of, Packed, Emitted, WellFormed, Layered, Masked, ExtraBits,
      PushStates;
    wr.Flush32();
    ll', of', ml' := WriteStates(wr, t, s, ll, of, ml, next);
    wr.Flush32();
    wr.AddBits(Packed(s), ExtraBits(s));
  }

  method WriteStates(wr: BitWriter, t: Coders, s: Sequence, ll: nat, of: nat, ml: nat, ghost next: Sequence)
    returns (ll': nat, of': nat, ml': nat)
    requires wr.Valid() && AllGood(t) && SmallLogs(t) && Codable(t, s) && wr.nBits <= 47
    requires Facing(t, Encoder(ll, of, ml, wr.Stack()), next)
    modifies wr
    ensures wr.Valid() && wr.out == old(wr.out) && old(wr.nBits) <= wr.nBits <= old(wr.nBits) + 17
    ensures wr.Stack() == PushStates(t, Encoder(ll, of, ml, old(wr.Stack())), s)
    ensures ll' == EncodeStep(t.ll.states, t.ll.tt[Ll(s)], ll).state
    ensures of' == EncodeStep(t.of.states, t.of.tt[Of(s)], of).state
    ensures ml' == EncodeStep(t.ml.states, t.ml.tt[Ml(s)], ml).state
  {
    hide Good, Pow2, Push, EncodeStep, LlBits, MlBits, Ll, Ml, Of, Packed, Emitted, WellFormed, Layered, Masked, ExtraBits;
    StepWidth(t.of, Of(s), of);
    StepWidth(t.ml, Ml(s), ml);
    StepWidth(t.ll, Ll(s), ll);
    var ofStep := EncodeStep(t.of.states, t.of.tt[Of(s)], of);
    wr.AddBits(of, ofStep.bits);
    var mlStep := EncodeStep(t.ml.states, t.ml.tt[Ml(s)], ml);
    wr.AddBits(ml, mlStep.bits);
    var llStep := EncodeStep(t.ll.states, t.ll.tt[Ll(s)], ll);
    wr.AddBits(ll, llStep.bits);
    ll', of', ml' := llStep.state, ofStep.state, mlStep.state;
  }

  /** The bit stream of the sequences, after the bytes given. */
  method WriteSequences(out: seq<byte>, t: Coders, ss: seq<Sequence>) returns (r: seq<byte>)
    requires AllGood(t) && SmallLogs(t) && |ss| >= 1 && AllCodable(t, ss) && Roomy(ss)
    ensures out <= r
    ensures var b := EncodeBits(t, ss);
            LE(r[|out|..]) == b.value + Pow2(b.n) && |r| - |out| == b.n / 8 + 1
  {
    hide AllGood, Good, Pow2, LE, Push, EncodeStates, EncodeNext, EncodeLast, Facing, AllCodable, Codable, Layered, Roomy,
      ExtraBits;
    var wr := new BitWriter(out);
    var i: nat := |ss| - 1;
    LastStates(t, ss);
    var ll, of, ml := WriteLast(wr, t, ss[i]);
    while i > 0
      invariant 0 <= i < |ss| && wr.Valid() && wr.nBits <= 79 && wr.base == |out| && out <= wr.out
      invariant i == |ss| - 1 || ExtraBits(ss[i]) <= 46 ==> wr.nBits <= 78
      invariant AllCodable(t, ss[i..]) && Encoder(ll, of, ml, wr.Stack()) == EncodeStates(t, ss[i..])
    {
      i := i - 1;
      NextStates(t, ss, i);
      ll, of, ml := WriteNext(wr, t, ss[i], ll, of, ml, ss[i + 1]);
    }
    assert ss[0..] == ss;
    SmallTables(t);
    r := WriteEnd(wr, t, ll, of, ml);
  }

  lemma SmallTables(t: Coders)
    requires AllGood(t)
    ensures t.ll.log <= 9 && t.of.log <= 9 && t.ml.log <= 9
  {}

  lemma LastStates(t: Coders, ss: seq<Sequence>)
    requires |ss| >= 1 && AllCodable(t, ss)
    ensures var i := |ss| - 1;
            && Codable(t, ss[i]) && AllCodable(t, ss[i..])
            && EncodeStates(t, ss[i..]) == EncodeLast(t, ss[i])
  {}

  /** The states of a suffix, from those of the next shorter one. */
  lemma NextStates(t: Coders, ss: seq<Sequence>, i: nat)
    requires AllGood(t) && AllCodable(t, ss) && Roomy(ss) && i + 1 < |ss|
    ensures Codable(t, ss[i]) && ExtraBits(ss[i]) <= 48
    ensures ExtraBits(ss[i]) == 48 ==> i + 1 == |ss| - 1 || ExtraBits(ss[i + 1]) <= 46
    ensures AllCodable(t, ss[i + 1..]) && Facing(t, EncodeStates(t, ss[i + 1..]), ss[i + 1])
    ensures AllCodable(t, ss[i..])
    ensures EncodeStates(t, ss[i..]) == EncodeNext(t, EncodeStates(t, ss[i + 1..]), ss[i])
  {
    hide AllGood, EncodeNext, EncodeLast, Facing, Codable, ExtraBits;
    var suffix := ss[i..];
    assert suffix[1..] == ss[i + 1..] && suffix[0] == ss[i];
    StatesRoundTrip(t, ss[i + 1..]);
  }

  /** The final states and the end marker. */
  method WriteEnd(wr: BitWriter, t: Coders, ll: nat, of: nat, ml: nat) returns (r: seq<byte>)
    requires wr.Valid() && wr.nBits <= 79 && t.ll.log <= 9 && t.of.log <= 9 && t.ml.log <= 9
    modifies wr
    ensures old(wr.out) <= r
    ensures var b := Push(Push(Push(old(wr.Stack()), ml, t.ml.log), of, t.of.log), ll, t.ll.log);
            LE(r[wr.base..]) == b.value + Pow2(b.n) && |r| - wr.base == b.n / 8 + 1
  {
    hide Pow2, LE, Push, Layered, Masked;
    wr.Flush32();
    wr.AddBits(ml, t.ml.log);
    wr.Flush32();
    wr.AddBits(of, t.of.log);
    wr.Flush32();
    wr.AddBits(ll, t.ll.log);
    wr.Close();
    r := wr.out;
  }
}
