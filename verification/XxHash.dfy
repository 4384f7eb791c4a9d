/**
 The streaming content checksum: however the input is cut into pieces, the state
 and the digest are those of the whole input.
 */
module XxHash {
  import opened ByteStream

  const PRIME1: bv64 := 0x9e3779b185ebca87
  const PRIME2: bv64 := 0xc2b2ae3d27d4eb4f
  const PRIME3: bv64 := 0x165667b19e3779f9
  const PRIME4: bv64 := 0x85ebca77c2b2ae63
  const PRIME5: bv64 := 0x27d4eb2f165667c5

  // ------------------------------------------------------------- arithmetic

  function Wide(c: byte): bv64 { c as bv64 }

  /** Little-endian value of at most eight bytes. */
  function Word(s: seq<byte>): bv64
    requires |s| <= 8
  {
    if s == [] then 0 else (Word(s[1..]) << 8) | Wide(s[0])
  }

  function Round(v: bv64, n: bv64): bv64 { (v + n * PRIME2).RotateLeft(31) * PRIME1 }

  function MergeRound(v: bv64, n: bv64): bv64 { (v ^ Round(0, n)) * PRIME1 + PRIME4 }

  datatype Lanes = Lanes(a: bv64, b: bv64, c: bv64, d: bv64)

  function Initial(): Lanes { Lanes(PRIME1 + PRIME2, PRIME2, 0, 0 - PRIME1) }

  /** One stripe of 32 bytes, eight to a lane. */
  function Stripe(v: Lanes, s: seq<byte>): Lanes
    requires |s| == 32
  {
    Lanes(Round(v.a, Word(s[..8])), Round(v.b, Word(s[8..16])), Round(v.c, Word(s[16..24])), Round(v.d, Word(s[24..])))
  }

  // ------------------------------------------------------------- the hash of a whole input

  function Stripes(v: Lanes, data: seq<byte>): Lanes
    decreases |data|
  {
    if |data| < 32 then v else Stripes(Stripe(v, data[..32]), data[32..])
  }

  /** The bytes after the last whole stripe. */
  function Tail(data: seq<byte>): (r: seq<byte>)
    ensures |r| < 32
  {
    if |data| < 32 then data else Tail(data[32..])
  }

  lemma {:induction false} TailLength(data: seq<byte>)
    ensures |Tail(data)| == |data| % 32
  {
    if |data| >= 32 { TailLength(data[32..]); }
  }

  function MixEight(h: bv64, w: bv64): bv64 { (h ^ Round(0, w)).RotateLeft(27) * PRIME1 + PRIME4 }

  function MixFour(h: bv64, w: bv64): bv64 { (h ^ (w * PRIME1)).RotateLeft(23) * PRIME2 + PRIME3 }

  function MixOne(h: bv64, w: bv64): bv64 { (h ^ (w * PRIME5)).RotateLeft(11) * PRIME1 }

  /** Eight bytes at a time, then four, then one. */
  function MixTail(h: bv64, tail: seq<byte>): bv64
    decreases |tail|
  {
    if |tail| >= 8 then MixTail(MixEight(h, Word(tail[..8])), tail[8..])
    else if |tail| >= 4 then MixBytes(MixFour(h, Word(tail[..4])), tail[4..])
    else MixBytes(h, tail)
  }

  function MixBytes(h: bv64, tail: seq<byte>): bv64
    decreases |tail|
  {
    if tail == [] then h else MixBytes(MixOne(h, Wide(tail[0])), tail[1..])
  }

  function Avalanche(h: bv64): bv64 {
    var h := (h ^ (h >> 33)) * PRIME2;
    var h := (h ^ (h >> 29)) * PRIME3;
    h ^ (h >> 32)
  }

  function Merged(v: Lanes): bv64 {
    var h := v.a.RotateLeft(1) + v.b.RotateLeft(7) + v.c.RotateLeft(12) + v.d.RotateLeft(18);
    MergeRound(MergeRound(MergeRound(MergeRound(h, v.a), v.b), v.c), v.d)
  }

  /** Where an input shorter than a stripe starts from. */
  function Untouched(v: Lanes): bv64 { v.c + PRIME5 }

  function Counted(h: bv64, len: nat): bv64 { h + (len % 0x1_0000_0000_0000_0000) as bv64 }

  function Digest(data: seq<byte>): bv64 {
    var v := Stripes(Initial(), data);
    var h := if |data| < 32 then Untouched(v) else Merged(v);
    Avalanche(MixTail(Counted(h, |data|), Tail(data)))
  }

  // ------------------------------------------------------------- cutting the input

  /** Hashing a, then b on top of what a left over, is hashing both. */
  lemma {:induction false} Absorb(v: Lanes, a: seq<byte>, b: seq<byte>)
    ensures Stripes(v, a + b) == Stripes(Stripes(v, a), Tail(a) + b)
    ensures Tail(a + b) == Tail(Tail(a) + b)
    decreases |a|
  {
    if |a| >= 32 {
      hide Stripe;
      assert (a + b)[..32] == a[..32];
      assert (a + b)[32..] == a[32..] + b;
      Absorb(Stripe(v, a[..32]), a[32..], b);
    }
  }

  lemma {:induction false} OneStripe(v: Lanes, s: seq<byte>, rest: seq<byte>)
    requires |s| == 32
    ensures Stripes(v, s + rest) == Stripes(Stripe(v, s), rest) && Tail(s + rest) == Tail(rest)
  {
    hide Stripe;
    assert (s + rest)[..32] == s && (s + rest)[32..] == rest;
  }

  lemma {:induction false} Short(v: Lanes, data: seq<byte>)
    requires |data| < 32
    ensures Stripes(v, data) == v && Tail(data) == data
  {}

  class XxHash64 {
    var len: nat
    var v: Lanes
    const buf: array<byte>
    var cnt: nat

    /** The state after exactly these bytes, however they arrived. */
    ghost predicate Holds(data: seq<byte>)
      reads this, buf
    {
      && buf.Length == 32 && len == |data|
      && cnt == |Tail(data)| && buf[..cnt] == Tail(data)
      && v == Stripes(Initial(), data)
    }

    constructor ()
      ensures Holds([]) && fresh(buf)
    {
      len, v, cnt := 0, Initial(), 0;
      buf := new byte[32](_ => 0);
    }

    method Reset()
      requires buf.Length == 32
      modifies this
      ensures Holds([])
    {
      len, v, cnt := 0, Initial(), 0;
    }

    method CopyIn(at: nat, s: seq<byte>)
      requires buf.Length == 32 && at + |s| <= 32
      modifies buf
      ensures buf[..at] == old(buf[..at]) && buf[at..at + |s|] == s
    {
      forall i | 0 <= i < |s| { buf[at + i] := s[i]; }
    }

    method Update(input: seq<byte>, ghost data: seq<byte>)
      requires Holds(data)
      modifies this, buf
      ensures Holds(data + input)
    {
      hide Stripe, Stripes, Tail, Initial;
      ghost var v0, kept := v, buf[..cnt];
      Absorb(Initial(), data, input);
      len := len + |input|;
      if cnt + |input| < 32 {
        CopyIn(cnt, input);
        assert buf[..cnt + |input|] == buf[..cnt] + buf[cnt..cnt + |input|];
        cnt := cnt + |input|;
        Short(v0, kept + input);
        return;
      }
      var b := Complete(input);
      ConsumeStripes(b);
    }

    /** Fills the buffer up to a whole stripe and hashes it; what is left of the input. */
    method Complete(input: seq<byte>) returns (b: seq<byte>)
      requires buf.Length == 32 && cnt < 32 && cnt + |input| >= 32
      modifies this`v, this`cnt, buf
      ensures cnt == 0
      ensures Stripes(v, b) == Stripes(old(v), old(buf[..cnt]) + input) && Tail(b) == Tail(old(buf[..cnt]) + input)
    {
      hide Stripe, Stripes, Tail;
      ghost var kept := buf[..cnt];
      if cnt == 0 {
        assert kept + input == input;
        return input;
      }
      var n := 32 - cnt;
      CopyIn(cnt, input[..n]);
      assert buf[..] == buf[..cnt] + buf[cnt..32];
      assert kept + input == buf[..] + input[n..];
      OneStripe(v, buf[..], input[n..]);
      b := input[n..];
      v := Stripe(v, buf[..]);
      cnt := 0;
    }

    /** Hashes the whole stripes and keeps the rest. */
    method ConsumeStripes(input: seq<byte>)
      requires buf.Length == 32 && cnt == 0
      modifies this`v, this`cnt, buf
      ensures v == Stripes(old(v), input) && cnt == |Tail(input)| && buf[..cnt] == Tail(input)
    {
      hide Stripe, Stripes, Tail;
      var b := input;
      while |b| >= 32
        invariant cnt == 0 && Stripes(v, b) == Stripes(old(v), input) && Tail(b) == Tail(input)
      {
        assert b == b[..32] + b[32..];
        OneStripe(v, b[..32], b[32..]);
        v := Stripe(v, b[..32]);
        b := b[32..];
      }
      Short(v, b);
      if |b| > 0 {
        CopyIn(0, b);
        cnt := |b|;
      }
    }

    method Sum(ghost data: seq<byte>) returns (h: bv64)
      requires Holds(data)
      ensures h == Digest(data)
    {
      hide Stripes, Tail, Initial, Merged, Counted, Avalanche, Word, Wide, MixEight, MixFour, MixOne, Untouched;
      TailLength(data);
      TailShort(data);
      h := if len < 32 then Untouched(v) else Merged(v);
      h := Counted(h, len);
      ghost var h0 := h;
      var rest := buf[..len % 32];
      while |rest| >= 8
        invariant MixTail(h, rest) == MixTail(h0, Tail(data))
      {
        h := MixEight(h, Word(rest[..8]));
        rest := rest[8..];
      }
      if |rest| >= 4 {
        h := MixFour(h, Word(rest[..4]));
        rest := rest[4..];
      }
      while |rest| > 0
        invariant MixBytes(h, rest) == MixTail(h0, Tail(data))
      {
        h := MixOne(h, Wide(rest[0]));
        rest := rest[1..];
      }
      h := Avalanche(h);
    }
  }

  lemma {:induction false} TailShort(data: seq<byte>)
    ensures |Tail(data)| <= |data|
  {}

  /** Any way of cutting the input gives the hash of the whole. */
  method HashChunks(chunks: seq<seq<byte>>) returns (h: bv64)
    ensures h == Digest(Joined(chunks))
  {
    hide Digest;
    var x := new XxHash64();
    for n := 0 to |chunks|
      invariant fresh(x) && fresh(x.buf) && x.Holds(Joined(chunks[..n]))
    {
      assert chunks[..n + 1][..n] == chunks[..n];
      x.Update(chunks[n], Joined(chunks[..n]));
    }
    assert chunks[..|chunks|] == chunks;
    h := x.Sum(Joined(chunks));
  }
}
