/**
 Variable-length integers on the wire: the writer has no limit, the reader stops
 at five bytes and 29 bits.
 */
module Wire {
  import opened ByteStream
  import opened BigEndian

  // ------------------------------------------------------------- what the writer writes

  function Uvarint(x: nat): (s: seq<byte>)
    ensures |s| >= 1
  {
    if x < 128 then [x] else [128 + x % 128] + Uvarint(x / 128)
  }

  function ZigZag(v: int): nat { if v >= 0 then 2 * v else -2 * v - 1 }

  function UnZigZag(u: nat): int { if u % 2 == 0 then u / 2 else -(u / 2) - 1 }

  function Varint(v: int): (s: seq<byte>)
    ensures |s| >= 1
  {
    Uvarint(ZigZag(v))
  }

  // ------------------------------------------------------------- what the reader reads

  /** A value and the position behind it, or a failure. */
  datatype Read<T> = Got(value: T, at: nat) | Fail

  /** Reads the k-th and later bytes of a number. */
  function ReadFrom(b: seq<byte>, i: nat, k: nat): (r: Read<nat>)
    ensures r.Got? ==> i < r.at <= |b|
    decreases 5 - k
  {
    if k >= 5 || i >= |b| then Fail
    else if b[i] < 128 then (if k == 4 && b[i] > 1 then Fail else Got(b[i], i + 1))
    else
      match ReadFrom(b, i + 1, k + 1)
      case Fail => Fail
      case Got(v, at) => Got((b[i] - 128) as int + 128 * v, at)
  }

  function ReadV(b: seq<byte>, i: nat): (r: Read<int>)
    ensures r.Got? ==> i < r.at <= |b|
  {
    match ReadFrom(b, i, 0)
    case Fail => Fail
    case Got(u, at) => Got(UnZigZag(u), at)
  }

  // ------------------------------------------------------------- round trips

  /** The bytes s stand in b at position i. */
  ghost predicate At(b: seq<byte>, i: nat, s: seq<byte>) { i + |s| <= |b| && b[i..i + |s|] == s }

  /** An n-byte integer at a place. */
  function IntAt(b: seq<byte>, i: nat, n: nat): (r: Read<int>)
    ensures r.Got? <==> i + n <= |b|
    ensures r.Got? ==> r.at == i + n
  {
    if i + n <= |b| then Got(GetInt(b[i..i + n]), i + n) else Fail
  }

  lemma {:induction false} IntAtRoundTrip(b: seq<byte>, i: nat, v: int, n: nat)
    requires At(b, i, PutInt(v, n))
    ensures IntAt(b, i, n) == Got(AsInt(v, n), i + n)
  {
    IntRoundTrip(v, n);
  }

  lemma AtSplit(b: seq<byte>, i: nat, s: seq<byte>, t: seq<byte>)
    requires At(b, i, s + t)
    ensures At(b, i, s) && At(b, i + |s|, t)
  {
    assert b[i..i + |s|] == (s + t)[..|s|];
    assert b[i + |s|..i + |s| + |t|] == (s + t)[|s|..];
  }

  /** The bound on what is left to read from byte k on. */
  function Limit(k: nat): nat {
    match k case 0 => 0x2000_0000 case 1 => 0x40_0000 case 2 => 0x8000 case 3 => 0x100 case 4 => 2 case _ => 0
  }

  lemma {:induction false} ReadFromExact(b: seq<byte>, i: nat, x: nat, k: nat)
    requires At(b, i, Uvarint(x)) && k <= 5
    ensures ReadFrom(b, i, k) == if x < Limit(k) then Got(x, i + |Uvarint(x)|) else Fail
    decreases 5 - k
  {
    if k < 5 {
      assert b[i] == b[i..i + |Uvarint(x)|][0];
      if x >= 128 {
        AtSplit(b, i, [128 + x % 128], Uvarint(x / 128));
        ReadFromExact(b, i + 1, x / 128, k + 1);
      }
    }
  }

  /** A signed number is read back exactly when it fits 29 bits. */
  lemma VarintRoundTrip(b: seq<byte>, i: nat, v: int)
    requires At(b, i, Varint(v))
    ensures ReadV(b, i) == if -0x1000_0000 <= v < 0x1000_0000 then Got(v, i + |Varint(v)|) else Fail
  {
    ReadFromExact(b, i, ZigZag(v), 0);
  }

  // ------------------------------------------------------------- the buffer

  class Buffer {
    var B: seq<byte>
    var I: nat

    constructor (b: seq<byte>)
      ensures B == b && I == 0
    {
      B, I := b, 0;
    }

    method WriteInt8(v: byte)
      modifies this
      ensures B == old(B) + [v] && I == old(I)
    {
      B := B + [v];
    }

    method WriteInt16(v: int)
      modifies this
      ensures B == old(B) + PutInt(v, 2) && I == old(I)
    {
      B := B + PutInt(v, 2);
    }

    method WriteInt32(v: int)
      modifies this
      ensures B == old(B) + PutInt(v, 4) && I == old(I)
    {
      B := B + PutInt(v, 4);
    }

    method WriteInt64(v: int)
      modifies this
      ensures B == old(B) + PutInt(v, 8) && I == old(I)
    {
      B := B + PutInt(v, 8);
    }

    method WriteUvarint(value: nat)
      modifies this
      ensures B == old(B) + Uvarint(value) && I == old(I)
    {
      var x := value;
      while x >= 128
        invariant B + Uvarint(x) == old(B) + Uvarint(value) && I == old(I)
      {
        var low: byte := 128 + x % 128;
        ghost var rest := Uvarint(x / 128);
        assert B + ([low] + rest) == B + [low] + rest;
        B := B + [low];
        x := x / 128;
      }
      B := B + [x];
    }

    method WriteVarint(v: int)
      modifies this
      ensures B == old(B) + Varint(v) && I == old(I)
    {
      WriteUvarint(ZigZag(v));
    }

    method Append(s: seq<byte>)
      modifies this
      ensures B == old(B) + s && I == old(I)
    {
      B := B + s;
    }

    method ReadInt8() returns (r: Read<int>)
      modifies this
      ensures r == IntAt(B, old(I), 1) && I == (if r.Got? then r.at else old(I)) && B == old(B)
    {
      r := IntAt(B, I, 1);
      if r.Got? { I := r.at; }
    }

    method ReadInt16() returns (r: Read<int>)
      modifies this
      ensures r == IntAt(B, old(I), 2) && I == (if r.Got? then r.at else old(I)) && B == old(B)
    {
      r := IntAt(B, I, 2);
      if r.Got? { I := r.at; }
    }

    method ReadInt32() returns (r: Read<int>)
      modifies this
      ensures r == IntAt(B, old(I), 4) && I == (if r.Got? then r.at else old(I)) && B == old(B)
    {
      r := IntAt(B, I, 4);
      if r.Got? { I := r.at; }
    }

    method ReadInt64() returns (r: Read<int>)
      modifies this
      ensures r == IntAt(B, old(I), 8) && I == (if r.Got? then r.at else old(I)) && B == old(B)
    {
      r := IntAt(B, I, 8);
      if r.Got? { I := r.at; }
    }

    method ReadUvarint() returns (r: Read<nat>)
      modifies this
      ensures r == ReadFrom(B, old(I), 0) && B == old(B)
      ensures r.Got? ==> I == r.at
    {
      hide ReadFrom, Reads, Scaled;
      var x, scale := 0, 1;
      ReadsNothing(B, I);
      for i := 0 to 5
        invariant B == old(B) && Reads(B, old(I), x, scale, I, i)
      {
        ReadsOne(B, old(I), x, scale, I, i);
        if I >= |B| { return Fail; }
        var c := B[I] as int;
        I := I + 1;
        if c < 128 {
          if i == 4 && c > 1 { return Fail; }
          return Got(Scaled(x, scale, c), I);
        }
        x := Scaled(x, scale, c - 128);
        scale := scale * 128;
      }
      ReadsAll(B, old(I), x, scale, I);
      return Fail;
    }

    method ReadVarint() returns (r: Read<int>)
      modifies this
      ensures r == ReadV(B, old(I)) && B == old(B)
      ensures r.Got? ==> I == r.at
    {
      var u := ReadUvarint();
      r := if u.Fail? then Fail else Got(UnZigZag(u.value), u.at);
    }

    method Take(n: nat) returns (s: seq<byte>)
      requires I + n <= |B|
      modifies this
      ensures B == old(B) && s == B[old(I)..old(I) + n] && I == old(I) + n
    {
      s := B[I..I + n];
      I := I + n;
    }
  }

  function Scaled(x: int, scale: int, v: int): int { x + scale * v }

  /** After k bytes that gave x, the rest counts scale-fold. */
  ghost predicate Reads(b: seq<byte>, start: nat, x: int, scale: int, i: nat, k: nat) {
    var whole := ReadFrom(b, start, 0);
    match ReadFrom(b, i, k)
    case Fail => whole == Fail
    case Got(v, at) => whole.Got? && whole.value == Scaled(x, scale, v) && whole.at == at
  }

  lemma ReadsNothing(b: seq<byte>, i: nat)
    ensures Reads(b, i, 0, 1, i, 0)
  {
    if ReadFrom(b, i, 0).Got? { assert Scaled(0, 1, ReadFrom(b, i, 0).value) == ReadFrom(b, i, 0).value; }
  }

  lemma ReadsOne(b: seq<byte>, start: nat, x: int, scale: int, i: nat, k: nat)
    requires Reads(b, start, x, scale, i, k) && k < 5
    ensures i >= |b| ==> ReadFrom(b, start, 0) == Fail
    ensures i < |b| && b[i] < 128 ==>
              var whole := ReadFrom(b, start, 0);
              if k == 4 && b[i] > 1 then whole == Fail
              else whole.Got? && whole.value == Scaled(x, scale, b[i]) && whole.at == i + 1
    ensures i < |b| && b[i] >= 128 ==> Reads(b, start, Scaled(x, scale, b[i] - 128), scale * 128, i + 1, k + 1)
  {
    hide Scaled;
    if i < |b| && b[i] >= 128 && ReadFrom(b, i + 1, k + 1).Got? {
      Shifted(x, scale, b[i] - 128, ReadFrom(b, i + 1, k + 1).value);
    }
  }

  lemma ReadsAll(b: seq<byte>, start: nat, x: int, scale: int, i: nat)
    requires Reads(b, start, x, scale, i, 5)
    ensures ReadFrom(b, start, 0) == Fail
  {}

  lemma Shifted(x: int, scale: int, c: int, v: int)
    ensures Scaled(x, scale, c + 128 * v) == Scaled(Scaled(x, scale, c), scale * 128, v)
  {}
}
