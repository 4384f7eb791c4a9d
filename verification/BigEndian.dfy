/** Fixed-width big-endian integers in two's complement, as the wire carries them. */
module BigEndian {
  import opened Arith
  import opened ByteStream

  /** 256 to the n. */
  function Base(n: nat): (b: nat)
    ensures b > 0
  {
    if n == 0 then 1 else 256 * Base(n - 1)
  }

  function BE(s: seq<byte>): (v: nat) {
    if s == [] then 0 else BE(s[..|s| - 1]) * 256 + s[|s| - 1] as int
  }

  function PutBE(x: nat, n: nat): (s: seq<byte>)
    ensures |s| == n
  {
    if n == 0 then [] else PutBE(x / 256, n - 1) + [x % 256]
  }

  /** n bytes hold any number below 256 to the n. */
  lemma {:induction false} PutValue(x: nat, n: nat)
    requires x < Base(n)
    ensures BE(PutBE(x, n)) == x
  {
    if n > 0 {
      PutValue(x / 256, n - 1);
      assert PutBE(x, n)[..n - 1] == PutBE(x / 256, n - 1);
    }
  }

  /** The n-byte number that stands for v, and the signed number that u stands for. */
  function Unsigned(v: int, n: nat): (u: nat)
    ensures u < Base(n)
  {
    v % Base(n)
  }

  function Signed(u: nat, n: nat): int { if 2 * u < Base(n) then u else u - Base(n) }

  predicate FitsInt(v: int, n: nat) { -(Base(n) / 2) <= v < Base(n) / 2 }

  /** A conversion to n bytes. */
  function AsInt(v: int, n: nat): int { Signed(Unsigned(v, n), n) }

  lemma {:induction false} BaseEven(n: nat)
    requires n > 0
    ensures Base(n) % 2 == 0
  {
    var half := 128 * Base(n - 1);
    assert Base(n) == 2 * half;
  }

  /** Conversion keeps exactly the numbers that fit. */
  lemma {:induction false} AsIntIff(v: int, n: nat)
    requires n > 0
    ensures FitsInt(AsInt(v, n), n) && (AsInt(v, n) == v <==> FitsInt(v, n))
  {
    hide Base;
    BaseEven(n);
    var b := Base(n);
    if FitsInt(v, n) { ModSmall(v, b); }
  }

  lemma {:induction false} ModSmall(v: int, b: nat)
    requires v + b > 0 && v < b
    ensures v % b == if v >= 0 then v else v + b
  {
    if v >= 0 { DivModUnique(v, b, 0, v); } else { DivModUnique(v, b, -1, v + b); }
  }

  function PutInt(v: int, n: nat): (s: seq<byte>)
    ensures |s| == n
  {
    PutBE(Unsigned(v, n), n)
  }

  function GetInt(s: seq<byte>): int { Signed(BE(s), |s|) }

  lemma {:induction false} IntRoundTrip(v: int, n: nat)
    ensures GetInt(PutInt(v, n)) == AsInt(v, n)
  {
    PutValue(Unsigned(v, n), n);
  }
}
