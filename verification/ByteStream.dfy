/** Byte strings read as little-endian numbers, and bit fields of them. */
module ByteStream {
  import opened Arith

  type byte = x: int | 0 <= x < 256

  /** Pieces put together. */
  function Joined(pieces: seq<seq<byte>>): seq<byte> {
    if pieces == [] then [] else Joined(pieces[..|pieces| - 1]) + pieces[|pieces| - 1]
  }

  lemma {:induction false} JoinedFirst(pieces: seq<seq<byte>>)
    requires pieces != []
    ensures Joined(pieces) == pieces[0] + Joined(pieces[1..])
  {
    hide Joined;
    var n := |pieces| - 1;
    JoinedLast(pieces);
    if n == 0 {
      NothingJoined();
      assert pieces[..0] == pieces[1..] == [];
    } else {
      var rest := pieces[1..];
      JoinedFirst(pieces[..n]);
      JoinedLast(rest);
      assert pieces[..n][1..] == rest[..n - 1];
      Regroup(pieces[0], Joined(rest[..n - 1]), pieces[n]);
    }
  }

  lemma {:induction false} JoinedLast(pieces: seq<seq<byte>>)
    requires pieces != []
    ensures Joined(pieces) == Joined(pieces[..|pieces| - 1]) + pieces[|pieces| - 1]
  {}

  lemma {:induction false} NothingJoined()
    ensures Joined([]) == []
  {}

  lemma {:induction false} Regroup<T>(a: seq<T>, b: seq<T>, c: seq<T>)
    ensures a + (b + c) == a + b + c
  {}

  /** A number in so many bits. */
  datatype Item = Item(value: nat, width: nat)

  /** The little-endian value of a byte string. */
  function LE(s: seq<byte>): (v: nat)
  {
    if s == [] then 0 else LE(s[..|s| - 1]) + s[|s| - 1] * Pow2(8 * (|s| - 1))
  }

  lemma {:induction false} LEBound(s: seq<byte>)
    ensures LE(s) < Pow2(8 * |s|)
  {
    if s == [] {
    } else {
      var n := |s| - 1;
      LEBound(s[..n]);
      Pow2Add(8, 8 * n);
      assert Pow2(8) == 256;
      MulMonotone(s[n], 255, Pow2(8 * n));
    }
  }

  lemma LESnoc(s: seq<byte>, c: byte)
    ensures LE(s + [c]) == LE(s) + c * Pow2(8 * |s|)
  {
    assert (s + [c])[..|s|] == s;
  }

  lemma {:induction false} LEConcat(a: seq<byte>, b: seq<byte>)
    ensures LE(a + b) == LE(a) + LE(b) * Pow2(8 * |a|)
  {
    if b == [] {
      assert a + b == a;
    } else {
      var n := |b| - 1;
      var c := b[n];
      LEConcat(a, b[..n]);
      LESnoc(a + b[..n], c);
      assert (a + b[..n]) + [c] == a + b;
      ShiftedDigit(LE(b[..n]), c, n, |a|);
    }
  }

  lemma ShiftedDigit(low: nat, c: nat, n: nat, m: nat)
    ensures (low + c * Pow2(8 * n)) * Pow2(8 * m) == low * Pow2(8 * m) + c * Pow2(8 * (m + n))
  {
    Pow2Add(8 * n, 8 * m);
    MulDistributes(low, c * Pow2(8 * n), Pow2(8 * m));
    MulAssoc(c, Pow2(8 * n), Pow2(8 * m));
  }

  /** The n-bit field of x that starts at bit p. */
  function Field(x: int, p: nat, n: nat): (v: nat)
    ensures v < Pow2(n)
  {
    (x / Pow2(p)) % Pow2(n)
  }

  /** The field of a byte string. */
  function BitsAt(data: seq<byte>, p: nat, n: nat): (v: nat)
    ensures v < Pow2(n)
  {
    Field(LE(data), p, n)
  }

  /** Shifting twice is shifting by the sum. */
  lemma ShiftShift(x: nat, a: nat, b: nat)
    ensures x / Pow2(a) / Pow2(b) == x / Pow2(a + b)
  {
    DivDiv(x, Pow2(a), Pow2(b));
    Pow2Add(a, b);
  }

  /** Adding a multiple of 2^a shifts through. */
  lemma ShiftAdd(x: nat, y: nat, a: nat)
    ensures (x + y * Pow2(a)) / Pow2(a) == x / Pow2(a) + y
    ensures (x + y * Pow2(a)) % Pow2(a) == x % Pow2(a)
  {
    var q, r := x / Pow2(a), x % Pow2(a);
    assert x == q * Pow2(a) + r;
    assert (q + y) * Pow2(a) == q * Pow2(a) + y * Pow2(a);
    DivModUnique(x + y * Pow2(a), Pow2(a), q + y, r);
  }

  lemma SplitScale(y: nat, a: nat, b: nat)
    ensures y * Pow2(a + b) == (y * Pow2(a)) * Pow2(b)
  {
    Pow2Add(a, b);
    MulAssoc(y, Pow2(a), Pow2(b));
  }

  lemma ShiftHigh(x: nat, y: nat, top: nat, p: nat)
    requires p <= top
    ensures (x + y * Pow2(top)) / Pow2(p) == x / Pow2(p) + y * Pow2(top - p)
  {
    SplitScale(y, top - p, p);
    ShiftAdd(x, y * Pow2(top - p), p);
  }

  lemma ModHigh(x: nat, y: nat, top: nat, n: nat)
    requires n <= top
    ensures (x + y * Pow2(top)) % Pow2(n) == x % Pow2(n)
  {
    SplitScale(y, top - n, n);
    ShiftAdd(x, y * Pow2(top - n), n);
  }

  /** High bits do not matter to a field below them. */
  lemma FieldIgnoresHigh(x: nat, y: nat, top: nat, p: nat, n: nat)
    requires p + n <= top
    ensures Field(x + y * Pow2(top), p, n) == Field(x, p, n)
  {
    hide Pow2;
    var whole, hi := x + y * Pow2(top), y * Pow2(top - p);
    assert whole / Pow2(p) == x / Pow2(p) + hi by { ShiftHigh(x, y, top, p); }
    assert (x / Pow2(p) + hi) % Pow2(n) == (x / Pow2(p)) % Pow2(n) by { ModHigh(x / Pow2(p), y, top - p, n); }
  }

  /** A field of a field. */
  lemma FieldOfField(x: nat, p: nat, n: nat, a: nat, b: nat)
    requires a + b <= n
    ensures Field(Field(x, p, n), a, b) == Field(x, p + a, b)
  {
    hide Pow2;
    var y := x / Pow2(p);
    assert y == y / Pow2(n) * Pow2(n) + y % Pow2(n) by { DivParts(y, Pow2(n)); }
    FieldIgnoresHigh(y % Pow2(n), y / Pow2(n), n, a, b);
    ShiftShift(x, p, a);
  }

  /** Fields of a prefix are fields of the whole. */
  lemma BitsAtPrefix(data: seq<byte>, off: nat, p: nat, n: nat)
    requires off <= |data| && p + n <= 8 * off
    ensures BitsAt(data[..off], p, n) == BitsAt(data, p, n)
  {
    LEConcat(data[..off], data[off..]);
    assert data[..off] + data[off..] == data;
    FieldIgnoresHigh(LE(data[..off]), LE(data[off..]), 8 * off, p, n);
  }
}
