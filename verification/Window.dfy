/** The decoder's history: the circular window of past blocks. */
module Window {
  import opened ByteStream

  /** The last n bytes. */
  function Last(s: seq<byte>, n: nat): (r: seq<byte>)
    ensures |r| == if |s| <= n then |s| else n
  {
    if |s| <= n then s else s[|s| - n..]
  }

  lemma LastShort(s: seq<byte>, n: nat)
    ensures |s| <= n ==> Last(s, n) == s
    ensures n == 0 ==> Last(s, n) == []
  {}

  lemma LastSuffix(a: seq<byte>, b: seq<byte>)
    ensures Last(a + b, |b|) == b
  {}

  /** Overwrite d from position `at` with as much of buf as fits. */
  function Overwrite(d: seq<byte>, at: nat, buf: seq<byte>): (r: seq<byte>)
    requires at <= |d|
    ensures |r| == |d|
  {
    var n := Fits(d, at, buf);
    d[..at] + buf[..n] + d[at + n..]
  }

  function Fits(d: seq<byte>, at: nat, buf: seq<byte>): nat
    requires at <= |d|
  {
    if |buf| <= |d| - at then |buf| else |d| - at
  }

  /** Keeping the last n bytes after every step is keeping the last n bytes of everything. */
  lemma LastOfLast(a: seq<byte>, b: seq<byte>, n: nat)
    ensures Last(Last(a, n) + b, n) == Last(a + b, n)
  {
    var l := Last(a, n);
    if |a| > n {
      assert a == a[..|a| - n] + l;
      assert a + b == a[..|a| - n] + (l + b);
    }
  }

  class CircularWindow {
    var size: nat
    var data: seq<byte>
    var off: nat

    ghost predicate Valid()
      reads this
    {
      && |data| <= size && off <= |data|
      && (|data| < size ==> off == 0)
    }

    /** The stored bytes, oldest first. */
    ghost function Contents(): seq<byte>
      requires Valid()
      reads this
    {
      data[off..] + data[..off]
    }

    /** `reset`. */
    constructor (size: nat)
      ensures Valid() && this.size == size && Contents() == []
    {
      this.size, this.data, this.off := size, [], 0;
    }

    /** The built-in copy into a part of the buffer. */
    method CopyInto(at: nat, buf: seq<byte>) returns (n: nat)
      requires at <= |data|
      modifies this`data
      ensures n == Fits(old(data), at, buf) && data == Overwrite(old(data), at, buf)
    {
      n := Fits(data, at, buf);
      data := data[..at] + buf[..n] + data[at + n..];
    }

    method Save(buf: seq<byte>)
      requires Valid()
      modifies this
      ensures Valid() && size == old(size)
      ensures Contents() == Last(old(Contents()) + buf, size)
    {
      hide Overwrite, Last;
      LastShort(Contents() + buf, size);
      if size == 0 { return; }
      if |buf| == 0 {
        assert Contents() + buf == Contents();
        return;
      }
      if |buf| >= size {
        var from := |buf| - size;
        LastSuffix(Contents() + buf[..from], buf[from..]);
        assert Contents() + buf == (Contents() + buf[..from]) + buf[from..];
        data := buf[from..];
        off := 0;
        return;
      }
      if size == |data| { Rotate(buf); } else { Fill(buf); }
    }

    /** A full window: overwrite the oldest bytes, around the end if need be. */
    method Rotate(buf: seq<byte>)
      requires Valid() && |data| == size && 0 < |buf| < size
      modifies this
      ensures Valid() && size == old(size)
      ensures Contents() == Last(old(Contents()) + buf, size)
    {
      hide Overwrite, Last;
      RotateWithin(data, off, buf);
      RotateAround(data, off, buf);
      var n := CopyInto(off, buf);
      if n == |buf| {
        off := off + n;
      } else {
        off := CopyInto(0, buf[n..]);
      }
    }

    /** A window not yet full: append, and start over at the front if it fills up. */
    method Fill(buf: seq<byte>)
      requires Valid() && |data| < size && 0 < |buf| < size
      modifies this
      ensures Valid() && size == old(size)
      ensures Contents() == Last(old(Contents()) + buf, size)
    {
      hide Overwrite, Last;
      LastShort(Contents() + buf, size);
      assert Contents() == data;
      var free := size - |data|;
      if free >= |buf| {
        data := data + buf;
        assert Contents() == data;
      } else {
        FillAround(data, buf, size);
        data := data + buf[..free];
        off := CopyInto(0, buf[free..]);
      }
    }

    /**
     Append the stored bytes between two indices.  At most one of the indices
     wraps around the end of the buffer.
     */
    method AppendTo(buf: seq<byte>, from: nat, to: nat) returns (r: seq<byte>)
      requires Valid() && from <= to <= |data|
      ensures |Contents()| == |data|
      ensures r == buf + Contents()[from..to]
    {
      var f, t := from + off, to + off;
      var wrap := false;
      if f > |data| {
        f := f - |data|;
        wrap := !wrap;
      }
      if t > |data| {
        t := t - |data|;
        wrap := !wrap;
      }
      RotatedSlice(data, off, from, to);
      if wrap {
        r := buf + data[f..];
        r := r + data[..t];
        assert r == buf + (data[f..] + data[..t]);
      } else {
        r := buf + data[f..t];
      }
    }
  }

  /** A slice of a rotated sequence lies before the seam, behind it or across it. */
  lemma RotatedSlice(d: seq<byte>, off: nat, from: nat, to: nat)
    requires off <= |d| && from <= to <= |d|
    ensures var s := (d[off..] + d[..off])[from..to];
            if to + off <= |d| then s == d[from + off..to + off]
            else if from + off > |d| then s == d[from + off - |d|..to + off - |d|]
            else s == d[from + off..] + d[..to + off - |d|]
  {
    var x, y := d[off..], d[..off];
    if to + off <= |d| {
      assert (x + y)[from..to] == x[from..to];
      SliceOfSlice(d, off, |d|, from, to);
    } else if from + off > |d| {
      assert (x + y)[from..to] == y[from - |x|..to - |x|];
      SliceOfSlice(d, 0, off, from - |x|, to - |x|);
    } else {
      assert (x + y)[from..to] == x[from..] + y[..to - |x|];
      SliceOfSlice(d, off, |d|, from, |x|);
      SliceOfSlice(d, 0, off, 0, to - |x|);
    }
  }

  lemma SliceOfSlice(d: seq<byte>, p: nat, q: nat, a: nat, b: nat)
    requires p <= q <= |d| && a <= b <= q - p
    ensures d[p..q][a..b] == d[p + a..p + b]
  {
    var x, y := d[p..q][a..b], d[p + a..p + b];
    assert |x| == |y|;
    forall i | 0 <= i < |x| ensures x[i] == y[i] { assert x[i] == d[p..q][a + i] == d[p + a + i]; }
  }

  /** A full ring overwritten without passing its end. */
  lemma RotateWithin(d: seq<byte>, off: nat, buf: seq<byte>)
    requires off <= |d|
    ensures off + |buf| <= |d| ==>
              var d', at := Overwrite(d, off, buf), off + |buf|;
              d'[at..] + d'[..at] == Last(d[off..] + d[..off] + buf, |d|)
  {
    if off + |buf| <= |d| {
      var d', at := Overwrite(d, off, buf), off + |buf|;
      assert d'[..at] == d[..off] + buf && d'[at..] == d[at..];
      assert d[off..] == d[off..at] + d[at..];
      var kept := d[at..] + (d[..off] + buf);
      assert d[off..] + d[..off] + buf == d[off..at] + kept;
      LastSuffix(d[off..at], kept);
    }
  }

  /** A full ring overwritten past its end. */
  lemma RotateAround(d: seq<byte>, off: nat, buf: seq<byte>)
    requires off <= |d| && |buf| < |d|
    ensures |d| - off < |buf| ==>
              var n := |d| - off;
              var m := |buf| - n;
              var d' := Overwrite(Overwrite(d, off, buf), 0, buf[n..]);
              d'[m..] + d'[..m] == Last(d[off..] + d[..off] + buf, |d|)
  {
    if |d| - off < |buf| {
      var n := |d| - off;
      var m := |buf| - n;
      var d1 := Overwrite(d, off, buf);
      assert d1 == d[..off] + buf[..n];
      var d' := Overwrite(d1, 0, buf[n..]);
      assert d' == buf[n..] + d1[m..] && d1[m..] == d[m..off] + buf[..n];
      assert buf == buf[..n] + buf[n..];
      var kept := d[m..off] + buf;
      assert d'[m..] + d'[..m] == kept;
      assert d[off..] + d[..off] + buf == (d[off..] + d[..m]) + kept;
      LastSuffix(d[off..] + d[..m], kept);
    }
  }

  /** A ring that fills up and starts to wrap in the same call. */
  lemma FillAround(d: seq<byte>, buf: seq<byte>, size: nat)
    requires |d| < size < |d| + |buf| && |buf| < size
    ensures var free := size - |d|;
            var m := |buf| - free;
            var d' := Overwrite(d + buf[..free], 0, buf[free..]);
            d'[m..] + d'[..m] == Last(d + buf, size)
  {
    var free := size - |d|;
    var m := |buf| - free;
    var d' := Overwrite(d + buf[..free], 0, buf[free..]);
    assert d' == buf[free..] + (d[m..] + buf[..free]);
    assert buf == buf[..free] + buf[free..];
    var kept := d[m..] + buf;
    assert d'[m..] + d'[..m] == kept;
    assert d + buf == d[..m] + kept;
    LastSuffix(d[..m], kept);
  }

  // ------------------------------------------------------------- any run of saves

  /** After any run of saves the window holds the last `size` bytes of everything saved. */
  method SaveAll(size: nat, bufs: seq<seq<byte>>) returns (w: CircularWindow)
    ensures w.Valid() && w.size == size && w.Contents() == Last(Joined(bufs), size)
  {
    w := new CircularWindow(size);
    for i := 0 to |bufs|
      invariant fresh(w) && w.Valid() && w.size == size
      invariant w.Contents() == Last(Joined(bufs[..i]), size)
    {
      LastOfLast(Joined(bufs[..i]), bufs[i], size);
      assert bufs[..i + 1][..i] == bufs[..i];
      w.Save(bufs[i]);
    }
    assert bufs[..|bufs|] == bufs;
  }
}
