/** Copying a match: the byte-at-a-time meaning and the decoder's chunked copy. */
module MatchCopy {
  import opened ByteStream
  import opened Window

  /** Copy n bytes one by one, each from `offset` bytes back. */
  function NaiveCopy(hist: seq<byte>, offset: nat, n: nat): (r: seq<byte>)
    requires 1 <= offset <= |hist|
    ensures |r| == |hist| + n
    decreases n
  {
    if n == 0 then hist else
      var h := NaiveCopy(hist, offset, n - 1);
      h + [h[|h| - offset]]
  }

  /** From position `from` on, every byte repeats the one `offset` bytes before it. */
  ghost predicate Repeats(s: seq<byte>, offset: nat, from: nat) {
    && 1 <= offset <= from
    && forall i :: from <= i < |s| ==> s[i] == s[i - offset]
  }

  /** The byte-at-a-time copy is the only extension that repeats. */
  lemma {:induction false} RepeatsIsNaive(hist: seq<byte>, r: seq<byte>, offset: nat, n: nat)
    requires |r| == |hist| + n && hist <= r && Repeats(r, offset, |hist|)
    ensures r == NaiveCopy(hist, offset, n)
  {
    if n == 0 {
      assert r == hist;
    } else {
      var m := |r| - 1;
      assert r[..m][..|hist|] == hist;
      RepeatsIsNaive(hist, r[..m], offset, n - 1);
      assert r == r[..m] + [r[m]];
    }
  }

  lemma {:induction false} NaiveExtends(hist: seq<byte>, offset: nat, n: nat)
    requires 1 <= offset <= |hist|
    ensures hist <= NaiveCopy(hist, offset, n)
  {
    if n > 0 { NaiveExtends(hist, offset, n - 1); }
  }

  /** Bytes a multiple of the offset apart are equal where the sequence repeats. */
  lemma {:induction false} RepeatsFar(s: seq<byte>, offset: nat, from: nat, i: nat, m: nat)
    requires offset >= 1 && offset <= from && i + m * offset < |s| && i + offset >= from
    requires forall j :: from <= j < |s| ==> s[j] == s[j - offset]
    ensures s[i + m * offset] == s[i]
  {
    if m > 0 {
      assert (m - 1) * offset == m * offset - offset;
      RepeatsFar(s, offset, from, i, m - 1);
      FarIndex(i, m, offset, from);
    }
  }

  lemma FarIndex(i: nat, m: nat, offset: nat, from: nat)
    requires m >= 1 && offset >= 1 && i + offset >= from
    ensures i + m * offset >= from
  {
    assert m * offset >= offset;
  }

  /**
   One step of the doubling loop.  The bytes from `start` on are m copies of a
   period of `offset` bytes; appending a prefix of them continues the period.
   */
  lemma DoublingStep(s: seq<byte>, offset: nat, start: nat, m: nat, n: nat)
    requires offset >= 1 && m >= 1 && start + m * offset == |s| && n <= m * offset
    requires forall i :: start + offset <= i < |s| ==> s[i] == s[i - offset]
    ensures var r := s + s[start..start + n];
            forall i :: start + offset <= i < |r| ==> r[i] == r[i - offset]
  {
    var r := s + s[start..start + n];
    forall i | start + offset <= i < |r| ensures r[i] == r[i - offset] {
      if i >= |s| {
        var j := i - |s|;
        if j < offset {
          assert m * offset - offset == (m - 1) * offset;
          RepeatsFar(s, offset, start + offset, start + j, m - 1);
        } else {
          assert r[i] == s[start + j] == s[start + j - offset];
        }
      }
    }
  }

  /** The doubling loop of `copyFromWindow`. */
  method ExtendPeriod(buffer: seq<byte>, start: nat, offset: nat, n: nat) returns (r: seq<byte>)
    requires offset >= 1 && (n > 0 ==> start + offset == |buffer|) && |buffer| <= start + offset
    ensures |r| == |buffer| + n && buffer <= r
    ensures forall i :: start + offset <= i < |r| ==> r[i] == r[i - offset]
  {
    r := buffer;
    var left := n;
    ghost var m := 1;
    while left > 0
      invariant 0 <= left <= n && |r| + left == |buffer| + n && buffer <= r
      invariant m >= 1 && (left > 0 ==> start + m * offset == |r|)
      invariant forall i :: start + offset <= i < |r| ==> r[i] == r[i - offset]
      decreases left
    {
      MultiplePositive(m, offset);
      var copy := |r| - start;
      if copy > left { copy := left; }
      DoublingStep(r, offset, start, m, copy);
      r := r + r[start..start + copy];
      left := left - copy;
      assert (2 * m) * offset == m * offset + m * offset;
      m := 2 * m;
    }
  }

  lemma MultiplePositive(m: nat, offset: nat)
    requires m >= 1 && offset >= 1
    ensures m * offset >= 1
  {}

  datatype CopyOutcome = Copied | ZeroOffset | OffsetPastWindow

  /** What the copy may reach back into. */
  predicate Reachable(hist: seq<byte>, offset: nat) { 1 <= offset <= |hist| }

  /** Byte i of the block repeats the byte `offset` before it, in the block or in the window. */
  ghost predicate Continues(w: seq<byte>, r: seq<byte>, offset: nat, i: nat)
    requires i < |r| && offset <= |w| + i
  {
    r[i] == if i >= offset then r[i - offset] else w[|w| + i - offset]
  }

  /** Chunked bytes that continue the history at a distance form the byte-at-a-time copy. */
  lemma CopyIsNaive(w: seq<byte>, buf: seq<byte>, r: seq<byte>, offset: nat, n: nat)
    requires Reachable(w + buf, offset) && |r| == |buf| + n && buf <= r
    requires forall i :: |buf| <= i < |r| ==> Continues(w, r, offset, i)
    ensures w + r == NaiveCopy(w + buf, offset, n)
  {
    var s := w + r;
    assert w + buf <= s by { assert s[..|w| + |buf|] == w + buf; }
    forall i | |w + buf| <= i < |s| ensures s[i] == s[i - offset] {
      var j := i - |w|;
      assert |buf| <= j < |r| && s[i] == r[j];
      assert Continues(w, r, offset, j);
      if j >= offset {
        assert s[i - offset] == r[j - offset];
      } else {
        assert s[i - offset] == w[|w| + j - offset];
      }
    }
    RepeatsIsNaive(w + buf, s, offset, n);
  }

  class BlockReader {
    const window: CircularWindow
    var buffer: seq<byte>

    constructor (window: CircularWindow)
      ensures this.window == window && buffer == []
    {
      this.window, this.buffer := window, [];
    }

    ghost function History(): seq<byte>
      requires window.Valid()
      reads this, window
    {
      window.Contents() + buffer
    }

    /**
     Copy n bytes from `offset` bytes back, out of the window, the block or
     both, even when source and target overlap.  The result is the copy made
     byte by byte, for every offset that points into the history; for every
     other offset it is an error and nothing is copied.
     */
    method CopyFromWindow(offset: nat, n: nat) returns (outcome: CopyOutcome)
      requires window.Valid()
      modifies this`buffer
      ensures outcome == Copied <==> Reachable(old(History()), offset)
      ensures outcome == ZeroOffset <==> offset == 0
      ensures outcome == Copied ==> History() == NaiveCopy(old(History()), offset, n)
      ensures outcome != Copied ==> buffer == old(buffer)
    {
      if offset == 0 { return ZeroOffset; }
      ghost var w, buf := window.Contents(), buffer;
      var start := 0;
      var left := n;
      var lenBlock := |buffer|;
      if lenBlock < offset {
        var lenWindow := |window.data|;
        var copy := offset - lenBlock;
        if copy > lenWindow { return OffsetPastWindow; }
        var windowOffset := lenWindow - copy;
        if copy > n { copy := n; }
        buffer := window.AppendTo(buffer, windowOffset, windowOffset + copy);
        left := n - copy;
      } else {
        start := lenBlock - offset;
      }
      buffer := ExtendPeriod(buffer, start, offset, left);
      CopyIsNaive(w, buf, buffer, offset, n);
      outcome := Copied;
    }
  }
}
