/**
 The LZ77 layer: finding matches, turning them into sequences with repeat
 offsets, and executing sequences (sections 3.1.1.4 and 3.1.1.5 of RFC 8878).
 */
module Lz77 {
  import opened ByteStream
  import opened MatchCopy

  const MIN_MATCH := 3
  const MAX_OFFSET := 0x10_0000
  const MAX_MATCH := 65535 + 3

  // ---------------------------------------------------------- repeat offsets

  /** The three most recent offsets, newest first. */
  datatype Recent = Recent(r1: nat, r2: nat, r3: nat)

  const INITIAL := Recent(1, 4, 8)

  ghost predicate Positive(r: Recent) { r.r1 >= 1 && r.r2 >= 1 && r.r3 >= 1 }

  /** `encodeMatchOffset`: an offset becomes a repeat code or a biased offset. */
  function EncodeOffset(offset: nat, lits: nat, r: Recent): (nat, Recent) {
    if lits > 0 then
      if offset == r.r1 then (1, r)
      else if offset == r.r2 then (2, Recent(offset, r.r1, r.r3))
      else if offset == r.r3 then (3, Recent(offset, r.r1, r.r2))
      else (offset + 3, Recent(offset, r.r1, r.r2))
    else
      if offset == r.r2 then (1, Recent(offset, r.r1, r.r3))
      else if offset == r.r3 then (2, Recent(offset, r.r1, r.r2))
      else if offset + 1 == r.r1 then (3, Recent(offset, r.r1, r.r2))
      else (offset + 3, Recent(offset, r.r1, r.r2))
  }

  /** One less, in 32 bits. */
  function Previous(x: nat): nat { if x == 0 then 0xFFFF_FFFF else x - 1 }

  /** The decoder's rules for the same value. */
  function DecodeOffset(v: nat, lits: nat, r: Recent): (nat, Recent) {
    if v > 3 then (v - 3, Recent(v - 3, r.r1, r.r2))
    else
      var which := if lits == 0 then v + 1 else v;
      if which == 1 then (r.r1, r)
      else if which == 2 then (r.r2, Recent(r.r2, r.r1, r.r3))
      else if which == 3 then (r.r3, Recent(r.r3, r.r1, r.r2))
      else if which == 4 then (Previous(r.r1), Recent(Previous(r.r1), r.r1, r.r2))
      else (which, r)
  }

  /** Encoder and decoder agree on the offset and on the three recent offsets afterwards. */
  lemma OffsetsAgree(offset: nat, lits: nat, r: Recent)
    requires offset >= 1 && Positive(r)
    ensures var (v, r') := EncodeOffset(offset, lits, r);
            v >= 1 && Positive(r') && DecodeOffset(v, lits, r) == (offset, r')
  {}

  // ------------------------------------------------------------ executing

  /** A sequence: literals to copy, bytes to match, and the offset value. */
  datatype Sequence = Sequence(litLen: nat, matchLen: nat, offset: nat)

  datatype ExecError = TooBig | LiteralOverflow | BadOffset

  datatype Exec = Running(buffer: seq<byte>, lits: seq<byte>, recent: Recent) | Failed(error: ExecError)

  /** One sequence: append literals, then a match from the window w and the block. */
  function ExecOne(w: seq<byte>, st: Exec, s: Sequence, limit: nat): Exec {
    if st.Failed? then st
    else if |st.buffer| + |st.lits| > limit then Failed(TooBig)
    else if s.litLen > |st.lits| then Failed(LiteralOverflow)
    else
      var (offset, recent) := DecodeOffset(s.offset, s.litLen, st.recent);
      var buf, rest := st.buffer + st.lits[..s.litLen], st.lits[s.litLen..];
      if s.matchLen == 0 then Running(buf, rest, recent)
      else if !Reachable(w + buf, offset) then Failed(BadOffset)
      else Running(NaiveCopy(w + buf, offset, s.matchLen)[|w|..], rest, recent)
  }

  /** All sequences of a block, from a fresh block buffer. */
  function ExecAll(w: seq<byte>, lits: seq<byte>, recent: Recent, ss: seq<Sequence>, limit: nat): Exec {
    if ss == [] then Running([], lits, recent)
    else
      var n := |ss| - 1;
      ExecOne(w, ExecAll(w, lits, recent, ss[..n], limit), ss[n], limit)
  }

  /** More trailing literals only lengthen what is left over. */
  lemma {:induction false} ExecMoreLiterals(w: seq<byte>, lits: seq<byte>, more: seq<byte>, recent: Recent,
                                            ss: seq<Sequence>, limit: nat, limit': nat)
    requires limit' >= limit + |more| && ExecAll(w, lits, recent, ss, limit).Running?
    ensures var st := ExecAll(w, lits, recent, ss, limit);
            ExecAll(w, lits + more, recent, ss, limit') == Running(st.buffer, st.lits + more, st.recent)
  {
    if ss != [] {
      var n := |ss| - 1;
      var st := ExecAll(w, lits, recent, ss[..n], limit);
      ExecMoreLiterals(w, lits, more, recent, ss[..n], limit, limit');
      ExecOneMore(w, st, more, ss[n], limit, limit');
    }
  }

  lemma ExecOneMore(w: seq<byte>, st: Exec, more: seq<byte>, s: Sequence, limit: nat, limit': nat)
    requires st.Running? && limit' >= limit + |more| && ExecOne(w, st, s, limit).Running?
    ensures var r := ExecOne(w, st, s, limit);
            ExecOne(w, Running(st.buffer, st.lits + more, st.recent), s, limit')
              == Running(r.buffer, r.lits + more, r.recent)
  {
    assert (st.lits + more)[..s.litLen] == st.lits[..s.litLen];
    assert (st.lits + more)[s.litLen..] == st.lits[s.litLen..] + more;
  }

  // ------------------------------------------------------------ finding matches

  /** The n bytes at a are the n bytes at b. */
  predicate Same(src: seq<byte>, a: nat, b: nat, n: nat)
    requires a <= b && b + n <= |src|
  {
    src[a..a + n] == src[b..b + n]
  }

  lemma SameOneMore(src: seq<byte>, a: nat, b: nat, n: nat)
    requires a <= b && b + n < |src|
    ensures Same(src, a, b, n + 1) <==> Same(src, a, b, n) && src[a + n] == src[b + n]
  {
    SliceGrows(src, a, n);
    SliceGrows(src, b, n);
    SnocEqual(src[a..a + n], src[a + n], src[b..b + n], src[b + n]);
  }

  lemma SliceGrows(src: seq<byte>, a: nat, n: nat)
    requires a + n < |src|
    ensures src[a..a + n + 1] == src[a..a + n] + [src[a + n]]
  {}

  lemma SnocEqual(x: seq<byte>, c: byte, y: seq<byte>, d: byte)
    requires |x| == |y|
    ensures x + [c] == y + [d] <==> x == y && c == d
  {
    if x + [c] == y + [d] {
      assert (x + [c])[|x|] == (y + [d])[|y|];
      assert (x + [c])[..|x|] == (y + [d])[..|y|];
    }
  }

  lemma SameAt(src: seq<byte>, a: nat, b: nat, n: nat, j: nat)
    requires a <= b && b + n <= |src| && Same(src, a, b, n) && j < n
    ensures src[a + j] == src[b + j]
  {
    assert src[a..a + n][j] == src[b..b + n][j];
  }

  /** How far the text at a agrees with the text at b, up to cap bytes. */
  function Common(src: seq<byte>, a: nat, b: nat, cap: nat): (n: nat)
    requires a <= b && b + cap <= |src|
    ensures n <= cap && Same(src, a, b, n)
    ensures n < cap ==> src[a + n] != src[b + n]
    decreases cap
  {
    if cap == 0 then 0
    else
      var n := Common(src, a, b, cap - 1);
      SameOneMore(src, a, b, cap - 1);
      if n == cap - 1 && src[a + n] == src[b + n] then cap else n
  }

  /** The bytes a match at i may cover. */
  function Cap(src: seq<byte>, i: nat): nat
    requires i <= |src|
  {
    if |src| - i > MAX_MATCH then MAX_MATCH else |src| - i
  }

  function Start(i: nat): nat { if i < MAX_OFFSET then 0 else i - MAX_OFFSET }

  /**
   What the candidates from position `from` up to i say about the best match:
   none is long enough, or (offset, length) is the longest, and the nearest of
   the longest.
   */
  ghost predicate BestMatch(src: seq<byte>, i: nat, from: nat, offset: nat, length: nat)
    requires i <= |src|
  {
    if length == 0 then
      && offset == 0
      && forall a :: from <= a < i ==> Common(src, a, i, Cap(src, i)) < MIN_MATCH
    else
      && length >= MIN_MATCH && 1 <= offset && from <= i - offset
      && Common(src, i - offset, i, Cap(src, i)) == length
      && (forall a :: from <= a < i ==> Common(src, a, i, Cap(src, i)) <= length)
      && (forall a :: i - offset < a < i ==> Common(src, a, i, Cap(src, i)) < length)
  }

  /** Looking at one more candidate, one byte further back. */
  lemma BestNext(src: seq<byte>, i: nat, from: nat, offset: nat, length: nat)
    requires 1 <= from <= i <= |src| && BestMatch(src, i, from, offset, length)
    ensures var l := Common(src, from - 1, i, Cap(src, i));
            if l >= MIN_MATCH && l > length then BestMatch(src, i, from - 1, i - (from - 1), l)
            else BestMatch(src, i, from - 1, offset, length)
  {}

  lemma BestNone(src: seq<byte>, i: nat)
    requires i <= |src|
    ensures BestMatch(src, i, i, 0, 0)
  {}

  method CommonLength(src: seq<byte>, a: nat, b: nat, cap: nat) returns (l: nat)
    requires a <= b && b + cap <= |src|
    ensures l == Common(src, a, b, cap)
  {
    l := 0;
    while l < cap && src[a + l] == src[b + l]
      invariant l <= cap && Same(src, a, b, l)
    {
      SameOneMore(src, a, b, l);
      l := l + 1;
    }
    CommonUnique(src, a, b, cap, l);
  }

  lemma CommonUnique(src: seq<byte>, a: nat, b: nat, cap: nat, l: nat)
    requires a <= b && b + cap <= |src| && l <= cap && Same(src, a, b, l)
    requires l < cap ==> src[a + l] != src[b + l]
    ensures l == Common(src, a, b, cap)
  {
    var n := Common(src, a, b, cap);
    if n < l { SameAt(src, a, b, l, n); }
    if l < n { SameAt(src, a, b, n, l); }
  }

  /** `findMatch`: the longest match within reach and, among equals, the nearest. */
  method FindMatch(src: seq<byte>, i: nat) returns (offset: nat, length: nat)
    requires i <= |src|
    ensures BestMatch(src, i, Start(i), offset, length) && length <= Cap(src, i)
  {
    hide BestMatch, Common;
    var start := Start(i);
    offset, length := 0, 0;
    var off := i;
    BestNone(src, i);
    while off > start
      invariant start <= off <= i
      invariant BestMatch(src, i, off, offset, length) && length <= Cap(src, i)
    {
      BestNext(src, i, off, offset, length);
      off := off - 1;
      var maxLen := Cap(src, i);
      var l := CommonLength(src, off, i, maxLen);
      if l >= MIN_MATCH && l > length {
        offset, length := i - off, l;
      }
    }
  }

  /** Only one offset and length can be the best match. */
  lemma BestUnique(src: seq<byte>, i: nat, from: nat, o: nat, l: nat, o': nat, l': nat)
    requires i <= |src| && BestMatch(src, i, from, o, l) && BestMatch(src, i, from, o', l')
    ensures o == o' && l == l'
  {
    hide Common;
    if l > 0 { assert Common(src, i - o, i, Cap(src, i)) == l; }
    if l' > 0 { assert Common(src, i - o', i, Cap(src, i)) == l'; }
  }

  /** The best match at i among the candidates from `from` on. */
  ghost function BestFrom(src: seq<byte>, i: nat, from: nat): (m: (nat, nat))
    requires from <= i <= |src|
    ensures BestMatch(src, i, from, m.0, m.1)
    decreases i - from
  {
    if from == i then
      BestNone(src, i);
      (0, 0)
    else
      var m := BestFrom(src, i, from + 1);
      var l := Common(src, from, i, Cap(src, i));
      BestNext(src, i, from + 1, m.0, m.1);
      if l >= MIN_MATCH && l > m.1 then (i - from, l) else m
  }

  // ------------------------------------------------------------ the greedy parse

  predicate Matches(ss: seq<Sequence>) { forall i :: 0 <= i < |ss| ==> ss[i].matchLen >= MIN_MATCH }

  /** The bytes that sequences stand for. */
  function Spent(ss: seq<Sequence>): nat { if ss == [] then 0 else ss[0].litLen + ss[0].matchLen + Spent(ss[1..]) }

  lemma {:induction false} ParseSpent(src: seq<byte>, prev: nat, pos: nat, recent: Recent)
    requires prev <= pos <= |src|
    ensures Spent(ParseFrom(src, prev, pos, recent).sequences) <= |src| - prev
    ensures |ParseFrom(src, prev, pos, recent).literals| <= |src| - prev
    decreases |src| - pos
  {
    hide BestMatch, BestFrom, Common, Same, EncodeOffset, ParseFrom, Spent, Matches;
    if pos == |src| {
      ParseNone(src, prev, recent);
    } else {
      var m := BestFrom(src, pos, Start(pos));
      if m.1 < MIN_MATCH {
        ParseOver(src, prev, pos, recent);
        ParseSpent(src, prev, pos + 1, recent);
      } else {
        MatchFits(src, pos, m.0, m.1);
        ParseOne(src, prev, pos, recent, m.0, m.1);
        var (v, next) := EncodeOffset(m.0, pos - prev, recent);
        ParseSpent(src, pos + m.1, pos + m.1, next);
        SpentOne(Sequence(pos - prev, m.1, v), ParseFrom(src, pos + m.1, pos + m.1, next).sequences);
      }
    }
  }

  lemma {:induction false} ParseMatches(src: seq<byte>, prev: nat, pos: nat, recent: Recent)
    requires prev <= pos <= |src|
    ensures Matches(ParseFrom(src, prev, pos, recent).sequences)
    decreases |src| - pos
  {
    hide BestMatch, BestFrom, Common, Same, EncodeOffset, ParseFrom;
    if pos == |src| {
      ParseNone(src, prev, recent);
    } else {
      var m := BestFrom(src, pos, Start(pos));
      if m.1 < MIN_MATCH {
        ParseOver(src, prev, pos, recent);
        ParseMatches(src, prev, pos + 1, recent);
      } else {
        MatchFits(src, pos, m.0, m.1);
        ParseOne(src, prev, pos, recent, m.0, m.1);
        ParseMatches(src, pos + m.1, pos + m.1, EncodeOffset(m.0, pos - prev, recent).1);
      }
    }
  }

  lemma {:induction false} ParseNone(src: seq<byte>, prev: nat, recent: Recent)
    requires prev <= |src|
    ensures ParseFrom(src, prev, |src|, recent) == Parsing(src[prev..], [], recent) && Spent([]) == 0
  {}

  lemma {:induction false} ParseOver(src: seq<byte>, prev: nat, pos: nat, recent: Recent)
    requires prev <= pos < |src| && BestFrom(src, pos, Start(pos)).1 < MIN_MATCH
    ensures ParseFrom(src, prev, pos, recent) == ParseFrom(src, prev, pos + 1, recent)
  {
    hide BestMatch, BestFrom, Common, Same;
  }

  lemma {:induction false} SpentOne(s: Sequence, ss: seq<Sequence>)
    ensures Spent([s] + ss) == s.litLen + s.matchLen + Spent(ss)
  {
    assert ([s] + ss)[1..] == ss;
  }

  lemma {:induction false} SpentPair(ss: seq<Sequence>, i: nat)
    requires i < |ss|
    ensures ss[i].litLen + ss[i].matchLen <= Spent(ss)
    ensures i + 1 < |ss| ==> ss[i].litLen + ss[i].matchLen + ss[i + 1].litLen + ss[i + 1].matchLen <= Spent(ss)
  {
    if i > 0 {
      SpentPair(ss[1..], i - 1);
      assert ss[1..][i - 1] == ss[i];
      if i + 1 < |ss| { assert ss[1..][i] == ss[i + 1]; }
    } else if |ss| > 1 {
      assert ss[1..][0] == ss[1];
    }
  }

  /** What the encoder makes of an input. */
  datatype Parsing = Parsing(literals: seq<byte>, sequences: seq<Sequence>, recent: Recent)

  /** The parse from pos on, with the literals since prev still to be given out. */
  ghost function ParseFrom(src: seq<byte>, prev: nat, pos: nat, recent: Recent): Parsing
    requires prev <= pos <= |src|
    decreases |src| - pos
  {
    if pos == |src| then Parsing(src[prev..], [], recent)
    else
      var m := BestFrom(src, pos, Start(pos));
      if m.1 < MIN_MATCH then ParseFrom(src, prev, pos + 1, recent)
      else
        MatchFits(src, pos, m.0, m.1);
        var (v, next) := EncodeOffset(m.0, pos - prev, recent);
        var rest := ParseFrom(src, pos + m.1, pos + m.1, next);
        Parsing(src[prev..pos] + rest.literals, [Sequence(pos - prev, m.1, v)] + rest.sequences, rest.recent)
  }

  /** At every position the longest match in reach is taken, the nearest of the longest. */
  ghost function Parse(src: seq<byte>): (p: Parsing)
    ensures Matches(p.sequences)
  {
    ParseMatches(src, 0, 0, INITIAL);
    ParseFrom(src, 0, 0, INITIAL)
  }

  /** The parse of src is what has been given out and the parse of the rest. */
  ghost predicate Parsed(src: seq<byte>, literals: seq<byte>, sequences: seq<Sequence>, prev: nat, pos: nat, recent: Recent)
    requires prev <= pos <= |src|
  {
    var rest := ParseFrom(src, prev, pos, recent);
    Parse(src) == Parsing(literals + rest.literals, sequences + rest.sequences, rest.recent)
  }

  lemma {:induction false} ParseStart(src: seq<byte>)
    ensures Parsed(src, [], [], 0, 0, INITIAL)
  {
    var p := Parse(src);
    assert [] + p.literals == p.literals && [] + p.sequences == p.sequences;
  }

  lemma {:induction false} ParseSkip(src: seq<byte>, literals: seq<byte>, sequences: seq<Sequence>, prev: nat, pos: nat,
                                     recent: Recent, off: nat, ml: nat)
    requires prev <= pos < |src| && Parsed(src, literals, sequences, prev, pos, recent)
    requires BestMatch(src, pos, Start(pos), off, ml) && ml < MIN_MATCH
    ensures Parsed(src, literals, sequences, prev, pos + 1, recent)
  {
    hide BestMatch, Parse;
    var m := BestFrom(src, pos, Start(pos));
    BestUnique(src, pos, Start(pos), off, ml, m.0, m.1);
  }

  lemma {:induction false} ParseMatch(src: seq<byte>, literals: seq<byte>, sequences: seq<Sequence>, prev: nat, pos: nat,
                                      recent: Recent, off: nat, ml: nat)
    requires prev <= pos < |src| && Parsed(src, literals, sequences, prev, pos, recent)
    requires BestMatch(src, pos, Start(pos), off, ml) && ml >= MIN_MATCH && pos + ml <= |src|
    ensures var (v, next) := EncodeOffset(off, pos - prev, recent);
            Parsed(src, literals + src[prev..pos], sequences + [Sequence(pos - prev, ml, v)], pos + ml, pos + ml, next)
  {
    hide BestMatch, Parse, EncodeOffset, ParseFrom;
    var (v, next) := EncodeOffset(off, pos - prev, recent);
    ParseOne(src, prev, pos, recent, off, ml);
    var rest := ParseFrom(src, pos + ml, pos + ml, next);
    Regroup(literals, src[prev..pos], rest.literals);
    Regroup(sequences, [Sequence(pos - prev, ml, v)], rest.sequences);
  }

  lemma {:induction false} ParseOne(src: seq<byte>, prev: nat, pos: nat, recent: Recent, off: nat, ml: nat)
    requires prev <= pos < |src| && pos + ml <= |src| && BestMatch(src, pos, Start(pos), off, ml) && ml >= MIN_MATCH
    ensures var (v, next) := EncodeOffset(off, pos - prev, recent);
            var rest := ParseFrom(src, pos + ml, pos + ml, next);
            ParseFrom(src, prev, pos, recent) ==
            Parsing(src[prev..pos] + rest.literals, [Sequence(pos - prev, ml, v)] + rest.sequences, rest.recent)
  {
    hide BestMatch, BestFrom, Common, Same, EncodeOffset;
    var m := BestFrom(src, pos, Start(pos));
    BestUnique(src, pos, Start(pos), off, ml, m.0, m.1);
  }

  lemma {:induction false} ParseEnd(src: seq<byte>, literals: seq<byte>, sequences: seq<Sequence>, prev: nat, recent: Recent)
    requires prev <= |src| && Parsed(src, literals, sequences, prev, |src|, recent)
    ensures Parse(src) == Parsing(literals + src[prev..], sequences, recent)
  {
    hide Parse;
    assert sequences + [] == sequences;
  }

  // ------------------------------------------------------------ building sequences

  /** A match found at pos is what the decoder's copy will write there. */
  lemma MatchIsCopy(w: seq<byte>, src: seq<byte>, pos: nat, offset: nat, n: nat)
    requires 1 <= offset <= pos && pos + n <= |src|
    requires Same(src, pos - offset, pos, n)
    ensures NaiveCopy(w + src[..pos], offset, n) == w + src[..pos + n]
  {
    var hist, r := w + src[..pos], w + src[..pos + n];
    assert hist <= r by { assert r[..|hist|] == hist; }
    forall i | |hist| <= i < |r| ensures r[i] == r[i - offset] {
      var j := i - |hist|;
      SameAt(src, pos - offset, pos, n, j);
    }
    RepeatsIsNaive(hist, r, offset, n);
  }

  /** One turn of `buildSequences` extends the replay by the literals and the match. */
  lemma SequenceReplays(w: seq<byte>, src: seq<byte>, lits: seq<byte>, ss: seq<Sequence>,
                        recent: Recent, prev: nat, pos: nat, offset: nat, n: nat)
    requires prev <= pos && pos + n <= |src| && n >= MIN_MATCH && 1 <= offset <= pos && Positive(recent)
    requires Same(src, pos - offset, pos, n)
    requires ExecAll(w, lits, INITIAL, ss, prev) == Running(src[..prev], [], recent)
    ensures var (v, recent') := EncodeOffset(offset, pos - prev, recent);
            ExecAll(w, lits + src[prev..pos], INITIAL, ss + [Sequence(pos - prev, n, v)], pos + n)
              == Running(src[..pos + n], [], recent')
  {
    hide ExecOne, EncodeOffset;
    var (v, recent') := EncodeOffset(offset, pos - prev, recent);
    var more, s := src[prev..pos], Sequence(pos - prev, n, v);
    ExecMoreLiterals(w, lits, more, INITIAL, ss, prev, pos + n);
    assert [] + more == more;
    assert (ss + [s])[..|ss|] == ss;
    OneReplays(w, src, recent, prev, pos, offset, n);
  }

  lemma OneReplays(w: seq<byte>, src: seq<byte>, recent: Recent, prev: nat, pos: nat, offset: nat, n: nat)
    requires prev <= pos && pos + n <= |src| && n >= MIN_MATCH && 1 <= offset <= pos && Positive(recent)
    requires Same(src, pos - offset, pos, n)
    ensures var (v, recent') := EncodeOffset(offset, pos - prev, recent);
            ExecOne(w, Running(src[..prev], src[prev..pos], recent), Sequence(pos - prev, n, v), pos + n)
              == Running(src[..pos + n], [], recent')
  {
    hide EncodeOffset, DecodeOffset, NaiveCopy;
    OffsetsAgree(offset, pos - prev, recent);
    var more := src[prev..pos];
    assert more[..pos - prev] == more && more[pos - prev..] == [];
    assert src[..prev] + more == src[..pos];
    MatchIsCopy(w, src, pos, offset, n);
    assert (w + src[..pos + n])[|w|..] == src[..pos + n];
  }

  /**
   `buildSequences`.  For every input and every earlier window, replaying the
   literals and sequences under the decoder's rules rebuilds the input, and the
   decoder ends with the encoder's recent offsets.
   */
  method BuildSequences(src: seq<byte>, ghost w: seq<byte>)
    returns (literals: seq<byte>, sequences: seq<Sequence>, ghost recent: Recent)
    ensures Parsing(literals, sequences, recent) == Parse(src)
    ensures var st := ExecAll(w, literals, INITIAL, sequences, |src|);
            st.Running? && st.buffer + st.lits == src && st.recent == recent
    ensures MIN_MATCH * |sequences| <= |src|
    ensures forall i :: 0 <= i < |sequences| ==> FitsCodes(sequences[i], |src|)
    ensures sequences == [] <==> forall i :: 0 <= i < |src| ==> NoMatch(src, i)
  {
    hide ExecAll, ExecOne, EncodeOffset, BestMatch, NoMatch, Parse, Parsed, ParseFrom, BestFrom, Common, Same;
    literals, sequences := [], [];
    var prev, pos: nat := 0, 0;
    var offsets := INITIAL;
    ExecNone(w, src);
    ParseStart(src);
    while pos < |src|
      invariant 0 <= prev <= pos <= |src| && Positive(offsets) && MIN_MATCH * |sequences| <= prev
      invariant ExecAll(w, literals, INITIAL, sequences, prev) == Running(src[..prev], [], offsets)
      invariant forall i :: 0 <= i < |sequences| ==> FitsCodes(sequences[i], |src|)
      invariant Parsed(src, literals, sequences, prev, pos, offsets)
      invariant sequences == [] ==> forall i :: 0 <= i < pos ==> NoMatch(src, i)
      invariant sequences != [] ==> exists i :: 0 <= i < |src| && !NoMatch(src, i)
    {
      var off, ml := FindMatch(src, pos);
      FoundOrNot(src, pos, off, ml);
      if ml < MIN_MATCH {
        ParseSkip(src, literals, sequences, prev, pos, offsets, off, ml);
        pos := pos + 1;
        continue;
      }
      MatchFits(src, pos, off, ml);
      ParseMatch(src, literals, sequences, prev, pos, offsets, off, ml);
      SequenceReplays(w, src, literals, sequences, offsets, prev, pos, off, ml);
      EncodedRange(off, pos - prev, offsets);
      literals := literals + src[prev..pos];
      var (v, next) := EncodeOffset(off, pos - prev, offsets);
      offsets := next;
      sequences := sequences + [Sequence(pos - prev, ml, v)];
      pos := pos + ml;
      prev := pos;
    }
    recent := offsets;
    ParseEnd(src, literals, sequences, prev, offsets);
    ExecMoreLiterals(w, literals, src[prev..], INITIAL, sequences, prev, |src|);
    literals := literals + src[prev..];
    assert [] + src[prev..] == src[prev..];
    assert src[..prev] + src[prev..] == src;
  }

  /** No earlier position within reach starts a match long enough. */
  ghost predicate NoMatch(src: seq<byte>, i: nat)
    requires i <= |src|
  {
    forall a :: Start(i) <= a < i ==> Common(src, a, i, Cap(src, i)) < MIN_MATCH
  }

  lemma FoundOrNot(src: seq<byte>, i: nat, offset: nat, length: nat)
    requires i <= |src| && BestMatch(src, i, Start(i), offset, length)
    ensures length < MIN_MATCH <==> NoMatch(src, i)
  {
    hide Common;
    if length > 0 { assert Common(src, i - offset, i, Cap(src, i)) == length; }
  }

  lemma ExecNone(w: seq<byte>, src: seq<byte>)
    ensures ExecAll(w, [], INITIAL, [], 0) == Running(src[..0], [], INITIAL)
  {}

  lemma MatchFits(src: seq<byte>, pos: nat, off: nat, ml: nat)
    requires pos <= |src| && BestMatch(src, pos, Start(pos), off, ml) && ml >= MIN_MATCH
    ensures 1 <= off <= pos && off <= MAX_OFFSET && ml <= MAX_MATCH && pos + ml <= |src|
    ensures Same(src, pos - off, pos, ml)
  {}

  lemma EncodedRange(off: nat, lits: nat, r: Recent)
    requires off >= 1 && Positive(r)
    ensures 1 <= EncodeOffset(off, lits, r).0 <= off + 3 && Positive(EncodeOffset(off, lits, r).1)
  {}

  /** The ranges the code tables must cover. */
  ghost predicate FitsCodes(s: Sequence, size: nat) {
    && s.litLen + s.matchLen <= size
    && MIN_MATCH <= s.matchLen <= MAX_MATCH
    && 1 <= s.offset <= MAX_OFFSET + 3 && s.offset <= size + 3
  }
}
