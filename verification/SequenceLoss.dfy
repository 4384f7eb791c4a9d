/**
 What a lost packed number does to a block: because the encoder takes the longest
 match and the nearest of the longest, no other sequence rebuilds the input.
 */
module SequenceLoss {
  import opened Arith
  import opened ByteStream
  import opened BitStack
  import opened MatchCopy
  import opened SequenceCodes
  import opened Lz77
  import opened SequenceStream
  import opened SequenceReader

  // ------------------------------------------------------------- a cut number has smaller fields

  lemma ModSmaller(y: nat, i: nat, b: nat)
    ensures (y % Pow2(i)) % Pow2(b) <= y % Pow2(b)
  {
    hide Pow2;
    if i <= b {
      ModMod(y, b, i);
      ModAtMost(y % Pow2(b), Pow2(i));
      ModAtMost(y % Pow2(i), Pow2(b));
    } else {
      ModMod(y, i, b);
    }
  }

  lemma ModAtMost(x: nat, d: nat)
    requires d >= 1
    ensures x % d <= x
  {
    DivParts(x, d);
    DivNonNegative(x, d);
    MulMonotone(0, x / d, d);
  }

  lemma DivMonotone(x: nat, y: nat, d: nat)
    requires x <= y && d >= 1
    ensures x / d <= y / d
  {
    DivParts(x, d);
    DivParts(y, d);
    if x / d > y / d { MulMonotone(y / d + 1, x / d, d); MulDistributes(y / d, 1, d); }
  }

  /** The quotient of a cut number is the quotient, cut. */
  lemma CutQuotient(x: nat, j: nat, a: nat)
    ensures (x % Pow2(j)) / Pow2(a) == if j <= a then 0 else (x / Pow2(a)) % Pow2(j - a)
  {
    hide Pow2;
    if j <= a {
      Pow2Monotone(j, a);
      DivModUnique(x % Pow2(j), Pow2(a), 0, x % Pow2(j));
    } else {
      FieldOfField(x, 0, j, a, j - a);
      WholeField(x, j);
      FieldOfSmall(x % Pow2(j), a, j - a);
    }
  }

  lemma CutFields(s: Sequence, x: nat, j: nat)
    ensures LlField(s, x % Pow2(j)) <= LlField(s, x)
    ensures MlField(s, x % Pow2(j)) <= MlField(s, x)
    ensures OfField(s, x % Pow2(j)) <= OfField(s, x)
  {
    hide Pow2, LlBits, MlBits, Ll, Ml;
    var a, b := LlBits(Ll(s)), MlBits(Ml(s));
    ModSmaller(x, j, a);
    CutQuotient(x, j, a);
    DivNonNegative(x, Pow2(a));
    if j > a { ModSmaller(x / Pow2(a), j - a, b); }
    ModAtMost(x, Pow2(j));
    DivMonotone(x % Pow2(j), x, Pow2(a));
    DivNonNegative(x % Pow2(j), Pow2(a));
    DivMonotone((x % Pow2(j)) / Pow2(a), x / Pow2(a), Pow2(b));
    ZeroMod(Pow2(b));
  }

  lemma ZeroMod(d: nat)
    requires d >= 1
    ensures 0 % d == 0
  {}

  ghost predicate Smaller(s: Sequence, s': Sequence) {
    s'.litLen <= s.litLen && s'.matchLen <= s.matchLen && s'.offset <= s.offset
  }

  /** A masked write never makes a sequence larger. */
  lemma SeenSmaller(s: Sequence)
    requires s.matchLen >= MIN_MATCH && s.offset >= 1 && ExtraBits(s) <= 63
    ensures Smaller(s, SeenOne(s)) && SeenOne(s).offset >= Pow2(Of(s))
  {
    DecodedIs(s);
    hide Pow2, LlBits, MlBits, Ll, Ml, Of, Packed, LlBase, MlBase, LlField, MlField, OfField;
    PackedFields(s);
    MaskedCut(Packed(s), ExtraBits(s));
    CutFields(s, Packed(s), ExtraBits(s) % 32);
  }

  lemma MaskedCut(x: nat, n: nat)
    ensures Masked(x, n) == x % Pow2(n % 32)
  {
    hide Pow2;
    ModMod(x, 32, n % 32);
  }

  // ------------------------------------------------------------- executing forwards

  function ExecFrom(w: seq<byte>, st: Exec, ss: seq<Sequence>, limit: nat): Exec
    decreases |ss|
  {
    if ss == [] then st else ExecFrom(w, ExecOne(w, st, ss[0], limit), ss[1..], limit)
  }

  lemma {:induction false} ExecSplit(w: seq<byte>, lits: seq<byte>, recent: Recent, a: seq<Sequence>, b: seq<Sequence>, limit: nat)
    ensures ExecAll(w, lits, recent, a + b, limit) == ExecFrom(w, ExecAll(w, lits, recent, a, limit), b, limit)
    decreases |b|
  {
    hide ExecOne;
    if b == [] {
      assert a + b == a;
    } else {
      assert a + b == a + [b[0]] + b[1..];
      assert (a + [b[0]])[..|a|] == a;
      ExecSplit(w, lits, recent, a + [b[0]], b[1..], limit);
    }
  }

  function Total(ss: seq<Sequence>): nat { if ss == [] then 0 else ss[0].matchLen + Total(ss[1..]) }

  lemma TotalOne(s: Sequence, ss: seq<Sequence>)
    ensures Total([s] + ss) == s.matchLen + Total(ss)
  {
    assert ([s] + ss)[1..] == ss;
  }

  lemma ExecOneGrows(w: seq<byte>, st: Exec, s: Sequence, limit: nat)
    requires st.Running? && ExecOne(w, st, s, limit).Running?
    ensures var r := ExecOne(w, st, s, limit);
            st.buffer <= r.buffer && |r.buffer| + |r.lits| == |st.buffer| + |st.lits| + s.matchLen
  {
    hide DecodeOffset, NaiveCopy;
    var (offset, recent) := DecodeOffset(s.offset, s.litLen, st.recent);
    var buf := st.buffer + st.lits[..s.litLen];
    if s.matchLen > 0 {
      NaiveExtends(w + buf, offset, s.matchLen);
      assert (w + buf)[|w|..] == buf;
    }
  }

  /** Output is only appended to, and literals and matches account for all of it. */
  lemma {:induction false} ExecGrows(w: seq<byte>, st: Exec, ss: seq<Sequence>, limit: nat)
    requires st.Running? && ExecFrom(w, st, ss, limit).Running?
    ensures var r := ExecFrom(w, st, ss, limit);
            st.buffer <= r.buffer && |r.buffer| + |r.lits| == |st.buffer| + |st.lits| + Total(ss)
    decreases |ss|
  {
    hide ExecOne;
    if ss != [] {
      var next := ExecOne(w, st, ss[0], limit);
      if next.Failed? { StaysDown(w, next, ss[1..], limit); }
      ExecOneGrows(w, st, ss[0], limit);
      ExecGrows(w, next, ss[1..], limit);
    }
  }

  lemma {:induction false} StaysDown(w: seq<byte>, st: Exec, ss: seq<Sequence>, limit: nat)
    requires st.Failed?
    ensures ExecFrom(w, st, ss, limit).Failed?
    decreases |ss|
  {
    if ss != [] { StaysDown(w, ExecOne(w, st, ss[0], limit), ss[1..], limit); }
  }

  // ------------------------------------------------------------- the parse

  /** Literals and matches of a parse account for the input. */
  lemma {:induction false} ParseTotal(src: seq<byte>, prev: nat, pos: nat, recent: Recent)
    requires prev <= pos <= |src|
    ensures var p := ParseFrom(src, prev, pos, recent); |p.literals| + Total(p.sequences) == |src| - prev
    decreases |src| - pos
  {
    hide BestMatch, BestFrom, Common, Same, EncodeOffset, ParseFrom, Total;
    if pos == |src| {
      ParseNone(src, prev, recent);
      NoTotal();
    } else {
      var m := BestFrom(src, pos, Start(pos));
      if m.1 < MIN_MATCH {
        ParseOver(src, prev, pos, recent);
        ParseTotal(src, prev, pos + 1, recent);
      } else {
        MatchFits(src, pos, m.0, m.1);
        ParseOne(src, prev, pos, recent, m.0, m.1);
        var (v, next) := EncodeOffset(m.0, pos - prev, recent);
        ParseTotal(src, pos + m.1, pos + m.1, next);
        TotalOne(Sequence(pos - prev, m.1, v), ParseFrom(src, pos + m.1, pos + m.1, next).sequences);
      }
    }
  }

  lemma NoTotal()
    ensures Total([]) == 0
  {}

  lemma OffsetCode(v: nat)
    requires 1 <= v <= MAX_OFFSET + 3
    ensures OfCode(v) <= 20
  {
    Pow2Of17();
    Pow2Add(17, 4);
    assert Pow2(4) == 16;
    if HighBit(v) >= 21 { Pow2Monotone(21, HighBit(v)); }
  }

  /** What the encoder's own limits say about a sequence after fewer than 32 literals. */
  ghost predicate Fits(s: Sequence) {
    s.litLen < 32 && MIN_MATCH <= s.matchLen <= MAX_MATCH && 1 <= s.offset <= MAX_OFFSET + 3
  }

  lemma FitsWidths(s: Sequence)
    requires Fits(s)
    ensures ExtraBits(s) <= 63 && (ExtraBits(s) >= 32 ==> Of(s) >= 14)
  {
    hide Pow2, HighBit;
    assert LlBits(LlCode(s.litLen)) <= 2;
    MlRoundTrip(s.matchLen - MIN_MATCH);
    OffsetCode(s.offset);
  }

  lemma {:induction false} SeenTotal(ss: seq<Sequence>)
    requires Matches(ss) && forall i :: 0 <= i < |ss| ==> Fits(ss[i])
    ensures Total(Seen(ss)) <= Total(ss)
  {
    hide SeenOne, ExtraBits, Fits;
    if |ss| > 1 {
      FitsWidths(ss[0]);
      OffsetPositive(ss[0]);
      SeenSmaller(ss[0]);
      SeenTotal(ss[1..]);
      TotalOne(SeenOne(ss[0]), Seen(ss[1..]));
    }
  }

  lemma OffsetPositive(s: Sequence)
    requires Fits(s)
    ensures s.offset >= 1 && s.matchLen >= MIN_MATCH && s.litLen < 32
  {}

  lemma {:induction false} ParseFits(src: seq<byte>, prev: nat, pos: nat, recent: Recent)
    requires prev <= pos <= |src| && Positive(recent) && |ParseFrom(src, prev, pos, recent).literals| < 32
    ensures var ss := ParseFrom(src, prev, pos, recent).sequences;
            forall i :: 0 <= i < |ss| ==> Fits(ss[i])
    decreases |src| - pos
  {
    hide BestMatch, BestFrom, Common, Same, EncodeOffset, ParseFrom;
    if pos == |src| {
      ParseNone(src, prev, recent);
    } else {
      var m := BestFrom(src, pos, Start(pos));
      if m.1 < MIN_MATCH {
        ParseOver(src, prev, pos, recent);
        ParseFits(src, prev, pos + 1, recent);
      } else {
        MatchFits(src, pos, m.0, m.1);
        ParseOne(src, prev, pos, recent, m.0, m.1);
        EncodedRange(m.0, pos - prev, recent);
        ParseFits(src, pos + m.1, pos + m.1, EncodeOffset(m.0, pos - prev, recent).1);
      }
    }
  }

  // ------------------------------------------------------------- no other sequence will do

  /** How far the input at b repeats the input at a, within the limit on matches. */
  function Agrees(src: seq<byte>, a: nat, b: nat): nat
    requires a <= b <= |src|
  {
    Common(src, a, b, Cap(src, b))
  }

  /** Output that is the input so far means that the input repeats there. */
  lemma CopyIsMatch(src: seq<byte>, at: nat, offset: nat, n: nat)
    requires 1 <= offset <= at && at + n <= |src| && n <= MAX_MATCH
    requires NaiveCopy(src[..at], offset, n) == src[..at + n]
    ensures Agrees(src, at - offset, at) >= n
  {
    hide Common, NaiveCopy;
    CommonStops(src, at - offset, at, Cap(src, at));
    var c := Common(src, at - offset, at, Cap(src, at));
    if c < n { CopiedByte(src, at, offset, n, c); }
  }

  lemma CommonStops(src: seq<byte>, a: nat, b: nat, cap: nat)
    requires a <= b && b + cap <= |src|
    ensures var n := Common(src, a, b, cap); n < cap ==> src[a + n] != src[b + n]
  {}

  lemma {:induction false} CopiedByte(src: seq<byte>, at: nat, offset: nat, n: nat, j: nat)
    requires 1 <= offset <= at && at + n <= |src| && j < n && NaiveCopy(src[..at], offset, n) == src[..at + n]
    ensures src[at - offset + j] == src[at + j]
    decreases n
  {
    var h := NaiveCopy(src[..at], offset, n - 1);
    assert h == src[..at + n][..at + n - 1] == src[..at + n - 1];
    if j == n - 1 {
      assert src[..at + n][at + n - 1] == h[|h| - offset];
    } else {
      CopiedByte(src, at, offset, n - 1, j);
    }
  }

  /** One sequence executed on a prefix of the input, when what it writes is the input too. */
  lemma OneWrites(src: seq<byte>, prev: nat, lits: seq<byte>, recent: Recent, s: Sequence, limit: nat)
    requires prev <= |src| && s.matchLen >= 1 && s.offset > 3
    requires var r := ExecOne([], Running(src[..prev], lits, recent), s, limit);
             r.Running? && r.buffer <= src
    ensures s.litLen <= |lits| && prev + s.litLen + s.matchLen <= |src|
    ensures var at, offset := prev + s.litLen, s.offset - 3;
            1 <= offset <= at && NaiveCopy(src[..at], offset, s.matchLen) == src[..at + s.matchLen]
  {
    hide NaiveCopy;
    var at, offset := prev + s.litLen, s.offset - 3;
    var buf := src[..prev] + lits[..s.litLen];
    assert [] + buf == buf;
    var out := NaiveCopy(buf, offset, s.matchLen);
    assert out[0..] == out;
    NaiveExtends(buf, offset, s.matchLen);
    assert buf == out[..at] == src[..at];
  }

  /** Positions the encoder has passed over since the last match. */
  ghost predicate PassedOver(src: seq<byte>, prev: nat, pos: nat)
    requires prev <= pos <= |src|
  {
    forall i :: prev <= i < pos ==> NoMatch(src, i)
  }

  /** A smaller sequence with the same match length does not write the input. */
  lemma OnlyOne(src: seq<byte>, prev: nat, pos: nat, recent: Recent, off: nat, ml: nat, lits: seq<byte>, s': Sequence, limit: nat)
    requires prev <= pos < |src| <= MAX_BLOCK && PassedOver(src, prev, pos) && Positive(recent)
    requires BestMatch(src, pos, Start(pos), off, ml) && ml >= MIN_MATCH && pos + ml <= |src|
    requires var s := Sequence(pos - prev, ml, EncodeOffset(off, pos - prev, recent).0);
             Smaller(s, s') && s' != s && s'.matchLen == ml && s'.offset > 3
    ensures var r := ExecOne([], Running(src[..prev], lits, recent), s', limit);
            r.Failed? || !(r.buffer <= src)
  {
    hide ExecOne, Agrees, BestMatch, EncodeOffset, NaiveCopy, NoMatch;
    var r := ExecOne([], Running(src[..prev], lits, recent), s', limit);
    if r.Running? && r.buffer <= src {
      Nearer(src, pos, prev, recent, off, ml);
      WritesMatch(src, prev, lits, recent, s', limit);
      var at, offset := prev + s'.litLen, s'.offset - 3;
      if at < pos { NoneThere(src, at, at - offset); } else { NearerShorter(src, pos, off, ml, pos - offset); }
    }
  }

  /** Offset values above 3 stand for the offset itself. */
  lemma Nearer(src: seq<byte>, pos: nat, prev: nat, recent: Recent, off: nat, ml: nat)
    requires prev <= pos <= |src| && Positive(recent) && BestMatch(src, pos, Start(pos), off, ml) && ml >= MIN_MATCH
    ensures var v := EncodeOffset(off, pos - prev, recent).0; v > 3 ==> off == v - 3
    ensures ml <= MAX_MATCH
  {
    MatchFits(src, pos, off, ml);
    OffsetsAgree(off, pos - prev, recent);
    hide EncodeOffset, BestMatch, Common;
  }

  lemma WritesMatch(src: seq<byte>, prev: nat, lits: seq<byte>, recent: Recent, s: Sequence, limit: nat)
    requires prev <= |src| && 1 <= s.matchLen <= MAX_MATCH && s.offset > 3
    requires var r := ExecOne([], Running(src[..prev], lits, recent), s, limit);
             r.Running? && r.buffer <= src
    ensures var at, offset := prev + s.litLen, s.offset - 3;
            1 <= offset <= at && at + s.matchLen <= |src| && Agrees(src, at - offset, at) >= s.matchLen
  {
    hide ExecOne, Agrees, NaiveCopy;
    OneWrites(src, prev, lits, recent, s, limit);
    CopyIsMatch(src, prev + s.litLen, s.offset - 3, s.matchLen);
  }

  lemma NoneThere(src: seq<byte>, i: nat, a: nat)
    requires i <= |src| <= MAX_BLOCK && a < i && NoMatch(src, i)
    ensures Agrees(src, a, i) < MIN_MATCH
  {}

  lemma NearerShorter(src: seq<byte>, i: nat, off: nat, ml: nat, a: nat)
    requires i <= |src| && BestMatch(src, i, Start(i), off, ml) && ml >= MIN_MATCH && i - off < a < i
    ensures Agrees(src, a, i) < ml
  {}

  ghost predicate Rebuilds(src: seq<byte>, st: Exec) { st.Running? && st.buffer + st.lits == src }

  /** If the whole run rebuilds the input, its first sequence writes input and every match is as long as it was. */
  lemma FirstOfRun(src: seq<byte>, prev: nat, lits: seq<byte>, recent: Recent, s': Sequence, seen: seq<Sequence>, limit: nat)
    requires prev <= |src| && Rebuilds(src, ExecFrom([], Running(src[..prev], lits, recent), [s'] + seen, limit))
    ensures var r := ExecOne([], Running(src[..prev], lits, recent), s', limit);
            r.Running? && r.buffer <= src
    ensures |src| == prev + |lits| + s'.matchLen + Total(seen)
  {
    hide ExecOne;
    var st := Running(src[..prev], lits, recent);
    assert ([s'] + seen)[0] == s' && ([s'] + seen)[1..] == seen;
    var r := ExecOne([], st, s', limit);
    if r.Failed? {
      StaysDown([], r, seen, limit);
    } else {
      ExecOneGrows([], st, s', limit);
      ExecGrows([], r, seen, limit);
    }
  }

  /** The first sequence whose packed number is lost shows in the output. */
  lemma LossHere(src: seq<byte>, prev: nat, pos: nat, recent: Recent, off: nat, ml: nat, lits: seq<byte>,
                 rest: seq<Sequence>, limit: nat)
    requires prev <= pos < |src| <= MAX_BLOCK && PassedOver(src, prev, pos) && Positive(recent)
    requires BestMatch(src, pos, Start(pos), off, ml) && ml >= MIN_MATCH && pos + ml <= |src|
    requires Matches(rest) && forall i :: 0 <= i < |rest| ==> Fits(rest[i])
    requires var s := Sequence(pos - prev, ml, EncodeOffset(off, pos - prev, recent).0);
             Fits(s) && !Packable(s) && |src| == prev + |lits| + ml + Total(rest)
    ensures var s := Sequence(pos - prev, ml, EncodeOffset(off, pos - prev, recent).0);
            !Rebuilds(src, ExecFrom([], Running(src[..prev], lits, recent), [SeenOne(s)] + Seen(rest), limit))
  {
    hide ExecOne, ExecFrom, BestMatch, EncodeOffset, SeenOne, Packable, PassedOver, Total, Rebuilds, Seen;
    var s := Sequence(pos - prev, ml, EncodeOffset(off, pos - prev, recent).0);
    var s' := SeenOne(s);
    LostIsSmaller(s);
    SeenTotal(rest);
    if Rebuilds(src, ExecFrom([], Running(src[..prev], lits, recent), [s'] + Seen(rest), limit)) {
      FirstOfRun(src, prev, lits, recent, s', Seen(rest), limit);
      OnlyOne(src, prev, pos, recent, off, ml, lits, s', limit);
    }
  }

  lemma LostIsSmaller(s: Sequence)
    requires Fits(s) && !Packable(s)
    ensures Smaller(s, SeenOne(s)) && SeenOne(s) != s && SeenOne(s).offset > 3
  {
    FitsWidths(s);
    SeenOneExact(s);
    SeenSmaller(s);
    LargeOffset(Of(s));
  }

  lemma LargeOffset(n: nat)
    ensures n >= 14 ==> Pow2(n) > 3
  {
    if n >= 14 { Pow2Monotone(2, n); assert Pow2(2) == 4; }
  }

  /** A sequence that survives moves the replay on by its literals and its match. */
  lemma SurvivorMoves(src: seq<byte>, prev: nat, pos: nat, recent: Recent, off: nat, ml: nat, more: seq<byte>)
    requires prev <= pos && pos + ml + |more| <= |src| <= MAX_BLOCK && Positive(recent) && ml >= MIN_MATCH && 1 <= off <= pos
    requires Same(src, pos - off, pos, ml)
    ensures var (v, next) := EncodeOffset(off, pos - prev, recent);
            ExecOne([], Running(src[..prev], src[prev..pos] + more, recent), Sequence(pos - prev, ml, v), MAX_BLOCK)
              == Running(src[..pos + ml], more, next)
  {
    hide ExecOne, EncodeOffset, Same;
    var (v, next) := EncodeOffset(off, pos - prev, recent);
    OneReplays([], src, recent, prev, pos, off, ml);
    ExecOneMore([], Running(src[..prev], src[prev..pos], recent), more, Sequence(pos - prev, ml, v), pos + ml, MAX_BLOCK);
    assert [] + more == more;
  }

  lemma {:induction false} LossFrom(src: seq<byte>, prev: nat, pos: nat, recent: Recent)
    requires prev <= pos <= |src| <= MAX_BLOCK && PassedOver(src, prev, pos) && Positive(recent)
    requires var p := ParseFrom(src, prev, pos, recent);
             |p.literals| < 32 && Matches(p.sequences) && !AllPackable(p.sequences)
    ensures var p := ParseFrom(src, prev, pos, recent);
            !Rebuilds(src, ExecFrom([], Running(src[..prev], p.literals, recent), Seen(p.sequences), MAX_BLOCK))
    decreases |src| - pos
  {
    hide BestMatch, BestFrom, EncodeOffset, ParseFrom, ExecFrom, ExecOne, Rebuilds, SeenOne, Packable, AllPackable, Seen,
      NoMatch, Total, Fits, Matches, Same;
    ParseMatches(src, prev, pos, recent);
    if pos == |src| {
      ParseNone(src, prev, recent);
      OneIsSeen([]);
    } else {
      var m := BestFrom(src, pos, Start(pos));
      FoundOrNot(src, pos, m.0, m.1);
      if m.1 < MIN_MATCH {
        ParseOver(src, prev, pos, recent);
        LossFrom(src, prev, pos + 1, recent);
      } else {
        MatchFits(src, pos, m.0, m.1);
        ParseOne(src, prev, pos, recent, m.0, m.1);
        LossAt(src, prev, pos, recent, m.0, m.1);
      }
    }
  }

  /** At a match: the loss is here, or further on. */
  lemma {:induction false} LossAt(src: seq<byte>, prev: nat, pos: nat, recent: Recent, off: nat, ml: nat)
    requires prev <= pos < |src| <= MAX_BLOCK && PassedOver(src, prev, pos) && Positive(recent)
    requires BestMatch(src, pos, Start(pos), off, ml) && ml >= MIN_MATCH && pos + ml <= |src|
    requires var p := ParseFrom(src, prev, pos, recent);
             |p.literals| < 32 && Matches(p.sequences) && !AllPackable(p.sequences)
    ensures var p := ParseFrom(src, prev, pos, recent);
            !Rebuilds(src, ExecFrom([], Running(src[..prev], p.literals, recent), Seen(p.sequences), MAX_BLOCK))
    decreases |src| - pos, 0
  {
    hide BestMatch, BestFrom, EncodeOffset, ParseFrom, ExecFrom, ExecOne, Rebuilds, SeenOne, Packable, AllPackable, Seen,
      NoMatch, Total, Fits, Matches, Same;
    MatchFits(src, pos, off, ml);
    ParseOne(src, prev, pos, recent, off, ml);
    var p := ParseFrom(src, prev, pos, recent);
    var (v, next) := EncodeOffset(off, pos - prev, recent);
    var s, rest := Sequence(pos - prev, ml, v), ParseFrom(src, pos + ml, pos + ml, next);
    EncodedRange(off, pos - prev, recent);
    ParseMatches(src, pos + ml, pos + ml, next);
    ParseTotal(src, prev, pos, recent);
    ParseFits(src, prev, pos, recent);
    SeenCons(s, rest.sequences);
    if Packable(s) {
      ParseTotal(src, pos + ml, pos + ml, next);
      SurvivorMoves(src, prev, pos, recent, off, ml, rest.literals);
      SurvivorSeen(s, p.sequences);
      FromCons(Running(src[..prev], p.literals, recent), s, Seen(rest.sequences));
      LossFrom(src, pos + ml, pos + ml, next);
    } else {
      FitsTail(p.sequences);
      TotalOne(s, rest.sequences);
      LossHere(src, prev, pos, recent, off, ml, p.literals, rest.sequences, MAX_BLOCK);
    }
  }

  lemma SurvivorSeen(s: Sequence, ss: seq<Sequence>)
    requires |ss| >= 1 && ss[0] == s && s.matchLen >= MIN_MATCH && Packable(s) && forall i :: 0 <= i < |ss| ==> Fits(ss[i])
    ensures SeenOne(s) == s
  {
    hide SeenOne, Packable, ExtraBits;
    FitsWidths(ss[0]);
    SeenOneExact(s);
  }

  lemma FitsTail(ss: seq<Sequence>)
    requires |ss| >= 1 && forall i :: 0 <= i < |ss| ==> Fits(ss[i])
    ensures Fits(ss[0]) && forall i :: 0 <= i < |ss[1..]| ==> Fits(ss[1..][i])
  {}

  lemma FromCons(st: Exec, s: Sequence, ss: seq<Sequence>)
    ensures ExecFrom([], st, [s] + ss, MAX_BLOCK) == ExecFrom([], ExecOne([], st, s, MAX_BLOCK), ss, MAX_BLOCK)
  {
    hide ExecOne;
    assert ([s] + ss)[0] == s && ([s] + ss)[1..] == ss;
  }

  /** Unless it is the last one, a sequence is seen through its masked write. */
  lemma SeenCons(s: Sequence, rest: seq<Sequence>)
    requires s.matchLen >= MIN_MATCH && Matches(rest)
    ensures Matches([s] + rest) && ([s] + rest)[0] == s && ([s] + rest)[1..] == rest
    ensures rest == [] ==> AllPackable([s] + rest)
    ensures rest != [] ==> Seen([s] + rest) == [SeenOne(s)] + Seen(rest)
    ensures rest != [] ==> (AllPackable([s] + rest) <==> Packable(s) && AllPackable(rest))
  {
    hide Packable, SeenOne;
    var ss := [s] + rest;
    assert ss[1..] == rest;
    if rest != [] { PackableStep(ss); }
  }

  /**
   A block of fewer than 32 literals, decompressed without a window, is the input
   if and only if every packed number but the last survives its write.
   */
  lemma {:induction false} LossShows(src: seq<byte>)
    requires |src| <= MAX_BLOCK && |Parse(src).literals| < 32 && !AllPackable(Parse(src).sequences)
    ensures !Rebuilds(src, ExecAll([], Parse(src).literals, INITIAL, Seen(Parse(src).sequences), MAX_BLOCK))
  {
    hide ParseFrom, ExecOne, Seen, AllPackable, Rebuilds, NoMatch;
    var p := Parse(src);
    assert src[..0] == [];
    LossFrom(src, 0, 0, INITIAL);
    ExecSplit([], p.literals, INITIAL, [], Seen(p.sequences), MAX_BLOCK);
    assert [] + Seen(p.sequences) == Seen(p.sequences);
  }
}
