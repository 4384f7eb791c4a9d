/**
 Blocks with few literals that do lose a packed number: a long run, some bytes that
 occur nowhere else, and the run again.
 */
module SequenceWitness {
  import opened Arith
  import opened ByteStream
  import opened SequenceCodes
  import opened Lz77
  import opened SequenceStream
  import opened SequenceReader
  import SequenceLoss

  const GAP := 25

  /** m zeros, 25 different bytes, m zeros, and four threes. */
  function At(m: nat, i: nat): byte {
    if i < m then 0
    else if i < m + GAP then 10 + (i - m)
    else if i < 2 * m + GAP then 0
    else 3
  }

  function Input(m: nat): (s: seq<byte>)
    ensures |s| == 2 * m + GAP + 4 && forall i :: 0 <= i < |s| ==> s[i] == At(m, i)
  {
    seq(2 * m + GAP + 4, i requires 0 <= i < 2 * m + GAP + 4 => At(m, i))
  }

  ghost predicate Long(m: nat) { 32771 <= m <= 65507 }

  // ------------------------------------------------------------- single positions

  /** Two texts that agree for n bytes and then do not. */
  lemma CommonIs(src: seq<byte>, a: nat, b: nat, n: nat)
    requires a <= b <= |src| && n <= Cap(src, b) && (forall j :: b <= j < b + n ==> src[j] == src[j - (b - a)])
    requires n < Cap(src, b) ==> src[a + n] != src[b + n]
    ensures Common(src, a, b, Cap(src, b)) == n
  {
    hide Common;
    SameBytes(src, a, b, n);
    CommonUnique(src, a, b, Cap(src, b), n);
  }

  lemma SameBytes(src: seq<byte>, a: nat, b: nat, n: nat)
    requires a <= b && b + n <= |src| && forall j :: b <= j < b + n ==> src[j] == src[j - (b - a)]
    ensures Same(src, a, b, n)
  {
    var x, y := src[a..a + n], src[b..b + n];
    assert |x| == |y|;
    forall j | 0 <= j < n ensures x[j] == y[j] { assert x[j] == src[a + j] && y[j] == src[b + j]; }
  }

  /** A text that differs within n bytes agrees for fewer. */
  lemma CommonBelow(src: seq<byte>, a: nat, b: nat, n: nat)
    requires a <= b <= |src| && n < Cap(src, b) && src[a + n] != src[b + n]
    ensures Common(src, a, b, Cap(src, b)) <= n
  {
    hide Common;
    CommonSame(src, a, b, Cap(src, b));
    var c := Common(src, a, b, Cap(src, b));
    if c > n { SameAt(src, a, b, c, n); }
  }

  lemma CommonSame(src: seq<byte>, a: nat, b: nat, cap: nat)
    requires a <= b && b + cap <= |src|
    ensures Common(src, a, b, cap) <= cap && Same(src, a, b, Common(src, a, b, cap))
  {}

  /** A byte that has not occurred before starts no match. */
  lemma NewByte(src: seq<byte>, i: nat)
    requires i < |src| && forall a :: 0 <= a < i ==> src[a] != src[i]
    ensures BestMatch(src, i, Start(i), 0, 0)
  {
    hide Common;
    forall a | Start(i) <= a < i ensures Common(src, a, i, Cap(src, i)) < MIN_MATCH { CommonBelow(src, a, i, 0); }
  }

  /** The best match at i, when one candidate is longer than every nearer one and at least as long as the others. */
  lemma BestIs(src: seq<byte>, i: nat, off: nat, n: nat)
    requires i < |src| <= MAX_BLOCK && 1 <= off <= i && n >= MIN_MATCH
    requires Common(src, i - off, i, Cap(src, i)) == n
    requires forall a :: 0 <= a < i ==> Common(src, a, i, Cap(src, i)) <= n
    requires forall a :: i - off < a < i ==> Common(src, a, i, Cap(src, i)) < n
    ensures BestMatch(src, i, Start(i), off, n)
  {
    hide Common;
  }

  // ------------------------------------------------------------- the four places where something happens

  lemma FirstRun(m: nat)
    requires Long(m)
    ensures BestMatch(Input(m), 1, Start(1), 1, m - 1)
  {
    hide Common;
    var src := Input(m);
    CommonIs(src, 0, 1, m - 1);
    BestIs(src, 1, 1, m - 1);
  }

  lemma GapIsNew(m: nat, j: nat)
    requires Long(m) && j < GAP
    ensures BestMatch(Input(m), m + j, Start(m + j), 0, 0)
  {
    NewByte(Input(m), m + j);
  }

  lemma SecondRun(m: nat)
    requires Long(m)
    ensures BestMatch(Input(m), m + GAP, Start(m + GAP), m + GAP, m)
  {
    hide Common;
    var src, i := Input(m), m + GAP;
    CommonIs(src, 0, i, m);
    forall a | 0 < a < i ensures Common(src, a, i, Cap(src, i)) < m {
      if a < m { CommonBelow(src, a, i, m - a); } else { CommonBelow(src, a, i, 0); }
    }
    BestIs(src, i, i, m);
  }

  lemma ThreeIsNew(m: nat)
    requires Long(m)
    ensures BestMatch(Input(m), 2 * m + GAP, Start(2 * m + GAP), 0, 0)
  {
    NewByte(Input(m), 2 * m + GAP);
  }

  lemma LastRun(m: nat)
    requires Long(m)
    ensures BestMatch(Input(m), 2 * m + GAP + 1, Start(2 * m + GAP + 1), 1, 3)
  {
    hide Common;
    var src, i := Input(m), 2 * m + GAP + 1;
    CommonIs(src, i - 1, i, 3);
    forall a | 0 <= a < i - 1 ensures Common(src, a, i, Cap(src, i)) < 3 { CommonBelow(src, a, i, 0); }
    BestIs(src, i, 1, 3);
  }

  // ------------------------------------------------------------- the parse

  lemma Skips(src: seq<byte>, prev: nat, pos: nat, recent: Recent)
    requires prev <= pos < |src| && BestMatch(src, pos, Start(pos), 0, 0)
    ensures ParseFrom(src, prev, pos, recent) == ParseFrom(src, prev, pos + 1, recent)
  {
    hide BestMatch, BestFrom, Common, ParseFrom;
    var b := BestFrom(src, pos, Start(pos));
    BestUnique(src, pos, Start(pos), 0, 0, b.0, b.1);
    ParseOver(src, prev, pos, recent);
  }

  lemma {:induction false} SkipsGap(m: nat, j: nat, recent: Recent)
    requires Long(m) && j <= GAP
    ensures ParseFrom(Input(m), m, m + j, recent) == ParseFrom(Input(m), m, m + GAP, recent)
    decreases GAP - j
  {
    hide BestMatch, ParseFrom, Input, At;
    if j < GAP {
      InputLength(m);
      GapIsNew(m, j);
      Skips(Input(m), m, m + j, recent);
      SkipsGap(m, j + 1, recent);
    }
  }

  lemma InputLength(m: nat)
    ensures |Input(m)| == 2 * m + GAP + 4
  {}

  /** The parse of the input: three matches, after 1, 25 and 1 literals. */
  lemma {:induction false} ParseOfInput(m: nat)
    requires Long(m)
    ensures var p := Parse(Input(m));
            && p.sequences == [Sequence(1, m - 1, 1), Sequence(GAP, m, m + GAP + 3), Sequence(1, 3, 2)]
            && |p.literals| == 27
  {
    hide BestMatch, ParseFrom, Input, At, BestFrom, Common;
    var src, i, k := Input(m), m + GAP, 2 * m + GAP;
    InputLength(m);
    var r1 := INITIAL;
    var r2 := Recent(i, 1, 4);
    NewByte0(m);
    Skips(src, 0, 0, INITIAL);
    FirstRun(m);
    ParseOne(src, 0, 1, INITIAL, 1, m - 1);
    SkipsGap(m, 0, r1);
    SecondRun(m);
    ParseOne(src, m, i, r1, i, m);
    ThreeIsNew(m);
    Skips(src, k, k, r2);
    LastRun(m);
    ParseOne(src, k, k + 1, r2, 1, 3);
    ParseNone(src, k + 4, Recent(1, i, 4));
  }

  lemma NewByte0(m: nat)
    requires Long(m)
    ensures BestMatch(Input(m), 0, Start(0), 0, 0)
  {
    NewByte(Input(m), 0);
  }

  // ------------------------------------------------------------- the loss

  lemma WideCodes(m: nat)
    requires Long(m)
    ensures LlCode(GAP) == 20 && MlCode(m - 3) == 51 && OfCode(m + GAP + 3) == 15
  {
    LostPowers();
    hide Pow2, HighBit;
    HighBitUnique(m - 3, 15);
    HighBitUnique(m + GAP + 3, 15);
  }

  lemma NotPackable(m: nat)
    requires Long(m)
    ensures !Packable(Sequence(GAP, m, m + GAP + 3))
  {
    hide HighBit, LlCode, MlCode, OfCode, Pow2, Packed, OfField;
    var s := Sequence(GAP, m, m + GAP + 3);
    WideCodes(m);
    PackedFields(s);
    OffsetBits(m + GAP + 3);
    NotZero(s, Packed(s));
    OnlyZero();
  }

  lemma OnlyZero()
    ensures Pow2(0) == 1
  {}

  lemma OffsetBits(v: nat)
    requires 0x8000 < v < 0x1_0000
    ensures v % Pow2(15) > 0
  {
    LostPowers();
    hide Pow2;
    DivModUnique(v, 0x8000, 1, v - 0x8000);
  }

  lemma NotZero(s: Sequence, x: nat)
    requires OfField(s, x) > 0
    ensures x > 0
  {
    hide Pow2;
    if x == 0 {
      DivModUnique(0, Pow2(LlBits(Ll(s))), 0, 0);
      DivModUnique(0, Pow2(MlBits(Ml(s))), 0, 0);
    }
  }

  /** A family of blocks of fewer than 32 literals that decompress, without a window, to something else. */
  lemma {:induction false} LossHappens(m: nat)
    requires Long(m)
    ensures var src := Input(m);
            && |src| <= MAX_BLOCK && |Parse(src).literals| < 32 && !AllPackable(Parse(src).sequences)
            && !SequenceLoss.Rebuilds(src, ExecAll([], Parse(src).literals, INITIAL, Seen(Parse(src).sequences), MAX_BLOCK))
  {
    hide Parse, ExecAll, Seen, Packable, SequenceLoss.Rebuilds, Input;
    var src := Input(m);
    InputLength(m);
    ParseOfInput(m);
    NotPackable(m);
    assert Parse(src).sequences[1] == Sequence(GAP, m, m + GAP + 3);
    SequenceLoss.LossShows(src);
  }
}
