/**
 The compressed part of a block, end to end: predefined distributions, the
 sequence section header, and compression followed by decompression.
 */
module SequenceBlock {
  import opened Arith
  import opened ByteStream
  import opened BitStack
  import opened Window
  import opened MatchCopy
  import opened FseNorm
  import opened FseTables
  import opened FseDuality
  import opened FseHeader
  import opened SequenceCodes
  import opened Lz77
  import opened SequenceStream
  import opened SequenceWriter
  import opened SequenceReader
  import SequenceLoss

  // ------------------------------------------------------------- predefined distributions

  /** n symbols of the same count. */
  function Const(c: int, n: nat): (r: Norm)
    ensures |r| == n && forall i :: 0 <= i < n ==> r[i] == c
  {
    if n == 0 then [] else Const(c, n - 1) + [c]
  }

  lemma {:induction false} CumConst(c: int, n: nat)
    requires c >= -1
    ensures CountList(Const(c, n)) && Cum(Const(c, n), n) == n * Count(c)
  {
    if n > 0 {
      CumConst(c, n - 1);
      CumOne(Const(c, n - 1), c);
      MulDistributes(n - 1, 1, Count(c));
    }
  }

  /** The distributions `initPredefinedEncoders` lists, as runs of equal counts. */
  const LL_NORM: Norm :=
    Const(4, 1) + Const(3, 1) + Const(2, 11) + Const(1, 3) + Const(2, 9) + Const(3, 1) + Const(2, 1) + Const(1, 5)
    + Const(-1, 4)
  const OF_NORM: Norm := Const(1, 6) + Const(2, 3) + Const(1, 15) + Const(-1, 5)
  const ML_NORM: Norm := Const(1, 1) + Const(4, 1) + Const(3, 1) + Const(2, 6) + Const(1, 37) + Const(-1, 7)

  /** Appending a run of a non-zero count. */
  lemma AddRun(norm: Norm, c: int, n: nat, sum: nat)
    requires CountList(norm) && NonZero(norm) && Cum(norm, |norm|) == sum && c >= -1 && c != 0
    ensures var r := norm + Const(c, n);
            CountList(r) && NonZero(r) && |r| == |norm| + n && Cum(r, |r|) == sum + n * Count(c)
  {
    CumConst(c, n);
    CumAppend(norm, Const(c, n), n);
  }

  ghost predicate NonZero(norm: Norm) { forall i :: 0 <= i < |norm| ==> norm[i] != 0 }

  lemma FirstRun(c: int, n: nat)
    requires c >= -1 && c != 0
    ensures var r := Const(c, n); CountList(r) && NonZero(r) && |r| == n && Cum(r, |r|) == n * Count(c)
  {
    CumConst(c, n);
  }

  lemma LlPredefined()
    ensures |LL_NORM| == 36 && NonZero(LL_NORM) && Normalised(LL_NORM, 6)
  {
    hide Cum, Const, CountList, NonZero;
    var a := Const(4, 1);
    var b := a + Const(3, 1);
    var c := b + Const(2, 11);
    var d := c + Const(1, 3);
    var e := d + Const(2, 9);
    var f := e + Const(3, 1);
    var g := f + Const(2, 1);
    var h := g + Const(1, 5);
    FirstRun(4, 1);
    AddRun(a, 3, 1, 4);
    AddRun(b, 2, 11, 7);
    AddRun(c, 1, 3, 29);
    AddRun(d, 2, 9, 32);
    AddRun(e, 3, 1, 50);
    AddRun(f, 2, 1, 53);
    AddRun(g, 1, 5, 55);
    AddRun(h, -1, 4, 60);
    IsNormalised(LL_NORM, 6);
  }

  lemma OfPredefined()
    ensures |OF_NORM| == 29 && NonZero(OF_NORM) && Normalised(OF_NORM, 5)
  {
    hide Cum, Const, CountList, NonZero;
    var a := Const(1, 6);
    var b := a + Const(2, 3);
    var c := b + Const(1, 15);
    FirstRun(1, 6);
    AddRun(a, 2, 3, 6);
    AddRun(b, 1, 15, 12);
    AddRun(c, -1, 5, 27);
    IsNormalised(OF_NORM, 5);
  }

  lemma MlPredefined()
    ensures |ML_NORM| == 53 && NonZero(ML_NORM) && Normalised(ML_NORM, 6)
  {
    hide Cum, Const, CountList, NonZero;
    var a := Const(1, 1);
    var b := a + Const(4, 1);
    var c := b + Const(3, 1);
    var d := c + Const(2, 6);
    var e := d + Const(1, 37);
    FirstRun(1, 1);
    AddRun(a, 4, 1, 1);
    AddRun(b, 3, 1, 5);
    AddRun(c, 2, 6, 8);
    AddRun(d, 1, 37, 20);
    AddRun(e, -1, 7, 57);
    IsNormalised(ML_NORM, 6);
  }

  lemma IsNormalised(norm: Norm, k: nat)
    requires CountList(norm) && 1 <= |norm| <= 256 && Cum(norm, |norm|) == (if k == 5 then 32 else 64) && (k == 5 || k == 6)
    ensures Normalised(norm, k)
  {
    assert Pow2(5) == 32 && Pow2(6) == 64;
  }

  /** Both builders run on one distribution. */
  method BuildCoder(norm: Norm, k: nat) returns (c: Coder)
    requires 5 <= k <= 9 && Normalised(norm, k) && |norm| <= 255
    ensures Good(c) && c.norm == norm && c.log == k
    ensures forall p :: 0 <= p < |c.dec| ==> c.dec[p].sym < |norm|
  {
    hide Cum, LowSyms, WalkSyms, IsSpread, EncodeTables, Good;
    var enc := new FseEncoder(norm, k);
    EncoderFits(norm, k);
    var ok := enc.BuildCTable();
    var table := new FseEntry[Pow2(k)](_ => FseEntry(0, 0, 0));
    ghost var syms;
    ok, syms := BuildFse(norm, k, table);
    c := Coder(norm, k, enc.stateTable, enc.symbolTT, table[..]);
    assert table[..] == table[..Pow2(k)];
    BuildersPaired(norm, k, enc.tableSymbol, enc.stateTable, enc.symbolTT, syms, table[..]);
    BuiltIsGood(norm, k, enc.tableSymbol, enc.stateTable, enc.symbolTT, table[..]);
    SymbolsBelow(norm, k, syms);
  }

  lemma EncoderFits(norm: Norm, k: nat)
    requires Normalised(norm, k) && k <= 9
    ensures Cum(norm, |norm|) < 0x8000 && |LowSyms(norm, |norm|)| <= Pow2(k)
  {
    SymsTotal(norm, |norm|);
    TableLimit(k);
  }

  lemma SymbolsBelow(norm: Norm, k: nat, syms: seq<nat>)
    requires CountersFit(norm, k, syms)
    ensures forall p :: 0 <= p < Pow2(k) ==> DecodeTable(norm, k, syms)[p].sym < |norm|
  {}

  // ------------------------------------------------------------- literals section

  /** Set the low bit, or the low two bits, of a nibble. */
  function WithBits(n: nat, format: nat): (r: nat)
    requires n < 16 && (format == 1 || format == 3)
    ensures n <= r < 16
  {
    if format == 1 then (if n % 2 == 0 then n + 1 else n) else n - n % 4 + 3
  }

  /** `appendRawLiteralsHeader`. */
  function LiteralsHeader(n: nat): seq<byte>
    requires n < 0x100000
  {
    if n < 32 then [n * 8]
    else if n < 4096 then [16 * WithBits(n % 16, 1), n / 16]
    else [16 * WithBits(n % 16, 3), n / 16 % 256, n / 4096]
  }

  datatype LitRead = Lits(lits: seq<byte>, next: nat) | LitError | LitCompressed

  function Repeated(c: byte, n: nat): (r: seq<byte>)
    ensures |r| == n
  {
    if n == 0 then [] else Repeated(c, n - 1) + [c]
  }

  /** `readLiterals` for raw and run-length literals. */
  function ReadLiterals(data: seq<byte>, off: nat): LitRead {
    if off >= |data| then LitError
    else
      var hdr: int := data[off];
      var format := hdr / 4 % 4;
      if hdr % 4 >= 2 then LitCompressed
      else if format == 1 && off + 1 >= |data| then LitError
      else if format == 3 && off + 2 >= |data| then LitError
      else
        var size: int := if format == 1 then hdr / 16 + data[off + 1] as int * 16
                         else if format == 3 then hdr / 16 + data[off + 1] as int * 16 + data[off + 2] as int * 4096
                         else hdr / 8;
        var start := off + (if format == 1 then 2 else if format == 3 then 3 else 1);
        if size > MAX_BLOCK then LitError
        else if hdr % 4 == 0 then
          if start + size > |data| then LitError else Lits(data[start..start + size], start + size)
        else if start >= |data| then LitError
        else Lits(Repeated(data[start], size), start + 1)
  }

  /**
   The literals section survives exactly when there are fewer than 32 literals:
   the longer headers put their size format in bits 4 and 5, where the reader
   looks for it in bits 2 and 3.
   */
  lemma LiteralsRoundTrip(lits: seq<byte>, rest: seq<byte>)
    requires |lits| <= MAX_BLOCK
    ensures var h := LiteralsHeader(|lits|);
            ReadLiterals(h + lits + rest, 0) == Lits(lits, |h| + |lits|) <==> |lits| < 32
  {
    var n := |lits|;
    var h := LiteralsHeader(n);
    var data := h + lits + rest;
    if n < 32 {
      assert data[1..1 + n] == lits;
    } else {
      LongHeader(n);
      assert data[0] == h[0];
    }
  }

  lemma LongHeader(n: nat)
    requires 32 <= n < 0x100000
    ensures var b := LiteralsHeader(n)[0]; b % 4 == 0 && b / 4 % 4 == 0 && b / 8 < 32
  {}

  // ------------------------------------------------------------- sequences section

  /** The sequence count, as `encodeSequences` writes it. */
  function CountHeader(n: nat): seq<byte>
    requires n < 0x7f00 + 0x10000
  {
    if n < 128 then [n]
    else if n < 0x7f00 then [128 + n / 256, n % 256]
    else [255, (n - 0x7f00) % 256, (n - 0x7f00) / 256]
  }

  datatype SeqHeader = NoSequences(next: nat) | Predefined(count: nat, next: nat) | OtherModes | SeqEof

  /** `initSeqs`, for blocks that use the predefined distributions. */
  function ReadSeqHeader(data: seq<byte>, off: nat): SeqHeader {
    if off >= |data| then SeqEof
    else
      var hdr: int := data[off];
      if hdr == 0 then NoSequences(off + 1)
      else
        var width := if hdr < 128 then 1 else if hdr < 255 then 2 else 3;
        if off + width >= |data| then SeqEof
        else
          var count: int := if hdr < 128 then hdr
                            else if hdr < 255 then (hdr - 128) * 256 + data[off + 1] as int
                            else data[off + 1] as int + data[off + 2] as int * 256 + 0x7f00;
          if data[off + width] == 0 then Predefined(count, off + width + 1) else OtherModes
  }

  lemma CountRoundTrip(before: seq<byte>, n: nat, after: seq<byte>)
    requires 1 <= n < 0x7f00 + 0x10000
    ensures var h := CountHeader(n);
            ReadSeqHeader(before + h + [0] + after, |before|) == Predefined(n, |before| + |h| + 1)
  {
    var h := CountHeader(n);
    var data := before + h + [0] + after;
    assert forall i :: 0 <= i < |h| ==> data[|before| + i] == h[i];
    assert data[|before| + |h|] == 0;
  }

  // ------------------------------------------------------------- the block

  /** The three predefined coders. */
  method PredefinedCoders() returns (t: Coders)
    ensures AllGood(t) && Baselined(t)
    ensures t.ll.norm == LL_NORM && t.of.norm == OF_NORM && t.ml.norm == ML_NORM && SmallLogs(t)
  {
    hide Good, Normalised, NonZero;
    LlPredefined();
    OfPredefined();
    MlPredefined();
    var ll := BuildCoder(LL_NORM, 6);
    var of := BuildCoder(OF_NORM, 5);
    var ml := BuildCoder(ML_NORM, 6);
    t := Coders(ll, of, ml);
  }

  /** What `buildSequences` produces from a block can be coded with the predefined tables. */
  lemma PredefinedCodable(t: Coders, s: Sequence, size: nat)
    requires AllGood(t) && t.ll.norm == LL_NORM && t.of.norm == OF_NORM && t.ml.norm == ML_NORM
    requires FitsCodes(s, size) && size <= MAX_BLOCK
    ensures Codable(t, s)
  {
    hide LL_NORM, OF_NORM, ML_NORM, Pow2, HighBit, LlCode, MlCode, OfCode, Normalised;
    LlPredefined();
    OfPredefined();
    MlPredefined();
    LlRoundTrip(s.litLen);
    MlRoundTrip(s.matchLen - MIN_MATCH);
    SequenceLoss.OffsetCode(s.offset);
  }

  /** `encodeCompressedBlock` from the literals and sequences on: the block body. */
  method EncodeBody(t: Coders, literals: seq<byte>, ss: seq<Sequence>) returns (body: seq<byte>)
    requires AllGood(t) && SmallLogs(t) && |literals| <= MAX_BLOCK && 1 <= |ss| < 0x7f00 + 0x10000
    requires AllCodable(t, ss) && Roomy(ss)
    ensures var front := LiteralsHeader(|literals|) + literals;
            var head := front + CountHeader(|ss|) + [0];
            && head < body
            && var b := EncodeBits(t, ss);
            && LE(body[|head|..]) == b.value + Pow2(b.n) && body[|body| - 1] != 0
  {
    hide AllGood, AllCodable, Roomy, EncodeBits, SmallLogs, Pow2, LE, LiteralsHeader, CountHeader;
    var head := LiteralsHeader(|literals|) + literals + CountHeader(|ss|) + [0];
    body := WriteSequences(head, t, ss);
    BitsRoundTrip(t, ss);
    LastByteSet(body[|head|..], EncodeBits(t, ss));
  }

  /** The literals and what follows them, when the block's sequences section can be read. */
  ghost predicate Sections(data: seq<byte>, lits: seq<byte>, count: nat, next: nat) {
    var l := ReadLiterals(data, 0);
    && l.Lits? && l.lits == lits
    && match ReadSeqHeader(data, l.next)
       case NoSequences(n) => count == 0 && next == n
       case Predefined(c, n) => count == c && next == n
       case _ => false
  }

  /**
   `compressedBlock`, for raw literals and predefined distributions: without
   sequences the block is its literals, and nothing may follow; with sequences it
   is what their stream does.
   */
  method DecodeBody(br: BlockReader, t: Coders, data: seq<byte>, recent: Recent) returns (ok: bool, recent': Recent)
    requires br.window.Valid() && AllGood(t) && Baselined(t)
    modifies br`buffer
    ensures ok ==> exists lits, count: nat, next: nat :: Sections(data, lits, count, next)
    ensures forall lits, next: nat :: Sections(data, lits, 0, next) ==>
              (ok <==> next >= |data|) && (ok ==> br.buffer == lits && recent' == recent)
    ensures forall lits, count: nat, next: nat :: Sections(data, lits, count, next) && count >= 1 ==>
              (next >= |data| || data[|data| - 1] == 0) ==> !ok
    ensures forall lits, count: nat, next: nat ::
              Sections(data, lits, count, next) && count >= 1 && next < |data| && data[|data| - 1] != 0 ==>
                && LE(data[next..]) >= 1
                && match RunStream(t, data[next..], count, br.window.Contents(), lits, recent)
                   case Accepted(buffer, r) => ok && br.buffer == buffer && recent' == r
                   case Refused => !ok
  {
    hide AllGood, Baselined, RunStream, LE, Pow2, ReadLiterals, ReadSeqHeader;
    br.buffer := [];
    recent' := recent;
    var l := ReadLiterals(data, 0);
    if !l.Lits? { return false, recent; }
    var count: nat, next: nat := 0, 0;
    match ReadSeqHeader(data, l.next) {
      case NoSequences(n) => next := n;
      case Predefined(c, n) => count, next := c, n;
      case _ => return false, recent;
    }
    assert Sections(data, l.lits, count, next);
    if count == 0 {
      if next < |data| { return false, recent; }
      br.buffer := br.buffer + l.lits;
      return true, recent;
    }
    if next >= |data| { return false, recent; }
    ok, recent' := ExecSeqs(br, t, data, next, l.lits, recent, count);
  }

  // ------------------------------------------------------------- a block is short

  lemma LlWidth(l: nat)
    requires l < 0x20000
    ensures var b := LlBits(LlCode(l)); b <= 16 && (b >= 6 ==> Pow2(b) <= l)
  {
    LlRoundTrip(l);
  }

  lemma MlWidth(m: nat)
    requires m < 0x20000
    ensures var b := MlBits(MlCode(m)); b <= 16 && (b >= 7 ==> Pow2(b) <= m)
  {
    MlRoundTrip(m);
  }

  lemma OfWidth(v: nat)
    requires 1 <= v <= MAX_BLOCK + 3
    ensures OfCode(v) <= 17
  {
    Pow2Of17();
    if HighBit(v) >= 18 { Pow2Monotone(18, HighBit(v)); }
  }

  lemma TopPowers()
    ensures Pow2(14) == 0x4000 && Pow2(15) == 0x8000 && Pow2(16) == 0x1_0000
  {
    Pow2Add(7, 7);
    assert Pow2(7) == 128;
  }

  /** The wider the extra bits of a sequence, the more of the block it stands for. */
  lemma WideIsLong(s: Sequence, size: nat)
    requires FitsCodes(s, size) && size <= MAX_BLOCK
    ensures ExtraBits(s) <= 48
    ensures ExtraBits(s) >= 47 ==> s.litLen + s.matchLen >= 0x1_0000
    ensures ExtraBits(s) >= 48 ==> s.litLen + s.matchLen >= 0x1_8000
  {
    hide LlBits, MlBits, LlCode, MlCode, Pow2, HighBit;
    var a, b := LlBits(Ll(s)), MlBits(Ml(s));
    LlWidth(s.litLen);
    MlWidth(s.matchLen - MIN_MATCH);
    OfWidth(s.offset);
    TopPowers();
  }

  /** The sequences of a block leave the bit writer its room. */
  lemma BlockRoomy(ss: seq<Sequence>, size: nat)
    requires forall i :: 0 <= i < |ss| ==> FitsCodes(ss[i], size)
    requires size <= MAX_BLOCK && Spent(ss) <= size
    ensures Roomy(ss)
  {
    hide ExtraBits, FitsCodes;
    forall i: nat | i < |ss| - 1 ensures ExtraBits(ss[i]) <= 48 { WideIsLong(ss[i], size); }
    forall i: nat | i < |ss| - 2 && ExtraBits(ss[i]) == 48 ensures ExtraBits(ss[i + 1]) <= 46 {
      WideIsLong(ss[i], size);
      WideIsLong(ss[i + 1], size);
      SpentPair(ss, i);
    }
  }

  // ------------------------------------------------------------- compressing and decompressing a block

  /** The literals fit the short header and every packed number survives its write. */
  ghost predicate Survives(p: Parsing)
    requires Matches(p.sequences)
  {
    p.sequences != [] && |p.literals| < 32 && AllPackable(p.sequences)
  }

  /** What becomes of literals and sequences that are read as they are seen. */
  ghost function Replayed(w: seq<byte>, literals: seq<byte>, ss: seq<Sequence>): StreamRun
    requires Matches(ss)
  {
    match ExecAll(w, literals, INITIAL, Seen(ss), MAX_BLOCK)
    case Running(buffer, rest, recent) => Accepted(buffer + rest, recent)
    case Failed(_) => Refused
  }

  /**
   Compressing a block and decompressing it again, for every input of at most one
   block, every earlier window and the repository's own tables.  There is a
   compressed block if and only if the input's parse has sequences; with fewer than
   32 literals its decompression is the replay of the sequences as they are seen
   through the masked writes; and it is the input whenever the parse survives, and
   without an earlier window only then.
   */
  method BlockRoundTrip(src: seq<byte>, br: BlockReader) returns (compressed: bool, ok: bool)
    requires |src| <= MAX_BLOCK && br.window.Valid()
    modifies br`buffer
    ensures compressed <==> Parse(src).sequences != []
    ensures compressed && |Parse(src).literals| < 32 ==>
              match Replayed(br.window.Contents(), Parse(src).literals, Parse(src).sequences)
              case Accepted(buffer, _) => ok && br.buffer == buffer
              case Refused => !ok
    ensures Survives(Parse(src)) ==> ok && br.buffer == src
    ensures br.window.Contents() == [] && |Parse(src).literals| < 32 ==>
              (ok && br.buffer == src <==> Survives(Parse(src)))
  {
    hide AllGood, Baselined, ExecAll, FitsCodes, AllCodable, Parse, Roomy, SmallLogs, Replayed, Seen, AllPackable, NoMatch;
    ghost var recent;
    var literals, ss;
    literals, ss, recent := BuildSequences(src, br.window.Contents());
    if ss == [] { return false, false; }
    compressed := true;
    var t := PredefinedCoders();
    AllFit(t, ss, |src|);
    ParseShort(src);
    BlockRoomy(ss, |src|);
    SurvivorReplays(t, Parse(src), src, br.window.Contents());
    if |literals| < 32 && !AllPackable(ss) { LossReplays(src); }
    ok := EncodeThenDecode(br, t, literals, ss);
  }

  method EncodeThenDecode(br: BlockReader, t: Coders, literals: seq<byte>, ss: seq<Sequence>) returns (ok: bool)
    requires br.window.Valid() && AllGood(t) && Baselined(t) && SmallLogs(t)
    requires |literals| <= MAX_BLOCK && 1 <= |ss| < 0x7f00 + 0x10000 && AllCodable(t, ss) && Roomy(ss) && Matches(ss)
    modifies br`buffer
    ensures |literals| < 32 ==>
              match Replayed(br.window.Contents(), literals, ss)
              case Accepted(buffer, _) => ok && br.buffer == buffer
              case Refused => !ok
  {
    hide AllGood, Baselined, AllCodable, Roomy, SmallLogs, Replayed, Seen, EncodeBits, LE, Pow2, LiteralsHeader, CountHeader,
      RunStream, Sections, Matches;
    var body := EncodeBody(t, literals, ss);
    if |literals| < 32 { BodyRuns(t, literals, ss, body, br.window.Contents()); }
    var r;
    ok, r := DecodeBody(br, t, body, INITIAL);
  }

  /** The decoder finds everything in its place, and the stream does what a replay does. */
  lemma BodyRuns(t: Coders, literals: seq<byte>, ss: seq<Sequence>, body: seq<byte>, w: seq<byte>)
    requires Matches(ss) && |literals| < 32 && 1 <= |ss| < 0x7f00 + 0x10000 && AllGood(t) && AllCodable(t, ss)
    requires var head := LiteralsHeader(|literals|) + literals + CountHeader(|ss|) + [0];
             && head < body
             && var b := EncodeBits(t, ss);
             && LE(body[|head|..]) == b.value + Pow2(b.n)
    ensures var next := |LiteralsHeader(|literals|)| + |literals| + |CountHeader(|ss|)| + 1;
            && Sections(body, literals, |ss|, next) && next < |body| && LE(body[next..]) >= 1
            && RunStream(t, body[next..], |ss|, w, literals, INITIAL) == Replayed(w, literals, ss)
  {
    hide AllGood, AllCodable, EncodeBits, DecodeBits, Pow2, LE, LiteralsHeader, CountHeader, ReadLiterals, ReadSeqHeader,
      ExecAll, Opened, Seen, Matches;
    BodyReads(t, literals, ss, body);
  }

  /** Sequences that do not survive replay to something else, without a window. */
  lemma LossReplays(src: seq<byte>)
    requires |src| <= MAX_BLOCK && |Parse(src).literals| < 32 && !AllPackable(Parse(src).sequences)
    ensures var run := Replayed([], Parse(src).literals, Parse(src).sequences);
            run.Accepted? ==> run.buffer != src
  {
    hide ExecAll, Parse, Seen, AllPackable;
    SequenceLoss.LossShows(src);
  }

  /** Sequences that survive replay to the input they came from. */
  lemma SurvivorReplays(t: Coders, p: Parsing, src: seq<byte>, w: seq<byte>)
    requires Matches(p.sequences) && AllCodable(t, p.sequences) && |src| <= MAX_BLOCK
    requires var st := ExecAll(w, p.literals, INITIAL, p.sequences, |src|);
             st.Running? && st.buffer + st.lits == src
    ensures var run := Replayed(w, p.literals, p.sequences);
            Survives(p) ==> run.Accepted? && run.buffer == src
  {
    hide ExecAll, AllCodable, Seen, AllPackable, Matches;
    SeenExact(t, p.sequences);
    LimitGrows(w, p.literals, INITIAL, p.sequences, |src|, MAX_BLOCK);
  }

  lemma ParseShort(src: seq<byte>)
    ensures Spent(Parse(src).sequences) <= |src| && |Parse(src).literals| <= |src|
  {
    hide ParseFrom;
    ParseSpent(src, 0, 0, INITIAL);
  }

  lemma AllFit(t: Coders, ss: seq<Sequence>, size: nat)
    requires AllGood(t) && t.ll.norm == LL_NORM && t.of.norm == OF_NORM && t.ml.norm == ML_NORM && size <= MAX_BLOCK
    requires forall i :: 0 <= i < |ss| ==> FitsCodes(ss[i], size)
    ensures AllCodable(t, ss)
  {
    hide AllGood, FitsCodes, Codable;
    forall i | 0 <= i < |ss| ensures Codable(t, ss[i]) { PredefinedCodable(t, ss[i], size); }
  }

  /** The decoder finds the literals, the count and the bit stream where the encoder put them. */
  lemma BodyReads(t: Coders, literals: seq<byte>, ss: seq<Sequence>, body: seq<byte>)
    requires AllGood(t) && |literals| < 32 && 1 <= |ss| < 0x7f00 + 0x10000 && AllCodable(t, ss)
    requires var head := LiteralsHeader(|literals|) + literals + CountHeader(|ss|) + [0];
             && head < body
             && var b := EncodeBits(t, ss);
             && LE(body[|head|..]) == b.value + Pow2(b.n)
    ensures var front := |LiteralsHeader(|literals|)| + |literals|;
            && ReadLiterals(body, 0) == Lits(literals, front)
            && var h := ReadSeqHeader(body, front);
            && h == Predefined(|ss|, front + |CountHeader(|ss|)| + 1) && h.next < |body|
            && LE(body[h.next..]) >= 1
            && Matches(ss) && DecodeBits(t, Opened(body[h.next..]), |ss|) == Got(Seen(ss), EMPTY)
  {
    hide AllGood, AllCodable, EncodeBits, DecodeBits, Pow2, LE, LiteralsHeader, CountHeader, ReadLiterals, ReadSeqHeader;
    var lh, ch := LiteralsHeader(|literals|), CountHeader(|ss|);
    var head := lh + literals + ch + [0];
    var rest := body[|head|..];
    assert body == lh + literals + (ch + [0] + rest);
    LiteralsRoundTrip(literals, ch + [0] + rest);
    assert body == (lh + literals) + ch + [0] + rest;
    CountRoundTrip(lh + literals, |ss|, rest);
    BitsRoundTrip(t, ss);
    OpenClosed(EncodeBits(t, ss), rest);
  }

  /** A block limit above the one a replay was shown for changes nothing. */
  lemma LimitGrows(w: seq<byte>, lits: seq<byte>, recent: Recent, ss: seq<Sequence>, limit: nat, limit': nat)
    requires limit <= limit' && ExecAll(w, lits, recent, ss, limit).Running?
    ensures ExecAll(w, lits, recent, ss, limit') == ExecAll(w, lits, recent, ss, limit)
  {
    ExecMoreLiterals(w, lits, [], recent, ss, limit, limit');
    assert lits + [] == lits;
    var st := ExecAll(w, lits, recent, ss, limit);
    assert st.lits + [] == st.lits;
  }
}
