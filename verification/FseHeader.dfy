/**
 Reading the compressed description of an FSE distribution (section 4.1.1 of
 RFC 8878): the forward bit reader, and the count parser that runs on it.
 */
module FseHeader {
  import opened Arith
  import opened ByteStream
  import opened FseNorm

  datatype HeaderError = Eof | AccuracyTooLarge | SymbolOverflow | TooManySymbols

  datatype Result<+T> = Ok(value: T) | Err(error: HeaderError)

  // ------------------------------------------------- the format, by bit position

  /** The reader insists on 16 unread bits before every decision. */
  predicate Available(data: seq<byte>, p: nat) { p + 16 <= 8 * |data| }

  datatype Code = Code(value: nat, width: nat)

  /**
   The variable-width code for a value in [0, rem]: with 2^h <= rem < 2^(h+1),
   the lowest 2^(h+1) - 1 - rem codes take h bits and the others h + 1.
   */
  function CountCode(data: seq<byte>, p: nat, rem: nat): Code
    requires rem >= 1
  {
    var h := HighBit(rem);
    var small := 2 * Pow2(h) - 1 - rem;
    var low := BitsAt(data, p, h);
    if low < small then Code(low, h)
    else
      var wide := BitsAt(data, p, h + 1);
      Code(if wide >= Pow2(h) then wide - small else wide, h + 1)
  }

  datatype Run = Run(sym: nat, p: nat)

  /** Two-bit repeat flags after a zero count; a flag of 3 announces another flag. */
  function ZeroRun(data: seq<byte>, p: nat, sym: nat): (r: Result<Run>)
    requires Available(data, p)
    ensures r.Ok? ==> r.value.sym >= sym && p < r.value.p <= 8 * |data|
    decreases 8 * |data| - p
  {
    var flag := BitsAt(data, p, 2);
    if flag != 3 then Ok(Run(sym + flag, p + 2))
    else if !Available(data, p + 2) then Err(Eof)
    else ZeroRun(data, p + 2, sym + 3)
  }

  datatype Parsed = Parsed(norm: Norm, p: nat, rem: int)

  function Zeros(n: nat): (r: seq<int>)
    ensures |r| == n && forall i :: 0 <= i < n ==> r[i] == 0
  {
    if n == 0 then [] else Zeros(n - 1) + [0]
  }

  /** The counts, with `rem` one more than the probability still to be given out. */
  function ParseCounts(data: seq<byte>, p: nat, rem: int, norm: Norm, prev0: bool, maxSym: nat): Result<Parsed>
    decreases maxSym + 1 - |norm|, prev0
  {
    if rem <= 1 || |norm| > maxSym then Ok(Parsed(norm, p, rem))
    else if !Available(data, p) then Err(Eof)
    else if prev0 then
      match ZeroRun(data, p, |norm|)
      case Err(e) => Err(e)
      case Ok(run) =>
        if run.sym > maxSym then Err(SymbolOverflow)
        else ParseCounts(data, run.p, rem, norm + Zeros(run.sym - |norm|), false, maxSym)
    else
      var code := CountCode(data, p, rem);
      var count := code.value - 1;
      ParseCounts(data, p + code.width, rem - Count(count), norm + [count], count == 0, maxSym)
  }

  datatype Header = Header(accuracyLog: nat, norm: Norm, next: nat)

  function ParseHeader(data: seq<byte>, off: nat, maxSym: nat, maxBits: nat): Result<Header> {
    if !Available(data, 8 * off) then Err(Eof)
    else
      var accuracyLog := BitsAt(data, 8 * off, 4) + 5;
      if accuracyLog > maxBits then Err(AccuracyTooLarge)
      else
        match ParseCounts(data, 8 * off + 4, Pow2(accuracyLog) + 1, [], false, maxSym)
        case Err(e) => Err(e)
        case Ok(r) =>
          if r.rem != 1 then Err(TooManySymbols)
          else
            var tail := if |r.norm| <= maxSym then maxSym + 1 - |r.norm| else 0;
            Ok(Header(accuracyLog, r.norm + Zeros(tail), (r.p + 7) / 8))
  }

  // ------------------------------------------------------------- its arithmetic

  /** A code never claims more than what remains. */
  lemma CountCodeRange(data: seq<byte>, p: nat, rem: nat)
    requires rem >= 1
    ensures CountCode(data, p, rem).value <= rem
    ensures HighBit(rem) <= CountCode(data, p, rem).width <= HighBit(rem) + 1
  {
    assert Pow2(HighBit(rem) + 1) == 2 * Pow2(HighBit(rem));
  }

  ghost predicate CountList(norm: Norm) { forall i :: 0 <= i < |norm| ==> norm[i] >= -1 }

  lemma {:induction false} CumAppend(a: Norm, b: Norm, n: nat)
    requires CountList(a) && CountList(b) && n <= |b|
    ensures CountList(a + b) && Cum(a + b, |a| + n) == Cum(a, |a|) + Cum(b, n)
  {
    if n > 0 {
      CumAppend(a, b, n - 1);
    } else {
      CumPrefix(a, b, |a|);
    }
  }

  lemma {:induction false} CumPrefix(a: Norm, b: Norm, n: nat)
    requires CountList(a) && CountList(b) && n <= |a|
    ensures CountList(a + b) && Cum(a + b, n) == Cum(a, n)
  {
    if n > 0 { CumPrefix(a, b, n - 1); }
  }

  lemma {:induction false} CumZeros(n: nat)
    ensures CountList(Zeros(n)) && Cum(Zeros(n), n) == 0
  {
    if n > 0 {
      CumZeros(n - 1);
      CumAppend(Zeros(n - 1), [0], 1);
    }
  }

  lemma CumOne(norm: Norm, c: int)
    requires CountList(norm) && c >= -1
    ensures CountList(norm + [c]) && Cum(norm + [c], |norm| + 1) == Cum(norm, |norm|) + Count(c)
  {
    CumAppend(norm, [c], 1);
    assert Cum([c], 1) == Cum([c], 0) + Count(c);
  }

  /** Counts given out plus what remains is constant, and something always remains. */
  lemma {:induction false} ParseCountsConserves(data: seq<byte>, p: nat, rem: int, norm: Norm, prev0: bool, maxSym: nat)
    requires rem >= 1 && CountList(norm) && |norm| <= maxSym + 1
    ensures var r := ParseCounts(data, p, rem, norm, prev0, maxSym);
            r.Ok? ==>
              && CountList(r.value.norm) && |r.value.norm| <= maxSym + 1
              && r.value.rem >= 1
              && Cum(r.value.norm, |r.value.norm|) + r.value.rem == Cum(norm, |norm|) + rem
    decreases maxSym + 1 - |norm|, prev0
  {
    hide Pow2, BitsAt, HighBit, CountCode, ZeroRun, Cum, Zeros, Available;
    if rem <= 1 || |norm| > maxSym || !Available(data, p) {
    } else if prev0 {
      var r := ZeroRun(data, p, |norm|);
      if r.Ok? && r.value.sym <= maxSym {
        var z := Zeros(r.value.sym - |norm|);
        CumZeros(|z|);
        CumAppend(norm, z, |z|);
        ParseCountsConserves(data, r.value.p, rem, norm + z, false, maxSym);
      }
    } else {
      CountCodeRange(data, p, rem);
      var code := CountCode(data, p, rem);
      CumOne(norm, code.value - 1);
      ParseCountsConserves(data, p + code.width, rem - Count(code.value - 1), norm + [code.value - 1],
                           code.value == 1, maxSym);
    }
  }

  /** Whatever the input, a header that is accepted describes a full distribution. */
  lemma HeaderNormalised(data: seq<byte>, off: nat, maxSym: nat, maxBits: nat)
    requires maxSym <= 255
    ensures var h := ParseHeader(data, off, maxSym, maxBits);
            h.Ok? ==>
              && 5 <= h.value.accuracyLog <= maxBits
              && |h.value.norm| == maxSym + 1
              && Normalised(h.value.norm, h.value.accuracyLog)
  {
    hide Pow2, BitsAt, ParseCounts, Zeros;
    var h := ParseHeader(data, off, maxSym, maxBits);
    if h.Ok? {
      var rem := Pow2(h.value.accuracyLog) + 1;
      ParseCountsConserves(data, 8 * off + 4, rem, [], false, maxSym);
      var r := ParseCounts(data, 8 * off + 4, rem, [], false, maxSym).value;
      var z := Zeros(maxSym + 1 - |r.norm|);
      CumZeros(|z|);
      CumAppend(r.norm, z, |z|);
    }
  }

  // ------------------------------------------------------------ the fast path

  /** Six repeat flags of 3 at once. */
  lemma TwelveOnes(data: seq<byte>, p: nat, i: nat)
    requires BitsAt(data, p, 12) == 0xfff && i < 6
    ensures BitsAt(data, p + 2 * i, 2) == 3
  {
    hide Pow2, LE, Field;
    FieldOfField(LE(data), p, 12, 2 * i, 2);
    OnesField(i);
  }

  lemma OnesField(i: nat)
    requires i < 6
    ensures Field(0xfff, 2 * i, 2) == 3
  {
    assert Pow2(2) == 4;
    if i == 0 { assert Pow2(0) == 1; }
    else if i == 1 { assert 0xfff / 4 % 4 == 3; }
    else if i == 2 { assert Pow2(4) == 16; assert 0xfff / 16 % 4 == 3; }
    else if i == 3 { assert Pow2(6) == 64; assert 0xfff / 64 % 4 == 3; }
    else if i == 4 { assert Pow2(8) == 256; assert 0xfff / 256 % 4 == 3; }
    else { assert Pow2(10) == 1024; assert 0xfff / 1024 % 4 == 3; }
  }

  lemma OneFlag(data: seq<byte>, p: nat, sym: nat)
    requires Available(data, p) && BitsAt(data, p, 2) == 3
    ensures ZeroRun(data, p, sym) == if Available(data, p + 2) then ZeroRun(data, p + 2, sym + 3) else Err(Eof)
  {}

  /** Taking twelve one-bits in one step is the same as taking six flags of 3. */
  lemma FastRun(data: seq<byte>, p: nat, sym: nat)
    requires Available(data, p) && BitsAt(data, p, 12) == 0xfff
    ensures ZeroRun(data, p, sym) == if Available(data, p + 12) then ZeroRun(data, p + 12, sym + 18) else Err(Eof)
  {
    FastRunFrom(data, p, sym, 0);
  }

  lemma {:induction false} FastRunFrom(data: seq<byte>, p: nat, sym: nat, i: nat)
    requires BitsAt(data, p, 12) == 0xfff && i <= 6 && Available(data, p + 2 * i)
    ensures ZeroRun(data, p + 2 * i, sym + 3 * i) ==
            if Available(data, p + 12) then ZeroRun(data, p + 12, sym + 18) else Err(Eof)
    decreases 6 - i
  {
    hide BitsAt, ZeroRun;
    if i < 6 {
      TwelveOnes(data, p, i);
      OneFlag(data, p + 2 * i, sym + 3 * i);
      if Available(data, p + 2 * (i + 1)) { FastRunFrom(data, p, sym, i + 1); }
    }
  }

  // ------------------------------------------------------------ the bit reader

  class BitReader {
    const data: seq<byte>
    var off: nat
    var bits: nat
    var cnt: nat

    /** `bits` holds the loaded but unread bits; at most 23 of them, so 32 bits suffice. */
    ghost predicate Valid()
      reads this
    {
      && off <= |data| && cnt <= 8 * off && cnt < 24
      && bits == LE(data[..off]) / Pow2(8 * off - cnt)
    }

    /** Number of the next unread bit. */
    ghost function Pos(): nat
      requires Valid()
      reads this
    {
      8 * off - cnt
    }

    constructor (data: seq<byte>, off: nat)
      requires off <= |data|
      ensures Valid() && Pos() == 8 * off && this.data == data && cnt == 0
    {
      LEBound(data[..off]);
      this.data, this.off, this.bits, this.cnt := data, off, 0, 0;
      SmallShift(LE(data[..off]), 8 * off);
    }

    method MoreBits() returns (ok: bool)
      requires Valid()
      modifies this
      ensures Valid() && Pos() == old(Pos())
      ensures ok <==> Available(data, Pos())
      ensures ok ==> cnt >= 16
    {
      hide Pow2, LE;
      ghost var p := Pos();
      while cnt < 16
        invariant Valid() && Pos() == p
        decreases 16 - cnt
      {
        if off >= |data| { return false; }
        var c := data[off];
        LoadByte(data, off, p);
        off := off + 1;
        bits := bits + c * Pow2(cnt);
        cnt := cnt + 8;
      }
      ok := true;
    }

    /** Drop b bits that have been looked at. */
    method Skip(b: nat)
      requires Valid() && b <= cnt
      modifies this
      ensures Valid() && Pos() == old(Pos()) + b && cnt == old(cnt) - b
    {
      hide Pow2, LE;
      ShiftShift(LE(data[..off]), 8 * off - cnt, b);
      bits := bits / Pow2(b);
      cnt := cnt - b;
    }

    /** The low b bits are the next field of the stream. */
    lemma Peek(b: nat)
      requires Valid() && b <= cnt
      ensures bits % Pow2(b) == BitsAt(data, Pos(), b)
    {
      BitsAtPrefix(data, off, Pos(), b);
    }

    method Val(b: nat) returns (v: nat)
      requires Valid() && b <= cnt
      modifies this
      ensures Valid() && Pos() == old(Pos()) + b && cnt == old(cnt) - b
      ensures v == BitsAt(data, old(Pos()), b)
    {
      Peek(b);
      v := bits % Pow2(b);
      Skip(b);
    }

    /** Give back the whole bytes that were loaded but not read. */
    method Backup()
      requires Valid()
      modifies this
      ensures off == (old(Pos()) + 7) / 8
    {
      ghost var p := Pos();
      while cnt >= 8
        invariant cnt <= 8 * off && 8 * off - cnt == p
      {
        off := off - 1;
        cnt := cnt - 8;
      }
    }
  }

  lemma SmallShift(x: nat, n: nat)
    requires x < Pow2(n)
    ensures x / Pow2(n) == 0
  {
    DivModUnique(x, Pow2(n), 0, x);
  }

  lemma LoadByte(data: seq<byte>, off: nat, p: nat)
    requires off < |data| && p <= 8 * off
    ensures LE(data[..off + 1]) / Pow2(p) == LE(data[..off]) / Pow2(p) + data[off] * Pow2(8 * off - p)
  {
    LESnoc(data[..off], data[off]);
    assert data[..off] + [data[off]] == data[..off + 1];
    ShiftHigh(LE(data[..off]), data[off], 8 * off, p);
  }

  // ------------------------------------------------------------ the count reader

  method ReadZeroRun(br: BitReader, sym: nat) returns (r: Result<nat>)
    requires br.Valid() && br.cnt >= 16
    modifies br
    ensures br.Valid()
    ensures Available(br.data, old(br.Pos()))
    ensures match ZeroRun(br.data, old(br.Pos()), sym)
            case Err(e) => r == Err(e)
            case Ok(run) => r == Ok(run.sym) && br.Pos() == run.p
    ensures r.Ok? ==> r.value >= sym
  {
    hide Pow2, LE, BitsAt, ZeroRun;
    var zsym := sym;
    ghost var spec := ZeroRun(br.data, br.Pos(), sym);
    while br.bits % 0x1000 == 0xfff
      invariant br.Valid() && br.cnt >= 16 && zsym >= sym
      invariant ZeroRun(br.data, br.Pos(), zsym) == spec
      decreases 8 * |br.data| - br.Pos()
    {
      PeekLow(br, 12);
      FastRun(br.data, br.Pos(), zsym);
      zsym := zsym + 3 * 6;
      br.Skip(12);
      var ok := br.MoreBits();
      if !ok { return Err(Eof); }
    }
    while br.bits % 4 == 3
      invariant br.Valid() && br.cnt >= 16 && zsym >= sym
      invariant ZeroRun(br.data, br.Pos(), zsym) == spec
      decreases 8 * |br.data| - br.Pos()
    {
      PeekLow(br, 2);
      OneFlag(br.data, br.Pos(), zsym);
      zsym := zsym + 3;
      br.Skip(2);
      var ok := br.MoreBits();
      if !ok { return Err(Eof); }
    }
    PeekLow(br, 2);
    LastFlag(br.data, br.Pos(), zsym);
    var v := br.Val(2);
    r := Ok(zsym + v);
  }

  lemma LastFlag(data: seq<byte>, p: nat, sym: nat)
    requires Available(data, p) && BitsAt(data, p, 2) != 3
    ensures ZeroRun(data, p, sym) == Ok(Run(sym + BitsAt(data, p, 2), p + 2))
  {}

  lemma PeekLow(br: BitReader, b: nat)
    requires br.Valid() && b <= br.cnt && (b == 2 || b == 12)
    ensures br.bits % (if b == 2 then 4 else 0x1000) == BitsAt(br.data, br.Pos(), b)
  {
    br.Peek(b);
    assert Pow2(2) == 4;
    assert Pow2(12) == 0x1000 by { Pow2Add(6, 6); assert Pow2(6) == 64; }
  }

  method ReadCount(br: BitReader, remaining: nat, threshold: nat, bitsNeeded: nat) returns (count: int)
    requires br.Valid() && br.cnt >= 16 && remaining >= 1
    requires threshold == Pow2(HighBit(remaining)) && bitsNeeded == HighBit(remaining) + 1 <= 16
    modifies br
    ensures br.Valid()
    ensures var code := CountCode(br.data, old(br.Pos()), remaining);
            count == code.value - 1 && br.Pos() == old(br.Pos()) + code.width
  {
    assert Pow2(bitsNeeded) == 2 * threshold;
    hide Pow2, LE, BitsAt, HighBit;
    var max := (2 * threshold - 1) - remaining;
    var low, wide := br.bits % threshold, br.bits % (2 * threshold);
    assert low == BitsAt(br.data, br.Pos(), bitsNeeded - 1) by { br.Peek(bitsNeeded - 1); }
    assert wide == BitsAt(br.data, br.Pos(), bitsNeeded) by { br.Peek(bitsNeeded); }
    if low < max {
      count := low;
      br.Skip(bitsNeeded - 1);
    } else {
      count := wide;
      if count >= threshold { count := count - max; }
      br.Skip(bitsNeeded);
    }
    count := count - 1;
  }

  /** Halve the threshold until it no longer exceeds what remains. */
  method ShrinkThreshold(remaining: nat, threshold: nat, bitsNeeded: nat) returns (threshold': nat, bitsNeeded': nat)
    requires 1 <= remaining < 2 * threshold && bitsNeeded >= 1 && threshold == Pow2(bitsNeeded - 1)
    ensures threshold' == Pow2(HighBit(remaining)) && bitsNeeded' == HighBit(remaining) + 1 <= bitsNeeded
  {
    threshold', bitsNeeded' := threshold, bitsNeeded;
    while remaining < threshold'
      invariant 1 <= bitsNeeded' <= bitsNeeded && threshold' == Pow2(bitsNeeded' - 1)
      invariant remaining < 2 * threshold'
    {
      bitsNeeded' := bitsNeeded' - 1;
      threshold' := threshold' / 2;
    }
    HighBitUnique(remaining, bitsNeeded' - 1);
  }

  /**
   `readFSE` up to the table construction.  The method computes exactly the
   parse of the format, so with `HeaderNormalised` every accepted input hands
   `BuildFse` a normalised distribution.
   */
  method ReadFse(data: seq<byte>, off: nat, maxSym: nat, maxBits: nat) returns (r: Result<Header>)
    requires off <= |data| && maxSym <= 255 && maxBits <= 14
    ensures r == ParseHeader(data, off, maxSym, maxBits)
  {
    hide Pow2, LE, BitsAt, HighBit, Zeros, ParseCounts;
    var br := new BitReader(data, off);
    var ok := br.MoreBits();
    if !ok { return Err(Eof); }
    var log := br.Val(4);
    var accuracyLog := log + 5;
    if accuracyLog > maxBits { return Err(AccuracyTooLarge); }
    var counts, remaining := ReadCounts(br, accuracyLog, maxSym);
    match counts
    case Err(e) => return Err(e);
    case Ok(norm) =>
      if remaining != 1 { return Err(TooManySymbols); }
      var tail := if |norm| <= maxSym then maxSym + 1 - |norm| else 0;
      br.Backup();
      r := Ok(Header(accuracyLog, norm + Zeros(tail), br.off));
  }

  lemma ParseRun(data: seq<byte>, p: nat, rem: int, norm: Norm, maxSym: nat)
    requires rem > 1 && |norm| <= maxSym && Available(data, p)
    ensures ParseCounts(data, p, rem, norm, true, maxSym) ==
            match ZeroRun(data, p, |norm|)
            case Err(e) => Err(e)
            case Ok(run) =>
              if run.sym > maxSym then Err(SymbolOverflow)
              else ParseCounts(data, run.p, rem, norm + Zeros(run.sym - |norm|), false, maxSym)
  {}

  lemma ParseOne(data: seq<byte>, p: nat, rem: int, norm: Norm, maxSym: nat)
    requires rem > 1 && |norm| <= maxSym && Available(data, p)
    ensures var code := CountCode(data, p, rem);
            var count := code.value - 1;
            ParseCounts(data, p, rem, norm, false, maxSym) ==
            ParseCounts(data, p + code.width, rem - Count(count), norm + [count], count == 0, maxSym)
  {}

  lemma ParseEnds(data: seq<byte>, p: nat, rem: int, norm: Norm, prev0: bool, maxSym: nat)
    ensures rem <= 1 || |norm| > maxSym ==> ParseCounts(data, p, rem, norm, prev0, maxSym) == Ok(Parsed(norm, p, rem))
    ensures rem > 1 && |norm| <= maxSym && !Available(data, p) ==>
              ParseCounts(data, p, rem, norm, prev0, maxSym) == Err(Eof)
  {}

  ghost predicate Scaled(remaining: nat, threshold: nat, bitsNeeded: nat) {
    remaining >= 1 && threshold == Pow2(HighBit(remaining)) && bitsNeeded == HighBit(remaining) + 1 <= 16
  }

  lemma ScaledInitially(accuracyLog: nat)
    requires 5 <= accuracyLog <= 14
    ensures Scaled(Pow2(accuracyLog) + 1, Pow2(accuracyLog), accuracyLog + 1)
  {
    assert Pow2(accuracyLog + 1) == 2 * Pow2(accuracyLog) && Pow2(1) == 2;
    hide Pow2, HighBit;
    Pow2Monotone(1, accuracyLog);
    HighBitUnique(Pow2(accuracyLog) + 1, accuracyLog);
  }

  method TakeCount(br: BitReader, remaining: nat, threshold: nat, bitsNeeded: nat, ghost norm: Norm, ghost maxSym: nat)
    returns (count: int, left: nat, threshold': nat, bitsNeeded': nat)
    requires br.Valid() && br.cnt >= 16 && remaining > 1 && Scaled(remaining, threshold, bitsNeeded)
    requires |norm| <= maxSym
    modifies br
    ensures br.Valid() && Scaled(left, threshold', bitsNeeded') && count >= -1
    ensures ParseCounts(br.data, br.Pos(), left, norm + [count], count == 0, maxSym)
         == ParseCounts(br.data, old(br.Pos()), remaining, norm, false, maxSym)
  {
    hide Pow2, LE, BitsAt, HighBit, CountCode, ParseCounts;
    ParseOne(br.data, br.Pos(), remaining, norm, maxSym);
    CountCodeRange(br.data, br.Pos(), remaining);
    count := ReadCount(br, remaining, threshold, bitsNeeded);
    left := if count >= 0 then remaining - count else remaining - 1;
    ThresholdCovers(remaining);
    threshold', bitsNeeded' := ShrinkThreshold(left, threshold, bitsNeeded);
  }

  /** The counts after a zero: a run of further zeros. */
  method TakeZeros(br: BitReader, remaining: nat, norm: Norm, maxSym: nat) returns (r: Result<Norm>)
    requires br.Valid() && br.cnt >= 16 && remaining > 1 && |norm| <= maxSym <= 255
    modifies br
    ensures br.Valid()
    ensures match r
            case Err(e) => ParseCounts(br.data, old(br.Pos()), remaining, norm, true, maxSym) == Err(e)
            case Ok(longer) =>
              && |norm| <= |longer| <= maxSym
              && ParseCounts(br.data, br.Pos(), remaining, longer, false, maxSym)
                 == ParseCounts(br.data, old(br.Pos()), remaining, norm, true, maxSym)
  {
    hide Pow2, LE, BitsAt, ZeroRun, ParseCounts;
    ParseRun(br.data, br.Pos(), remaining, norm, maxSym);
    var run := ReadZeroRun(br, |norm|);
    match run
    case Err(e) => r := Err(e);
    case Ok(zsym) => r := if zsym > maxSym then Err(SymbolOverflow) else Ok(norm + Zeros(zsym - |norm|));
  }

  method ReadCounts(br: BitReader, accuracyLog: nat, maxSym: nat) returns (r: Result<Norm>, remaining: nat)
    requires br.Valid() && 5 <= accuracyLog <= 14 && maxSym <= 255
    modifies br
    ensures br.Valid()
    ensures match ParseCounts(br.data, old(br.Pos()), Pow2(accuracyLog) + 1, [], false, maxSym)
            case Err(e) => r == Err(e)
            case Ok(parsed) => r == Ok(parsed.norm) && remaining == parsed.rem && br.Pos() == parsed.p
  {
    hide Pow2, LE, BitsAt, HighBit, Zeros, CountCode, ZeroRun, ParseCounts, Scaled;
    var threshold: nat, bitsNeeded: nat := Pow2(accuracyLog), accuracyLog + 1;
    var norm, prev0 := [], false;
    remaining := Pow2(accuracyLog) + 1;
    ghost var spec := ParseCounts(br.data, br.Pos(), remaining, norm, prev0, maxSym);
    ScaledInitially(accuracyLog);
    while remaining > 1 && |norm| <= maxSym
      invariant br.Valid() && |norm| <= maxSym + 1 && Scaled(remaining, threshold, bitsNeeded)
      invariant ParseCounts(br.data, br.Pos(), remaining, norm, prev0, maxSym) == spec
      decreases maxSym + 1 - |norm|, prev0
    {
      ParseEnds(br.data, br.Pos(), remaining, norm, prev0, maxSym);
      var ok := br.MoreBits();
      if !ok { return Err(Eof), remaining; }
      if prev0 {
        var longer := TakeZeros(br, remaining, norm, maxSym);
        if longer.Err? { return longer, remaining; }
        norm, prev0 := longer.value, false;
      } else {
        var count;
        count, remaining, threshold, bitsNeeded := TakeCount(br, remaining, threshold, bitsNeeded, norm, maxSym);
        norm := norm + [count];
        prev0 := count == 0;
      }
    }
    ParseEnds(br.data, br.Pos(), remaining, norm, prev0, maxSym);
    r := Ok(norm);
  }

  lemma ThresholdCovers(remaining: nat)
    requires remaining >= 1
    ensures Pow2(HighBit(remaining)) <= remaining < 2 * Pow2(HighBit(remaining))
  {}
}
