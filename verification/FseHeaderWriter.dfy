/**
 A writer for the distribution header of section 4.1.1 of RFC 8878, to which the
 reader of `FseHeader` is the inverse: every distribution has a header, and the
 reader returns the distribution from it.
 */
module FseHeaderWriter {
  import opened Arith
  import opened ByteStream
  import opened FseNorm
  import opened FseHeader

  /** The code of a value in [0, rem]: small values take one bit less. */
  function CountItem(v: nat, rem: nat): Item
    requires 1 <= rem && v <= rem
  {
    var h := HighBit(rem);
    var small := 2 * Pow2(h) - 1 - rem;
    if v < small then Item(v, h) else Item(if v < Pow2(h) then v else v + small, h + 1)
  }

  /** Two bits for up to two further zeros; 3 for three of them and more to come. */
  function Flags(zeros: nat): (r: seq<Item>)
    ensures |r| >= 1
  {
    if zeros < 3 then [Item(zeros, 2)] else [Item(3, 2)] + Flags(zeros - 3)
  }

  /** How many zeros stand at place i. */
  function ZerosAt(norm: Norm, i: nat): (z: nat)
    requires i <= |norm|
    ensures i + z <= |norm| && forall j :: i <= j < i + z ==> norm[j] == 0
    ensures i + z < |norm| ==> norm[i + z] != 0
    decreases |norm| - i
  {
    if i < |norm| && norm[i] == 0 then ZerosAt(norm, i + 1) + 1 else 0
  }

  /** The counts from place i on, with rem one more than the probability still to be given out. */
  function WriteCounts(norm: Norm, i: nat, prev0: bool, rem: int): seq<Item>
    requires i <= |norm| && Fits(norm, i, rem)
    decreases |norm| - i, prev0
  {
    if rem <= 1 || i == |norm| then []
    else if prev0 then
      SkipZeros(norm, i, rem);
      Flags(ZerosAt(norm, i)) + WriteCounts(norm, i + ZerosAt(norm, i), false, rem)
    else
      GiveOut(norm, i, rem);
      [CountItem(norm[i] + 1, rem)] + WriteCounts(norm, i + 1, norm[i] == 0, rem - Count(norm[i]))
  }

  /** What remains is what the counts from i on add up to, and one more. */
  ghost predicate Fits(norm: Norm, i: nat, rem: int)
    requires i <= |norm|
  {
    CountList(norm) && Cum(norm, i) + rem == Cum(norm, |norm|) + 1
  }

  lemma {:induction false} CumGrows(norm: Norm, i: nat, j: nat)
    requires CountList(norm) && i <= j <= |norm|
    ensures Cum(norm, i) <= Cum(norm, j)
  {
    if i < j { CumGrows(norm, i, j - 1); }
  }

  lemma {:induction false} GiveOut(norm: Norm, i: nat, rem: int)
    requires i < |norm| && Fits(norm, i, rem)
    ensures Fits(norm, i + 1, rem - Count(norm[i]))
    ensures rem >= 1 && norm[i] + 1 <= rem
  {
    CumGrows(norm, i + 1, |norm|);
  }

  lemma {:induction false} SkipZeros(norm: Norm, i: nat, rem: int)
    requires i <= |norm| && Fits(norm, i, rem)
    ensures Fits(norm, i + ZerosAt(norm, i), rem)
    decreases |norm| - i
  {
    if i < |norm| && norm[i] == 0 { SkipZeros(norm, i + 1, rem); }
  }

  // ------------------------------------------------------------- reading back

  function Width(items: seq<Item>): nat {
    if items == [] then 0 else items[0].width + Width(items[1..])
  }

  /** The bits from p on are the items, one after the other. */
  ghost predicate Spells(data: seq<byte>, p: nat, items: seq<Item>)
    decreases |items|
  {
    items == [] || (BitsAt(data, p, items[0].width) == items[0].value && Spells(data, p + items[0].width, items[1..]))
  }

  lemma {:induction false} SpellsConcat(data: seq<byte>, p: nat, a: seq<Item>, b: seq<Item>)
    requires Spells(data, p, a + b)
    ensures Spells(data, p, a) && Spells(data, p + Width(a), b) && Width(a + b) == Width(a) + Width(b)
    decreases |a|
  {
    hide BitsAt;
    if a == [] {
      assert a + b == b;
    } else {
      assert (a + b)[1..] == a[1..] + b;
      SpellsConcat(data, p + a[0].width, a[1..], b);
    }
  }

  /** Reading one bit less gives the low part. */
  lemma {:induction false} OneBitLess(data: seq<byte>, p: nat, h: nat)
    ensures BitsAt(data, p, h) == BitsAt(data, p, h + 1) % Pow2(h)
  {
    hide Pow2, LE, Field;
    FieldOfField(LE(data), p, h + 1, 0, h);
    LowField(BitsAt(data, p, h + 1), h);
  }

  lemma {:induction false} LowField(x: nat, h: nat)
    ensures Field(x, 0, h) == x % Pow2(h)
  {
    assert Pow2(0) == 1;
  }

  /** The reader decodes the code of every value, and of no other. */
  lemma {:induction false} CountCodeExact(data: seq<byte>, p: nat, v: nat, rem: nat)
    requires 1 <= rem && v <= rem
    ensures CountCode(data, p, rem) == Code(v, CountItem(v, rem).width) <==>
              BitsAt(data, p, CountItem(v, rem).width) == CountItem(v, rem).value
  {
    var h := HighBit(rem);
    assert Pow2(h + 1) == 2 * Pow2(h);
    hide Pow2, BitsAt, HighBit;
    OneBitLess(data, p, h);
    var t, wide, low := Pow2(h), BitsAt(data, p, h + 1), BitsAt(data, p, h);
    if wide < t { DivModUnique(wide, t, 0, wide); } else { DivModUnique(wide, t, 1, wide - t); }
  }

  lemma {:induction false} FlagsExact(data: seq<byte>, p: nat, zeros: nat, sym: nat)
    requires Spells(data, p, Flags(zeros)) && p + Width(Flags(zeros)) + 16 <= 8 * |data|
    ensures ZeroRun(data, p, sym) == Ok(Run(sym + zeros, p + Width(Flags(zeros))))
    decreases zeros
  {
    hide BitsAt;
    if zeros < 3 {
      assert Flags(zeros)[1..] == [];
    } else {
      assert Flags(zeros)[1..] == Flags(zeros - 3);
      FlagsExact(data, p + 2, zeros - 3, sym + 3);
    }
  }

  /** A distribution with nothing but zeros from j on. */
  ghost predicate Ended(norm: Norm, j: nat) { j <= |norm| && forall i :: j <= i < |norm| ==> norm[i] == 0 }

  lemma {:induction false} NothingLeft(norm: Norm, i: nat)
    requires i <= |norm| && Fits(norm, i, 1)
    ensures Ended(norm, i)
    decreases |norm| - i
  {
    if i < |norm| {
      GiveOut(norm, i, 1);
      CumGrows(norm, i + 1, |norm|);
      NothingLeft(norm, i + 1);
    }
  }

  lemma {:induction false} FitsAtEnd(norm: Norm, rem: int)
    requires Fits(norm, |norm|, rem)
    ensures rem == 1
  {}

  /** One step of the reader over a run of zeros. */
  lemma {:induction false} ReadsZeros(data: seq<byte>, p: nat, norm: Norm, i: nat, rem: int)
    requires i <= |norm| && Fits(norm, i, rem) && rem > 1 && |norm| <= 256
    requires Spells(data, p, Flags(ZerosAt(norm, i))) && p + Width(Flags(ZerosAt(norm, i))) + 16 <= 8 * |data|
    ensures var z := ZerosAt(norm, i);
            && i + z < |norm|
            && ParseCounts(data, p, rem, norm[..i], true, |norm| - 1) ==
               ParseCounts(data, p + Width(Flags(z)), rem, norm[..i + z], false, |norm| - 1)
  {
    hide BitsAt, Spells, Width, Flags, ZeroRun, CountCode, ParseCounts, Zeros, ZerosAt, Fits;
    var z := ZerosAt(norm, i);
    SkipZeros(norm, i, rem);
    if i + z == |norm| { FitsAtEnd(norm, rem); }
    FlagsExact(data, p, z, i);
    ParseRun(data, p, rem, norm[..i], |norm| - 1);
    assert norm[..i] + Zeros(z) == norm[..i + z];
  }

  /** One step of the reader over a count. */
  lemma {:induction false} ReadsCount(data: seq<byte>, p: nat, norm: Norm, i: nat, rem: int)
    requires i < |norm| && Fits(norm, i, rem) && rem > 1 && norm[i] + 1 >= 0 && norm[i] + 1 <= rem && p + 16 <= 8 * |data|
    requires var item := CountItem(norm[i] + 1, rem); BitsAt(data, p, item.width) == item.value
    ensures ParseCounts(data, p, rem, norm[..i], false, |norm| - 1) ==
            ParseCounts(data, p + CountItem(norm[i] + 1, rem).width, rem - Count(norm[i]), norm[..i + 1], norm[i] == 0, |norm| - 1)
  {
    hide BitsAt, CountCode, ParseCounts, CountItem, Fits;
    CountCodeExact(data, p, norm[i] + 1, rem);
    ParseOne(data, p, rem, norm[..i], |norm| - 1);
    assert norm[..i] + [norm[i]] == norm[..i + 1];
  }

  /** The reader returns the counts up to the place where the probability is used up. */
  lemma {:induction false} CountsRoundTrip(data: seq<byte>, p: nat, norm: Norm, i: nat, prev0: bool, rem: int) returns (j: nat)
    requires i <= |norm| <= 256 && Fits(norm, i, rem) && rem >= 1
    requires Spells(data, p, WriteCounts(norm, i, prev0, rem))
    requires p + Width(WriteCounts(norm, i, prev0, rem)) + 16 <= 8 * |data|
    ensures Ended(norm, j)
    ensures |norm| >= 1 ==>
              ParseCounts(data, p, rem, norm[..i], prev0, |norm| - 1) ==
              Ok(Parsed(norm[..j], p + Width(WriteCounts(norm, i, prev0, rem)), 1))
    decreases |norm| - i, prev0
  {
    hide BitsAt, CountCode, ParseCounts, CountItem, Fits, Flags, ZerosAt, ZeroRun, Spells, Width, Ended;
    if rem <= 1 || i == |norm| {
      if i == |norm| { FitsAtEnd(norm, rem); }
      NothingLeft(norm, i);
      NoWidth();
      j := i;
      if |norm| >= 1 { ParseEnds(data, p, rem, norm[..i], prev0, |norm| - 1); }
    } else if prev0 {
      var z := ZerosAt(norm, i);
      SkipZeros(norm, i, rem);
      SpellsConcat(data, p, Flags(z), WriteCounts(norm, i + z, false, rem));
      ReadsZeros(data, p, norm, i, rem);
      j := CountsRoundTrip(data, p + Width(Flags(z)), norm, i + z, false, rem);
    } else {
      GiveOut(norm, i, rem);
      FitsCounts(norm, i, rem);
      var item, left := CountItem(norm[i] + 1, rem), rem - Count(norm[i]);
      SpellsFirst(data, p, item, WriteCounts(norm, i + 1, norm[i] == 0, left));
      ReadsCount(data, p, norm, i, rem);
      j := CountsRoundTrip(data, p + item.width, norm, i + 1, norm[i] == 0, left);
    }
  }

  lemma {:induction false} NoWidth()
    ensures Width([]) == 0
  {}

  lemma {:induction false} SpellsFirst(data: seq<byte>, p: nat, item: Item, rest: seq<Item>)
    requires Spells(data, p, [item] + rest)
    ensures BitsAt(data, p, item.width) == item.value && Spells(data, p + item.width, rest)
    ensures Width([item] + rest) == item.width + Width(rest)
  {
    assert ([item] + rest)[1..] == rest;
  }

  lemma {:induction false} FitsCounts(norm: Norm, i: nat, rem: int)
    requires i < |norm| && Fits(norm, i, rem) && rem > 1
    ensures norm[i] + 1 >= 0 && rem - Count(norm[i]) >= 1
  {
    CumGrows(norm, i + 1, |norm|);
  }

  /** The whole header: the accuracy in four bits, then the counts. */
  function WriteHeader(norm: Norm, k: nat): seq<Item>
    requires 5 <= k && Normalised(norm, k)
  {
    StartFits(norm, k);
    [Item(k - 5, 4)] + WriteCounts(norm, 0, false, Pow2(k) + 1)
  }

  lemma {:induction false} StartFits(norm: Norm, k: nat)
    requires Normalised(norm, k)
    ensures Fits(norm, 0, Pow2(k) + 1)
  {}

  /**
   Every distribution over the table's symbols is read back from its header, and
   the reader ends at the byte behind it.
   */
  lemma {:induction false} HeaderRoundTrip(data: seq<byte>, off: nat, norm: Norm, k: nat, maxBits: nat)
    requires 5 <= k <= maxBits && Normalised(norm, k) && 1 <= |norm| <= 256
    requires Spells(data, 8 * off, WriteHeader(norm, k)) && 8 * off + Width(WriteHeader(norm, k)) + 16 <= 8 * |data|
    ensures ParseHeader(data, off, |norm| - 1, maxBits) ==
            Ok(Header(k, norm, (8 * off + Width(WriteHeader(norm, k)) + 7) / 8))
  {
    hide BitsAt, ParseCounts, WriteCounts, Fits, Pow2;
    StartFits(norm, k);
    var counts := WriteCounts(norm, 0, false, Pow2(k) + 1);
    assert ([Item(k - 5, 4)] + counts)[1..] == counts;
    var j := CountsRoundTrip(data, 8 * off + 4, norm, 0, false, Pow2(k) + 1);
    assert norm[..0] == [];
    assert norm[..j] + Zeros(|norm| - j) == norm;
  }

  // ------------------------------------------------------------- every distribution has a header

  ghost predicate Small(items: seq<Item>) { forall i :: 0 <= i < |items| ==> items[i].value < Pow2(items[i].width) }

  /** The items as one number, the first one lowest. */
  function Pack(items: seq<Item>): nat {
    if items == [] then 0 else items[0].value + Pack(items[1..]) * Pow2(items[0].width)
  }

  lemma {:induction false} SmallTail(items: seq<Item>)
    requires Small(items) && items != []
    ensures items[0].value < Pow2(items[0].width) && Small(items[1..])
  {
    hide Pow2;
  }

  lemma {:induction false} PackStep(v: nat, rest: nat, w: nat, n: nat)
    requires v < Pow2(w) && rest < Pow2(n)
    ensures v + rest * Pow2(w) < Pow2(w + n)
  {
    hide Pow2;
    Pow2Add(w, n);
    MulMonotone(rest + 1, Pow2(n), Pow2(w));
    MulDistributes(rest, 1, Pow2(w));
  }

  lemma {:induction false} PackBound(items: seq<Item>)
    requires Small(items)
    ensures Pack(items) < Pow2(Width(items))
  {
    if items != [] {
      hide Pow2, Small;
      SmallTail(items);
      PackBound(items[1..]);
      PackStep(items[0].value, Pack(items[1..]), items[0].width, Width(items[1..]));
    }
  }

  /** The fields of a packed number are its items. */
  lemma {:induction false} PackSpells(data: seq<byte>, p: nat, items: seq<Item>)
    requires Small(items) && BitsAt(data, p, Width(items)) == Pack(items)
    ensures Spells(data, p, items)
    decreases |items|
  {
    if items != [] {
      hide Pow2, LE, Field, Small;
      var w, rest := items[0].width, items[1..];
      var n := Width(rest);
      SmallTail(items);
      PackBound(rest);
      FieldOfField(LE(data), p, w + n, 0, w);
      FieldOfField(LE(data), p, w + n, w, n);
      FirstField(items[0].value, Pack(rest), w, n);
      PackSpells(data, p + w, rest);
    }
  }

  lemma {:induction false} FirstField(v: nat, rest: nat, w: nat, n: nat)
    requires v < Pow2(w) && rest < Pow2(n)
    ensures Field(v + rest * Pow2(w), 0, w) == v && Field(v + rest * Pow2(w), w, n) == rest
  {
    assert Pow2(0) == 1;
    hide Pow2;
    DivModUnique(v + rest * Pow2(w), Pow2(w), rest, v);
    DivModUnique(rest, Pow2(n), 0, rest);
  }

  function Bytes(x: nat, n: nat): (s: seq<byte>)
    ensures |s| == n
  {
    if n == 0 then [] else [x % 256] + Bytes(x / 256, n - 1)
  }

  lemma {:induction false} BytesValue(x: nat, n: nat)
    requires x < Pow2(8 * n)
    ensures LE(Bytes(x, n)) == x
  {
    if n > 0 {
      hide Pow2, LE;
      BelowByte(x, n);
      BytesValue(x / 256, n - 1);
      LEFirst(x % 256, Bytes(x / 256, n - 1));
    }
  }

  lemma {:induction false} LEFirst(c: byte, rest: seq<byte>)
    ensures LE([c] + rest) == c + 256 * LE(rest)
  {
    hide Pow2, LE;
    LEConcat([c], rest);
    OneByte(c);
  }

  lemma {:induction false} BelowByte(x: nat, n: nat)
    requires n > 0 && x < Pow2(8 * n)
    ensures x / 256 < Pow2(8 * (n - 1))
  {
    hide Pow2;
    OneByte(0);
    Pow2Add(8, 8 * (n - 1));
  }

  lemma {:induction false} OneByte(c: byte)
    ensures LE([c]) == c && Pow2(8) == 256
  {
    LESnoc([], c);
  }

  lemma {:induction false} FlagsSmall(zeros: nat)
    ensures Small(Flags(zeros))
  {
    assert Pow2(2) == 4;
    if zeros >= 3 { FlagsSmall(zeros - 3); }
  }

  lemma {:induction false} CountsSmall(norm: Norm, i: nat, prev0: bool, rem: int)
    requires i <= |norm| && Fits(norm, i, rem)
    ensures Small(WriteCounts(norm, i, prev0, rem))
    decreases |norm| - i, prev0
  {
    hide Pow2, Flags, CountItem, Fits, ZerosAt;
    if rem <= 1 || i == |norm| {
    } else if prev0 {
      SkipZeros(norm, i, rem);
      FlagsSmall(ZerosAt(norm, i));
      CountsSmall(norm, i + ZerosAt(norm, i), false, rem);
    } else {
      GiveOut(norm, i, rem);
      FitsCounts(norm, i, rem);
      CountItemSmall(norm[i] + 1, rem);
      CountsSmall(norm, i + 1, norm[i] == 0, rem - Count(norm[i]));
    }
  }

  lemma {:induction false} CountItemSmall(v: nat, rem: nat)
    requires 1 <= rem && v <= rem
    ensures CountItem(v, rem).value < Pow2(CountItem(v, rem).width)
  {
    assert Pow2(HighBit(rem) + 1) == 2 * Pow2(HighBit(rem));
  }

  /** For every distribution there are bytes from which the reader returns it. */
  lemma {:induction false} HeaderExists(norm: Norm, k: nat, maxBits: nat) returns (data: seq<byte>)
    requires 5 <= k <= maxBits && k <= 20 && Normalised(norm, k) && 1 <= |norm| <= 256
    ensures ParseHeader(data, 0, |norm| - 1, maxBits) == Ok(Header(k, norm, (Width(WriteHeader(norm, k)) + 7) / 8))
  {
    hide Pow2, LE, ParseHeader, Field, Pack, Bytes, Small, WriteHeader;
    var items := WriteHeader(norm, k);
    var x, w := Pack(items), Width(items);
    var n := w / 8 + 3;
    HeaderSmall(norm, k);
    PackBound(items);
    Pow2Monotone(w, 8 * n);
    data := Bytes(x, n);
    BytesValue(x, n);
    LowField(x, w);
    DivModUnique(x, Pow2(w), 0, x);
    PackSpells(data, 0, items);
    HeaderRoundTrip(data, 0, norm, k, maxBits);
  }

  lemma {:induction false} FourBits()
    ensures Pow2(4) == 16
  {}

  lemma {:induction false} HeaderSmall(norm: Norm, k: nat)
    requires 5 <= k <= 20 && Normalised(norm, k)
    ensures Small(WriteHeader(norm, k))
  {
    hide Pow2, Fits, WriteCounts;
    FourBits();
    StartFits(norm, k);
    CountsSmall(norm, 0, false, Pow2(k) + 1);
  }
}
