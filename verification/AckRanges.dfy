/**
 Acknowledgement ranges of the share consumer: offsets merged into the fewest
 ranges that cover exactly them.
 */
module AckRanges {
  import opened Arith
  import opened Sorting

  datatype AckBatch = AckBatch(first: int, last: int, ackType: int)

  predicate In(b: AckBatch, x: int) { b.first <= x <= b.last }

  ghost predicate Covered(bs: seq<AckBatch>, x: int) { exists i :: 0 <= i < |bs| && In(bs[i], x) }

  /** The ranges hold the given offsets and no others. */
  ghost predicate ExactCover(bs: seq<AckBatch>, offsets: seq<int>) { forall x :: Covered(bs, x) <==> x in offsets }

  /** Ascending, and never next to one another. */
  ghost predicate Separated(bs: seq<AckBatch>) {
    && (forall i :: 0 <= i < |bs| ==> bs[i].first <= bs[i].last)
    && forall i, j :: 0 <= i < j < |bs| ==> bs[i].last + 1 < bs[j].first
  }

  // ------------------------------------------------------------- no cover is smaller

  /** Two separated ranges cannot lie in one range of an exact cover. */
  lemma {:induction false} NotTogether(bs: seq<AckBatch>, cover: seq<AckBatch>, offsets: seq<int>, i: nat, j: nat, c: nat)
    requires Separated(bs) && ExactCover(bs, offsets) && ExactCover(cover, offsets)
    requires i < j < |bs| && c < |cover|
    ensures !(In(cover[c], bs[i].first) && In(cover[c], bs[j].first))
  {
    var gap := bs[i].last + 1;
    GapUncovered(bs, i, j);
    assert gap !in offsets;
    assert !Covered(cover, gap);
    assert !In(cover[c], gap);
  }

  lemma {:induction false} GapUncovered(bs: seq<AckBatch>, i: nat, j: nat)
    requires Separated(bs) && i < j < |bs|
    ensures !Covered(bs, bs[i].last + 1)
  {
    var gap := bs[i].last + 1;
    forall k | 0 <= k < |bs| ensures !In(bs[k], gap) {}
  }

  lemma {:induction false} OwnerOf(bs: seq<AckBatch>, cover: seq<AckBatch>, offsets: seq<int>, i: nat) returns (c: nat)
    requires Separated(bs) && ExactCover(bs, offsets) && ExactCover(cover, offsets) && i < |bs|
    ensures c < |cover| && In(cover[c], bs[i].first)
  {
    var x := bs[i].first;
    assert In(bs[i], x);
    assert Covered(bs, x);
    assert Covered(cover, x);
    c :| c < |cover| && In(cover[c], x);
  }

  /** For each of the first n ranges, the range of the other cover that holds its first offset. */
  lemma {:induction false} Owners(bs: seq<AckBatch>, cover: seq<AckBatch>, offsets: seq<int>, n: nat) returns (owners: set<nat>)
    requires Separated(bs) && ExactCover(bs, offsets) && ExactCover(cover, offsets) && n <= |bs|
    ensures |owners| == n
    ensures forall c :: c in owners ==> c < |cover| && exists i :: 0 <= i < n && In(cover[c], bs[i].first)
  {
    hide Separated, ExactCover, Covered;
    if n == 0 {
      owners := {};
    } else {
      var rest := Owners(bs, cover, offsets, n - 1);
      var c := OwnerOf(bs, cover, offsets, n - 1);
      if c in rest {
        var i :| 0 <= i < n - 1 && In(cover[c], bs[i].first);
        NotTogether(bs, cover, offsets, i, n - 1, c);
      }
      owners := rest + {c};
    }
  }

  /** Separated ranges are as few as any exact cover. */
  lemma {:induction false} Fewest(bs: seq<AckBatch>, cover: seq<AckBatch>, offsets: seq<int>)
    requires Separated(bs) && ExactCover(bs, offsets) && ExactCover(cover, offsets)
    ensures |bs| <= |cover|
  {
    var owners := Owners(bs, cover, offsets, |bs|);
    SubsetSize(owners, Below(|cover|));
  }

  // ------------------------------------------------------------- the loop

  /** The library's sort of a slice. */
  method SortSlice(a: array<int>)
    modifies a
    ensures a[..] == Sort(old(a[..]))
  {
    var s := Sort(a[..]);
    SortBag(a[..]);
    assert |s| == |multiset(s)| == |multiset(a[..])|;
    forall i | 0 <= i < a.Length { a[i] := s[i]; }
  }

  /** Ranges done and the open one together cover what has been read. */
  ghost predicate Merged(out: seq<AckBatch>, open: AckBatch, s: seq<int>) {
    && s != [] && open.last == s[|s| - 1]
    && Separated(out + [open]) && ExactCover(out + [open], s)
  }

  lemma {:induction false} CoveredSnoc(out: seq<AckBatch>, b: AckBatch, x: int)
    ensures Covered(out + [b], x) <==> Covered(out, x) || In(b, x)
  {
    if Covered(out, x) {
      var i :| 0 <= i < |out| && In(out[i], x);
      assert In((out + [b])[i], x);
    }
    if In(b, x) { assert In((out + [b])[|out|], x); }
  }

  lemma {:induction false} SeparatedSnoc(out: seq<AckBatch>, b: AckBatch)
    ensures Separated(out + [b]) <==>
              Separated(out) && b.first <= b.last && forall i :: 0 <= i < |out| ==> out[i].last + 1 < b.first
  {
    var all := out + [b];
    assert forall i :: 0 <= i < |out| ==> all[i] == out[i];
    assert all[|out|] == b;
    if Separated(all) {
      forall i | 0 <= i < |out| ensures out[i].last + 1 < b.first { assert all[i].last + 1 < all[|out|].first; }
      forall i, j | 0 <= i < j < |out| ensures out[i].last + 1 < out[j].first { assert all[i].last + 1 < all[j].first; }
      forall i | 0 <= i < |out| ensures out[i].first <= out[i].last { assert all[i].first <= all[i].last; }
    }
  }

  /** A duplicate or the next offset extends the open range. */
  lemma {:induction false} Extend(out: seq<AckBatch>, open: AckBatch, s: seq<int>, o: int)
    requires Merged(out, open, s) && (o == open.last || o == open.last + 1)
    ensures Merged(out, open.(last := o), s + [o])
  {
    hide Covered;
    SeparatedSnoc(out, open);
    SeparatedSnoc(out, open.(last := o));
    assert s[|s| - 1] in s;
    forall x ensures Covered(out + [open.(last := o)], x) <==> x in s + [o] {
      CoveredSnoc(out, open, x);
      CoveredSnoc(out, open.(last := o), x);
    }
  }

  /** An offset beyond a gap closes the open range. */
  lemma {:induction false} CloseRange(out: seq<AckBatch>, open: AckBatch, s: seq<int>, o: int)
    requires Merged(out, open, s) && o > open.last + 1
    ensures Merged(out + [open], AckBatch(o, o, open.ackType), s + [o])
  {
    hide Covered;
    var next := AckBatch(o, o, open.ackType);
    SeparatedSnoc(out, open);
    SeparatedSnoc(out + [open], next);
    forall x ensures Covered(out + [open] + [next], x) <==> x in s + [o] {
      CoveredSnoc(out + [open], next, x);
    }
  }

  lemma {:induction false} FirstRange(o: int, ackType: int)
    ensures Merged([], AckBatch(o, o, ackType), [o])
  {
    forall x ensures Covered([] + [AckBatch(o, o, ackType)], x) <==> x in [o] {
      CoveredSnoc([], AckBatch(o, o, ackType), x);
    }
  }

  /** `coalesceAckBatches`: exact, separated, and therefore the fewest ranges possible. */
  method CoalesceAckBatches(offsets: array<int>, ackType: int) returns (out: seq<AckBatch>)
    modifies offsets
    ensures offsets[..] == Sort(old(offsets[..]))
    ensures Separated(out) && ExactCover(out, old(offsets[..]))
    ensures forall b :: b in out ==> b.ackType == ackType
    ensures forall cover: seq<AckBatch> :: ExactCover(cover, old(offsets[..])) ==> |out| <= |cover|
  {
    hide Merged, Sort, ExactCover, Separated;
    ghost var given := offsets[..];
    if offsets.Length == 0 {
      NothingToCover(given);
      return [];
    }
    SortSlice(offsets);
    ghost var s := offsets[..];
    SortSorted(given);
    out := [];
    var first, last := offsets[0], offsets[0];
    FirstRange(first, ackType);
    assert s[..1] == [first];
    for k := 1 to offsets.Length
      invariant offsets[..] == s
      invariant Merged(out, AckBatch(first, last, ackType), s[..k])
      invariant last == s[k - 1] && forall b :: b in out ==> b.ackType == ackType
    {
      var o := offsets[k];
      assert s[..k + 1] == s[..k] + [o];
      if o == last || o == last + 1 {
        Extend(out, AckBatch(first, last, ackType), s[..k], o);
        last := o;
      } else {
        InOrder(s, k);
        MergedLast(out, AckBatch(first, last, ackType), s[..k]);
        CloseRange(out, AckBatch(first, last, ackType), s[..k], o);
        out := out + [AckBatch(first, last, ackType)];
        first, last := o, o;
      }
    }
    assert s[..|s|] == s;
    MergedCovers(out, AckBatch(first, last, ackType), s, given);
    out := out + [AckBatch(first, last, ackType)];
    forall cover: seq<AckBatch> | ExactCover(cover, given) ensures |out| <= |cover| { Fewest(out, cover, given); }
  }

  lemma {:induction false} InOrder(s: seq<int>, k: nat)
    requires Sorted(s) && 0 < k < |s|
    ensures s[k - 1] <= s[k]
  {}

  lemma {:induction false} MergedLast(out: seq<AckBatch>, open: AckBatch, s: seq<int>)
    requires Merged(out, open, s)
    ensures s != [] && open.last == s[|s| - 1]
  {}

  lemma {:induction false} MergedCovers(out: seq<AckBatch>, open: AckBatch, s: seq<int>, given: seq<int>)
    requires Merged(out, open, s) && s == Sort(given)
    ensures Separated(out + [open]) && ExactCover(out + [open], given)
  {
    forall x ensures x in s <==> x in given { SortHas(given, x); }
  }

  lemma {:induction false} NothingToCover(given: seq<int>)
    requires given == []
    ensures Separated([]) && ExactCover([], given) && Sort(given) == []
  {}
}
