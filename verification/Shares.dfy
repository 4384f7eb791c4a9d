/**
 How one topic's partitions are shared among n members: the range and the
 round-robin shares, each complete and balanced.
 */
module Shares {
  import opened Arith

  // ------------------------------------------------------------- complete and balanced

  function Bag(shares: seq<seq<int>>): multiset<int> {
    if shares == [] then multiset{} else multiset(shares[0]) + Bag(shares[1..])
  }

  /** Every partition is in the shares as often as in the list: given once, it is in exactly one share. */
  ghost predicate Complete(parts: seq<int>, shares: seq<seq<int>>) { Bag(shares) == multiset(parts) }

  ghost predicate Balanced(shares: seq<seq<int>>) {
    forall i, j :: 0 <= i < |shares| && 0 <= j < |shares| ==> |shares[i]| <= |shares[j]| + 1
  }

  // ------------------------------------------------------------- round robin

  /** The member whose turn it is at place j, and the rounds completed by then. */
  function Turn(j: nat, n: nat): (i: nat)
    requires n > 0
    ensures i < n
  {
    j % n
  }

  function Rounds(j: nat, n: nat): nat
    requires n > 0
  {
    DivNonNegative(j, n);
    j / n
  }

  lemma TurnStep(j: nat, n: nat)
    requires n > 0
    ensures Turn(0, n) == 0 && Rounds(0, n) == 0
    ensures Turn(j + 1, n) == if Turn(j, n) + 1 < n then Turn(j, n) + 1 else 0
    ensures Rounds(j + 1, n) == Rounds(j, n) + if Turn(j, n) + 1 < n then 0 else 1
  {
    var q, r := j / n, j % n;
    DivModUnique(0, n, 0, 0);
    if r + 1 < n { DivModUnique(j + 1, n, q, r + 1); } else { NextMultiple(q, n); DivModUnique(j + 1, n, q + 1, 0); }
  }

  /** The partitions at places below j that fall to member i. */
  function Dealt(parts: seq<int>, n: nat, i: int, j: nat): seq<int>
    requires n > 0 && j <= |parts|
  {
    if j == 0 then []
    else Dealt(parts, n, i, j - 1) + if Turn(j - 1, n) == i then [parts[j - 1]] else []
  }

  lemma {:induction false} DealtCount(parts: seq<int>, n: nat, i: nat, j: nat)
    requires i < n && j <= |parts|
    ensures |Dealt(parts, n, i, j)| == Rounds(j, n) + if i < Turn(j, n) then 1 else 0
  {
    hide Turn, Rounds;
    if j == 0 {
      TurnStep(0, n);
    } else {
      TurnStep(j - 1, n);
      DealtCount(parts, n, i, j - 1);
    }
  }

  lemma NextMultiple(q: int, n: int)
    ensures (q + 1) * n == q * n + n
  {}

  /** The shares of all members, of the first j partitions. */
  function DealtAll(parts: seq<int>, n: nat, j: nat): (s: seq<seq<int>>)
    requires n > 0 && j <= |parts|
    ensures |s| == n
  {
    seq(n, i => Dealt(parts, n, i, j))
  }

  lemma {:induction false} BagUpdate(shares: seq<seq<int>>, i: nat, p: int)
    requires i < |shares|
    ensures Bag(shares[i := shares[i] + [p]]) == Bag(shares) + multiset{p}
  {
    var updated := shares[i := shares[i] + [p]];
    if i == 0 {
      assert updated[1..] == shares[1..];
    } else {
      assert updated[1..] == shares[1..][i - 1 := shares[i] + [p]];
      BagUpdate(shares[1..], i - 1, p);
    }
  }

  lemma {:induction false} BagEmpty(shares: seq<seq<int>>)
    requires forall i :: 0 <= i < |shares| ==> shares[i] == []
    ensures Bag(shares) == multiset{}
  {
    if shares != [] { BagEmpty(shares[1..]); }
  }

  lemma {:induction false} DealtComplete(parts: seq<int>, n: nat, j: nat)
    requires n > 0 && j <= |parts|
    ensures Bag(DealtAll(parts, n, j)) == multiset(parts[..j])
  {
    hide Turn, Bag;
    if j == 0 {
      BagEmpty(DealtAll(parts, n, 0));
      assert parts[..0] == [];
    } else {
      hide DealtAll, Dealt;
      var before, i := DealtAll(parts, n, j - 1), Turn(j - 1, n);
      DealtComplete(parts, n, j - 1);
      BagUpdate(before, i, parts[j - 1]);
      DealOne(parts, n, j - 1);
      assert parts[..j] == parts[..j - 1] + [parts[j - 1]];
    }
  }

  lemma {:induction false} DealOne(parts: seq<int>, n: nat, j: nat)
    requires n > 0 && j < |parts|
    ensures var before, i := DealtAll(parts, n, j), Turn(j, n);
            DealtAll(parts, n, j + 1) == before[i := before[i] + [parts[j]]]
  {
    hide Turn;
    var i := Turn(j, n);
    forall m | 0 <= m < n && m != i ensures Dealt(parts, n, m, j + 1) == Dealt(parts, n, m, j) {
      assert Dealt(parts, n, m, j) + [] == Dealt(parts, n, m, j);
    }
  }

  function RoundRobin(parts: seq<int>, n: nat): (s: seq<seq<int>>)
    requires n > 0
    ensures |s| == n
  {
    DealtAll(parts, n, |parts|)
  }

  lemma {:induction false} RoundRobinValid(parts: seq<int>, n: nat)
    requires n > 0
    ensures Complete(parts, RoundRobin(parts, n)) && Balanced(RoundRobin(parts, n))
  {
    hide Turn, Rounds, Bag, Dealt;
    DealtComplete(parts, n, |parts|);
    assert parts[..|parts|] == parts;
    forall i: nat | i < n ensures |RoundRobin(parts, n)[i]| == Rounds(|parts|, n) + if i < Turn(|parts|, n) then 1 else 0 {
      DealtCount(parts, n, i, |parts|);
    }
  }

  // ------------------------------------------------------------- range

  function Min(a: int, b: int): int { if a < b then a else b }

  /** Where the share of member i begins. */
  function Start(total: nat, n: nat, i: nat): nat
    requires n > 0
  {
    i * (total / n) + Min(i, total % n)
  }

  lemma StartStep(total: nat, n: nat, i: nat)
    requires n > 0
    ensures Start(total, n, i + 1) == Start(total, n, i) + total / n + if i < total % n then 1 else 0
    ensures Start(total, n, n) == total && Start(total, n, 0) == 0
  {
    MulDistributes(i, 1, total / n);
    assert n * (total / n) + total % n == total;
  }

  lemma {:induction false} StartMonotone(total: nat, n: nat, i: nat, j: nat)
    requires n > 0 && i <= j
    ensures Start(total, n, i) <= Start(total, n, j)
    decreases j
  {
    hide Start;
    if i < j {
      StartStep(total, n, j - 1);
      StartMonotone(total, n, i, j - 1);
    }
  }

  function RangeShare(parts: seq<int>, n: nat, i: nat): seq<int>
    requires i < n
  {
    StartMonotone(|parts|, n, i, i + 1);
    StartMonotone(|parts|, n, i + 1, n);
    StartStep(|parts|, n, n);
    parts[Start(|parts|, n, i)..Start(|parts|, n, i + 1)]
  }

  function Range(parts: seq<int>, n: nat): (s: seq<seq<int>>)
    ensures |s| == n
  {
    seq(n, i requires 0 <= i < n => RangeShare(parts, n, i))
  }

  lemma {:induction false} RangeCount(parts: seq<int>, n: nat, i: nat)
    requires i < n
    ensures |RangeShare(parts, n, i)| == |parts| / n + if i < |parts| % n then 1 else 0
  {
    hide Start;
    StartStep(|parts|, n, i);
    StartMonotone(|parts|, n, i, i + 1);
    StartMonotone(|parts|, n, i + 1, n);
  }

  /** The shares from member i on hold the partitions from its start on. */
  lemma {:induction false} RangeFrom(parts: seq<int>, n: nat, i: nat)
    requires i <= n && n > 0
    ensures Start(|parts|, n, i) <= |parts|
    ensures Bag(Range(parts, n)[i..]) == multiset(parts[Start(|parts|, n, i)..])
    decreases n - i
  {
    hide Start;
    StartStep(|parts|, n, n);
    StartMonotone(|parts|, n, i, n);
    var rest := Range(parts, n)[i..];
    if i < n {
      RangeFrom(parts, n, i + 1);
      StartMonotone(|parts|, n, i, i + 1);
      assert rest[1..] == Range(parts, n)[i + 1..];
      var a, b := Start(|parts|, n, i), Start(|parts|, n, i + 1);
      assert parts[a..] == parts[a..b] + parts[b..];
    }
  }

  lemma {:induction false} RangeValid(parts: seq<int>, n: nat)
    requires n > 0
    ensures Complete(parts, Range(parts, n)) && Balanced(Range(parts, n))
  {
    hide Start, Bag, RangeShare;
    RangeFrom(parts, n, 0);
    StartStep(|parts|, n, 0);
    assert Range(parts, n)[0..] == Range(parts, n);
    assert parts[0..] == parts;
    forall i: nat | i < n ensures |Range(parts, n)[i]| == |parts| / n + if i < |parts| % n then 1 else 0 {
      RangeCount(parts, n, i);
    }
  }
}
