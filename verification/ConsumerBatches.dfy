/**
 What the consume loop does with the answers a broker gives: a broker sends whole
 batches, so a fetch begins at the first entry of the batch that holds the cursor,
 and nothing between the broker and the caller drops the entries below the cursor.
 */
module ConsumerBatches {
  import opened ConsumerPoll

  /** The last place at or below n at which a batch begins; the log itself begins one. */
  function BatchStart(starts: set<nat>, n: nat): (s: nat)
    ensures s <= n
  {
    if n == 0 || n in starts then n else BatchStart(starts, n - 1)
  }

  /** The place a broker answers from: nothing is sent at the end of the log. */
  function AnswerFrom(l: seq<Item>, starts: set<nat>, offset: int): (from: nat)
    ensures from <= Below(l, offset)
  {
    var b := Below(l, offset);
    if b == |l| then b else BatchStart(starts, b)
  }

  ghost predicate FetchWhole(l: seq<Item>, starts: set<nat>, a: PartitionOffset, p: Poll) {
    FetchFrom(l, AnswerFrom(l, starts, a.offset), a.key, p)
  }

  /** The cursor lies inside a batch: at neither the first entry of one nor the end of the log. */
  predicate InsideBatch(l: seq<Item>, starts: set<nat>, offset: int) {
    var b := Below(l, offset);
    0 < b < |l| && b !in starts
  }

  lemma {:induction false} InsideIff(l: seq<Item>, starts: set<nat>, offset: int)
    ensures InsideBatch(l, starts, offset) <==> AnswerFrom(l, starts, offset) < Below(l, offset)
  {
    hide Below;
  }

  function Min(a: nat, b: nat): nat { if a < b then a else b }

  // ------------------------------------------------------------- one poll

  /** The records a poll delivers for a partition although they lie below its cursor. */
  function Again(l: seq<Item>, starts: set<nat>, a: PartitionOffset, p: Poll): seq<Item> {
    var from, b := AnswerFrom(l, starts, a.offset), Below(l, a.offset);
    Data(l[from..Min(b, from + |Only(Consumed(p), a.key)|)])
  }

  /** The run that is consumed and the new place of the cursor, which never moves back. */
  lemma {:induction false} WholePoll(l: seq<Item>, starts: set<nat>, a: seq<PartitionOffset>, i: nat, p: Poll)
    returns (m: nat)
    requires DistinctKeys(a) && i < |a| && IsLog(l) && FetchWhole(l, starts, a[i], p)
    requires Sought(p.seeks, a[i]) == a[i]
    ensures var from, b := AnswerFrom(l, starts, a[i].offset), Below(l, a[i].offset);
            && m == |Only(Consumed(p), a[i].key)| && from + m <= |l|
            && Only(Consumed(p), a[i].key) == l[from..from + m]
            && Only(Data(Consumed(p)), a[i].key) == Data(l[from..from + m])
            && Below(l, Next(a, p)[i].offset) == (if from + m > b then from + m else b)
            && (from + m <= b ==> Next(a, p)[i] == a[i])
  {
    hide Only, Data, FetchFrom, Next, Below, Consumed;
    var from := AnswerFrom(l, starts, a[i].offset);
    m := PollFrom(l, a, i, p, from);
    if from + m > Below(l, a[i].offset) { BelowAfter(l, from, m); }
  }

  /**
   A poll takes an entry of a partition below its cursor if and only if it takes
   one at all and the cursor lies inside a batch.
   */
  lemma {:induction false} TakenAgainIff(l: seq<Item>, starts: set<nat>, a: seq<PartitionOffset>, i: nat, p: Poll)
    requires DistinctKeys(a) && i < |a| && IsLog(l) && FetchWhole(l, starts, a[i], p)
    requires Sought(p.seeks, a[i]) == a[i]
    ensures (exists it :: it in Only(Consumed(p), a[i].key) && it.offset < a[i].offset)
            <==> Only(Consumed(p), a[i].key) != [] && InsideBatch(l, starts, a[i].offset)
  {
    hide Only, Data, FetchFrom, Next, Below, Consumed, AnswerFrom, InsideBatch;
    var taken, from := Only(Consumed(p), a[i].key), AnswerFrom(l, starts, a[i].offset);
    InsideIff(l, starts, a[i].offset);
    BelowIs(l, a[i].offset);
    var m := WholePoll(l, starts, a, i, p);
    if taken != [] && InsideBatch(l, starts, a[i].offset) {
      assert taken[0] == l[from];
      assert taken[0] in taken;
    }
    forall it | it in taken && it.offset < a[i].offset
      ensures InsideBatch(l, starts, a[i].offset)
    {
      var n :| 0 <= n < |taken| && taken[n] == it;
      assert it == l[from + n];
    }
  }

  /** What is delivered is what lies below the cursor, then the log's data up to the new cursor. */
  lemma {:induction false} WholeDelivers(l: seq<Item>, starts: set<nat>, a: seq<PartitionOffset>, i: nat, p: Poll)
    requires DistinctKeys(a) && i < |a| && IsLog(l) && FetchWhole(l, starts, a[i], p)
    requires Sought(p.seeks, a[i]) == a[i]
    ensures var b, b' := Below(l, a[i].offset), Below(l, Next(a, p)[i].offset);
            && b <= b'
            && Only(Data(Consumed(p)), a[i].key) == Again(l, starts, a[i], p) + Data(l[b..b'])
  {
    hide Only, Data, FetchFrom, Next, Below, Consumed, AnswerFrom;
    var from, b := AnswerFrom(l, starts, a[i].offset), Below(l, a[i].offset);
    var m := WholePoll(l, starts, a, i, p);
    if from + m > b {
      assert l[from..from + m] == l[from..b] + l[b..from + m];
      DataConcat(l[from..b], l[b..from + m]);
    } else {
      NoData();
      assert l[b..b] == [];
      assert Data(l[from..from + m]) + [] == Data(l[from..from + m]);
    }
  }

  // ------------------------------------------------------------- runs of polls

  ghost predicate RunWhole(l: seq<Item>, starts: set<nat>, a: seq<PartitionOffset>, i: nat, ps: seq<Poll>)
    requires i < |a|
    decreases |ps|
  {
    ps == [] || (FetchWhole(l, starts, a[i], ps[0]) && RunWhole(l, starts, Next(a, ps[0]), i, ps[1..]))
  }

  /** No poll of the run delivers a record from below its cursor. */
  ghost predicate NothingAgain(l: seq<Item>, starts: set<nat>, a: seq<PartitionOffset>, i: nat, ps: seq<Poll>)
    requires i < |a|
    decreases |ps|
  {
    ps == [] || (Again(l, starts, a[i], ps[0]) == [] && NothingAgain(l, starts, Next(a, ps[0]), i, ps[1..]))
  }

  /** The cursor is at a batch boundary before every poll. */
  ghost predicate AtBoundaries(l: seq<Item>, starts: set<nat>, a: seq<PartitionOffset>, i: nat, ps: seq<Poll>)
    requires i < |a|
    decreases |ps|
  {
    ps == [] || (!InsideBatch(l, starts, a[i].offset) && AtBoundaries(l, starts, Next(a, ps[0]), i, ps[1..]))
  }

  lemma {:induction false} BoundariesAgain(l: seq<Item>, starts: set<nat>, a: seq<PartitionOffset>, i: nat, ps: seq<Poll>)
    requires i < |a| && AtBoundaries(l, starts, a, i, ps)
    ensures NothingAgain(l, starts, a, i, ps)
    decreases |ps|
  {
    hide Data, Next, Below, Consumed, AnswerFrom, InsideBatch, Only;
    if ps != [] {
      var b := Below(l, a[i].offset);
      InsideIff(l, starts, a[i].offset);
      NoData();
      assert l[b..b] == [];
      BoundariesAgain(l, starts, Next(a, ps[0]), i, ps[1..]);
    }
  }

  /**
   Over any run of polls in which a partition is not repositioned, nothing of its
   log is lost; and what is delivered for it is exactly its log's data from the
   first cursor to the last one if and only if no poll delivers a record again.
   */
  lemma {:induction false} RunWholeExact(l: seq<Item>, starts: set<nat>, a: seq<PartitionOffset>, i: nat, ps: seq<Poll>)
    requires DistinctKeys(a) && i < |a| && IsLog(l) && RunWhole(l, starts, a, i, ps) && NeverSought(ps, a[i].key)
    ensures var b, b' := Below(l, a[i].offset), Below(l, After(a, ps)[i].offset);
            var out := Only(Delivered(ps), a[i].key);
            && b <= b' && |out| >= |Data(l[b..b'])|
            && (out == Data(l[b..b']) <==> NothingAgain(l, starts, a, i, ps))
            && (|out| == |Data(l[b..b'])| ==> out == Data(l[b..b']))
            && forall it :: it in Data(l[b..b']) ==> it in out
    decreases |ps|
  {
    hide Data, Next, Below, Consumed, Only, Again, FetchWhole;
    var k, b := a[i].key, Below(l, a[i].offset);
    if ps == [] {
      NoData();
      OnlyNothing(k);
      assert l[b..b] == [];
    } else {
      var p := ps[0];
      assert p == ps[0];
      NotSought(p.seeks, a[i]);
      WholeDelivers(l, starts, a, i, p);
      NextKeys(a, p);
      SoughtTail(ps, k);
      RunWholeExact(l, starts, Next(a, p), i, ps[1..]);
      OnlyConcat(Data(Consumed(p)), Delivered(ps[1..]), k);
      var b1, b2 := Below(l, Next(a, p)[i].offset), Below(l, After(a, ps)[i].offset);
      assert l[b..b2] == l[b..b1] + l[b1..b2];
      DataConcat(l[b..b1], l[b1..b2]);
      Extra(Again(l, starts, a[i], p), Data(l[b..b1]), Only(Delivered(ps[1..]), k), Data(l[b1..b2]));
    }
  }

  /** Sequences with something put in before each part: equal exactly when nothing is put in. */
  lemma {:induction false} Extra(e: seq<Item>, x: seq<Item>, out: seq<Item>, y: seq<Item>)
    requires |out| >= |y| && (|out| == |y| ==> out == y) && forall it :: it in y ==> it in out
    ensures var whole := e + x + out;
            && |whole| >= |x + y|
            && (whole == x + y <==> e == [] && out == y)
            && (|whole| == |x + y| ==> whole == x + y)
            && forall it :: it in x + y ==> it in whole
  {
    var whole := e + x + out;
    if |whole| == |x + y| { assert e == []; assert e + x == x; }
  }

  /** If the cursor is at a batch boundary before every poll, the run delivers each record exactly once. */
  lemma {:induction false} BoundariesExact(l: seq<Item>, starts: set<nat>, a: seq<PartitionOffset>, i: nat, ps: seq<Poll>)
    requires DistinctKeys(a) && i < |a| && IsLog(l) && RunWhole(l, starts, a, i, ps) && NeverSought(ps, a[i].key)
    requires AtBoundaries(l, starts, a, i, ps)
    ensures var b, b' := Below(l, a[i].offset), Below(l, After(a, ps)[i].offset);
            b <= b' && Only(Delivered(ps), a[i].key) == Data(l[b..b'])
  {
    BoundariesAgain(l, starts, a, i, ps);
    RunWholeExact(l, starts, a, i, ps);
  }

  // ------------------------------------------------------------- a cursor that does not move

  /** A consumer of one partition that is sent all the rest of its log from the batch start on. */
  function SoleFetch(l: seq<Item>, starts: set<nat>, a: PartitionOffset, max: int): Poll {
    Poll([l[AnswerFrom(l, starts, a.offset)..]], max, [])
  }

  ghost predicate AllOf(l: seq<Item>, k: Key) { forall i :: 0 <= i < |l| ==> l[i].key == k }

  lemma {:induction false} OnlyAll(l: seq<Item>, k: Key)
    requires AllOf(l, k)
    ensures Only(l, k) == l
  {
    if l != [] { OnlyAll(l[1..], k); }
  }

  /** The cut falls inside the first part exactly when that part alone reaches the limit. */
  ghost predicate CutAt(a: seq<Item>, b: seq<Item>, max: int, have: nat) {
    Take(a + b, max, have) == if have + |Data(a)| >= max then Take(a, max, have) else a + Take(b, max, have + |Data(a)|)
  }

  lemma {:induction false} TakeConcat(a: seq<Item>, b: seq<Item>, max: int, have: nat)
    requires have < max
    ensures CutAt(a, b, max, have)
  {
    if a == [] {
      assert a + b == b;
      assert a + Take(b, max, have) == Take(b, max, have);
    } else {
      hide CutAt;
      var have' := have + if a[0].data then 1 else 0;
      if have' < max { TakeConcat(a[1..], b, max, have'); }
      CutOneMore(a[0], a[1..], b, max, have);
      assert a == [a[0]] + a[1..];
    }
  }

  lemma {:induction false} CutOneMore(it: Item, rest: seq<Item>, b: seq<Item>, max: int, have: nat)
    requires have < max
    requires var have' := have + if it.data then 1 else 0;
             have' >= max || CutAt(rest, b, max, have')
    ensures CutAt([it] + rest, b, max, have)
  {
    hide Take, Data;
    var have' := have + if it.data then 1 else 0;
    DataFirst([it] + rest);
    assert ([it] + rest)[1..] == rest;
    TakeUnfold(it, rest, max, have);
    TakeUnfold(it, rest + b, max, have);
    FirstOut(it, rest, b);
    FirstOut(it, rest, Take(b, max, have' + |Data(rest)|));
  }

  lemma {:induction false} FirstOut(it: Item, rest: seq<Item>, b: seq<Item>)
    ensures [it] + rest + b == [it] + (rest + b)
  {}

  /** Cutting twice at the same limit is cutting once. */
  lemma {:induction false} TakeTwice(items: seq<Item>, max: int, have: nat)
    requires have < max
    ensures Take(Take(items, max, have), max, have) == Take(items, max, have)
  {
    if items != [] {
      var have' := have + if items[0].data then 1 else 0;
      assert Take(items, max, have)[0] == items[0];
      if have' < max {
        TakeTwice(items[1..], max, have');
        assert Take(items, max, have)[1..] == Take(items[1..], max, have');
      }
    }
  }

  lemma {:induction false} SoleConsumed(l: seq<Item>, max: int)
    ensures Consumed(Poll([l], max, [])) == Take(l, Limit(max), 0)
  {
    hide Take;
    var limit := Limit(max);
    assert Capped([l], limit) == [Take(l, limit, 0)];
    FlattenStep(Capped([l], limit), 0);
    FlattenNone(Capped([l], limit));
    assert Capped([l], limit)[0..] == Capped([l], limit);
    assert Take(l, limit, 0) + [] == Take(l, limit, 0);
    TakeTwice(l, limit, 0);
  }

  lemma {:induction false} SoleFetchWhole(l: seq<Item>, starts: set<nat>, a: PartitionOffset, max: int)
    requires AllOf(l, a.key)
    ensures FetchWhole(l, starts, a, SoleFetch(l, starts, a, max))
    ensures Only(Consumed(SoleFetch(l, starts, a, max)), a.key) == Consumed(SoleFetch(l, starts, a, max))
  {
    hide Take, Only, Below;
    var rest, p := l[AnswerFrom(l, starts, a.offset)..], SoleFetch(l, starts, a, max);
    OnlyAll(rest, a.key);
    SoleConsumed(rest, max);
    OnlyAll(Consumed(p), a.key);
    assert FetchedRun(l, AnswerFrom(l, starts, a.offset), a.key, p.fetched, 0);
  }

  /**
   Short of the log's end, the cursor stays where it is if and only if the part of
   its batch below it holds as many records as one poll may deliver.
   */
  lemma {:induction false} StuckIff(l: seq<Item>, starts: set<nat>, a: PartitionOffset, max: int)
    requires IsLog(l) && AllOf(l, a.key) && Below(l, a.offset) < |l|
    ensures Next([a], SoleFetch(l, starts, a, max))[0] == a
            <==> |Data(l[AnswerFrom(l, starts, a.offset)..Below(l, a.offset)])| >= Limit(max)
  {
    hide Take, Only, Data, Below, Next, Consumed, AnswerFrom, FetchWhole;
    var from, b, limit := AnswerFrom(l, starts, a.offset), Below(l, a.offset), Limit(max);
    var p, low, high := SoleFetch(l, starts, a, max), l[from..b], l[b..];
    assert l[from..] == low + high;
    SoleFetchWhole(l, starts, a, max);
    SoleConsumed(l[from..], max);
    TakeConcat(low, high, limit, 0);
    if |Data(low)| < limit { TakeFirst(high, limit, |Data(low)|); }
    var m := WholePoll(l, starts, [a], 0, p);
  }

  lemma {:induction false} TakeFirst(items: seq<Item>, max: int, have: nat)
    requires items != []
    ensures Take(items, max, have) != []
  {}

  /** Polling n times with the same limit. */
  function Polls(l: seq<Item>, starts: set<nat>, a: PartitionOffset, max: int, n: nat): (ps: seq<Poll>)
    ensures |ps| == n
    decreases n
  {
    if n == 0 then [] else
      var p := SoleFetch(l, starts, a, max);
      [p] + Polls(l, starts, Next([a], p)[0], max, n - 1)
  }

  function Repeated(items: seq<Item>, n: nat): seq<Item> {
    if n == 0 then [] else items + Repeated(items, n - 1)
  }

  /** A cursor that stays stays for good: every further poll delivers the same records, all of them again. */
  lemma {:induction false} StuckForever(l: seq<Item>, starts: set<nat>, a: PartitionOffset, max: int, n: nat)
    requires IsLog(l) && AllOf(l, a.key) && Below(l, a.offset) < |l|
    requires |Data(l[AnswerFrom(l, starts, a.offset)..Below(l, a.offset)])| >= Limit(max)
    ensures After([a], Polls(l, starts, a, max, n)) == [a]
    ensures Delivered(Polls(l, starts, a, max, n))
            == Repeated(Data(Consumed(SoleFetch(l, starts, a, max))), n)
  {
    hide Take, Only, Data, Below, Next, Consumed, AnswerFrom;
    if n > 0 {
      var p := SoleFetch(l, starts, a, max);
      StuckIff(l, starts, a, max);
      assert Next([a], p) == [a];
      StuckForever(l, starts, a, max, n - 1);
      PollsFirst(l, starts, a, a, max, n - 1);
    }
  }

  /** A batch of two records read one at a time: the second is never delivered, the first without end. */
  lemma {:induction false} TwoRecords(k: Key, x: nat, y: nat, n: nat)
    ensures var l := [Item(k, 0, true, x), Item(k, 1, true, y)];
            var start := PartitionOffset(k, 0);
            && After([start], Polls(l, {0}, start, 1, n + 1)) == [PartitionOffset(k, 1)]
            && Delivered(Polls(l, {0}, start, 1, n + 1)) == Repeated([l[0]], n + 1)
  {
    hide Take, Only, Data, Below, Next, Consumed, AnswerFrom, SoleFetch;
    var l := [Item(k, 0, true, x), Item(k, 1, true, y)];
    var start, next := PartitionOffset(k, 0), PartitionOffset(k, 1);
    FirstOnly(l, start, next);
    StuckForever(l, {0}, next, 1, n);
    PollsFirst(l, {0}, start, next, 1, n);
  }

  /** A run of polls is its first poll and the run after it. */
  lemma {:induction false} PollsFirst(l: seq<Item>, starts: set<nat>, a: PartitionOffset, b: PartitionOffset, max: int, n: nat)
    requires Next([a], SoleFetch(l, starts, a, max)) == [b]
    ensures After([a], Polls(l, starts, a, max, n + 1)) == After([b], Polls(l, starts, b, max, n))
    ensures Delivered(Polls(l, starts, a, max, n + 1))
            == Data(Consumed(SoleFetch(l, starts, a, max))) + Delivered(Polls(l, starts, b, max, n))
  {
    hide Data, Consumed, SoleFetch, Next;
    var ps := Polls(l, starts, a, max, n + 1);
    assert ps[1..] == Polls(l, starts, b, max, n);
  }

  lemma {:induction false} FirstOnly(l: seq<Item>, start: PartitionOffset, next: PartitionOffset)
    requires |l| == 2 && l == [Item(start.key, 0, true, l[0].value), Item(start.key, 1, true, l[1].value)]
    requires start == PartitionOffset(start.key, 0) && next == PartitionOffset(start.key, 1)
    ensures SoleFetch(l, {0}, start, 1) == SoleFetch(l, {0}, next, 1) == Poll([l], 1, [])
    ensures Next([start], Poll([l], 1, [])) == [next]
    ensures Data(Consumed(Poll([l], 1, []))) == [l[0]]
    ensures Below(l, 1) == 1 && AnswerFrom(l, {0}, 1) == 0 && |Data(l[0..1])| == 1
  {
    hide Only, Below, CursorOf, FromMap;
    var p := Poll([l], 1, []);
    BelowUnique(l, 0, 0);
    BelowUnique(l, 1, 1);
    assert l[0..] == l;
    assert l[0..1] == [l[0]];
    SoleConsumed(l, 1);
    assert Take(l, 1, 0) == [l[0]];
    CursorIs([l[0]], start.key);
    OnlyAll([l[0]], start.key);
    FromMapAt([start], 0);
  }
}
