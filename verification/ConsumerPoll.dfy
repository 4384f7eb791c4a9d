/**
 The consume loop: fetch from the cursors, deliver at most `maxPoll` records and
 move each cursor just behind what was delivered, over whole runs of polls.
 */
module ConsumerPoll {
  datatype Key = Key(topic: string, part: int)

  /** A fetched entry: a data record, or a marker that only moves the cursor. */
  datatype Item = Item(key: Key, offset: int, data: bool, value: nat)

  datatype PartitionOffset = PartitionOffset(key: Key, offset: int)

  // ------------------------------------------------------------- items

  function Data(items: seq<Item>): seq<Item> {
    if items == [] then [] else (if items[0].data then [items[0]] else []) + Data(items[1..])
  }

  /** The items of one partition, in order. */
  function Only(items: seq<Item>, k: Key): seq<Item> {
    if items == [] then [] else (if items[0].key == k then [items[0]] else []) + Only(items[1..], k)
  }

  function Flatten(nodes: seq<seq<Item>>): seq<Item> {
    if nodes == [] then [] else nodes[0] + Flatten(nodes[1..])
  }

  /** Items up to and with the one that makes the number of records reach max; all when max is not positive. */
  function Take(items: seq<Item>, max: int, have: nat): (r: seq<Item>)
    ensures r <= items
  {
    if items == [] then []
    else
      var have' := have + if items[0].data then 1 else 0;
      [items[0]] + if max > 0 && items[0].data && have' >= max then [] else Take(items[1..], max, have')
  }

  /** For each partition, the offset behind its last item. */
  function CursorOf(items: seq<Item>): map<Key, int> {
    if items == [] then map[]
    else
      var it := items[|items| - 1];
      CursorOf(items[..|items| - 1])[it.key := it.offset + 1]
  }

  lemma {:induction false} DataConcat(a: seq<Item>, b: seq<Item>)
    ensures Data(a + b) == Data(a) + Data(b)
  {
    if a == [] {
      assert a + b == b;
    } else {
      DataConcat(a[1..], b);
      DataOneMore(a, b);
    }
  }

  lemma {:induction false} DataOneMore(a: seq<Item>, b: seq<Item>)
    requires a != [] && Data(a[1..] + b) == Data(a[1..]) + Data(b)
    ensures Data(a + b) == Data(a) + Data(b)
  {
    hide Data;
    DataFirst(a);
    DataFirst(a + b);
    assert (a + b)[1..] == a[1..] + b;
    var first := if a[0].data then [a[0]] else [];
    assert first + (Data(a[1..]) + Data(b)) == first + Data(a[1..]) + Data(b);
  }

  lemma {:induction false} DataFirst(a: seq<Item>)
    requires a != []
    ensures Data(a) == (if a[0].data then [a[0]] else []) + Data(a[1..])
  {}

  lemma {:induction false} OnlyConcat(a: seq<Item>, b: seq<Item>, k: Key)
    ensures Only(a + b, k) == Only(a, k) + Only(b, k)
  {
    if a == [] { assert a + b == b; } else {
      assert (a + b)[1..] == a[1..] + b;
      OnlyConcat(a[1..], b, k);
    }
  }

  lemma {:induction false} OnlyPrefix(a: seq<Item>, b: seq<Item>, k: Key)
    requires a <= b
    ensures Only(a, k) <= Only(b, k)
  {
    assert b == a + b[|a|..];
    OnlyConcat(a, b[|a|..], k);
  }

  /** Restricting to a partition and to data can be done in either order. */
  lemma {:induction false} DataOnly(items: seq<Item>, k: Key)
    ensures Only(Data(items), k) == Data(Only(items, k))
  {
    if items != [] {
      var it, rest := items[0], items[1..];
      DataOnly(rest, k);
      OnlyConcat(if it.data then [it] else [], Data(rest), k);
      DataConcat(if it.key == k then [it] else [], Only(rest, k));
      assert Only([it], k) == if it.key == k then [it] else [];
      assert Data([it]) == if it.data then [it] else [];
    }
  }

  /** The cursor of a partition is behind its last item. */
  lemma {:induction false} CursorIs(items: seq<Item>, k: Key)
    ensures k in CursorOf(items) <==> Only(items, k) != []
    ensures Only(items, k) != [] ==> CursorOf(items)[k] == Only(items, k)[|Only(items, k)| - 1].offset + 1
  {
    if items != [] {
      var n := |items| - 1;
      CursorIs(items[..n], k);
      OnlyConcat(items[..n], [items[n]], k);
      assert items == items[..n] + [items[n]];
    }
  }

  lemma {:induction false} TakeCounts(items: seq<Item>, max: int, have: nat)
    requires max > 0 && have < max
    ensures have + |Data(Take(items, max, have))| <= max
    ensures Take(items, max, have) == items || have + |Data(Take(items, max, have))| == max
  {
    if items != [] {
      var t := Take(items, max, have);
      var have' := have + if items[0].data then 1 else 0;
      if items[0].data && have' >= max {
        assert t == [items[0]];
      } else {
        TakeCounts(items[1..], max, have');
        assert t[1..] == Take(items[1..], max, have');
      }
    }
  }

  // ------------------------------------------------------------- the loops

  /** The state of a loop that has consumed `seen` and not yet `left` of the items. */
  ghost predicate TakenSoFar(items: seq<Item>, max: int, seen: seq<Item>, left: seq<Item>, full: bool) {
    Take(items, max, 0) == seen + if full then [] else Take(left, max, |Data(seen)|)
  }

  lemma {:induction false} TakeStart(items: seq<Item>, max: int)
    ensures TakenSoFar(items, max, [], items, false)
  {
    assert [] + Take(items, max, 0) == Take(items, max, 0);
  }

  lemma {:induction false} TakeOne(items: seq<Item>, max: int, seen: seq<Item>, it: Item, left: seq<Item>)
    requires TakenSoFar(items, max, seen, [it] + left, false)
    ensures Data(seen + [it]) == Data(seen) + (if it.data then [it] else [])
    ensures CursorOf(seen + [it]) == CursorOf(seen)[it.key := it.offset + 1]
    ensures TakenSoFar(items, max, seen + [it], left, max > 0 && it.data && |Data(seen)| + 1 >= max)
  {
    hide Data, CursorOf, Take;
    Snoc(seen, it);
    TakeUnfold(it, left, max, |Data(seen)|);
    Regroup(seen, it, if max > 0 && it.data && |Data(seen)| + 1 >= max then [] else Take(left, max, |Data(seen + [it])|));
  }

  lemma {:induction false} Regroup(seen: seq<Item>, it: Item, rest: seq<Item>)
    ensures seen + ([it] + rest) == seen + [it] + rest
  {}

  lemma {:induction false} Snoc(seen: seq<Item>, it: Item)
    ensures Data(seen + [it]) == Data(seen) + (if it.data then [it] else [])
    ensures CursorOf(seen + [it]) == CursorOf(seen)[it.key := it.offset + 1]
  {
    DataConcat(seen, [it]);
    assert Data([it]) == if it.data then [it] else [];
    assert (seen + [it])[..|seen|] == seen;
  }

  lemma {:induction false} TakeUnfold(it: Item, left: seq<Item>, max: int, have: nat)
    ensures var have' := have + if it.data then 1 else 0;
            Take([it] + left, max, have) == [it] + if max > 0 && it.data && have' >= max then [] else Take(left, max, have')
  {
    assert ([it] + left)[1..] == left;
  }

  lemma {:induction false} TakeEnd(items: seq<Item>, max: int, seen: seq<Item>, full: bool)
    requires TakenSoFar(items, max, seen, [], full)
    ensures Take(items, max, 0) == seen
  {
    assert seen + [] == seen;
  }

  /** The cap of `fetchFromBroker`. */
  method CapItems(fetched: seq<Item>, maxRecords: int) returns (items: seq<Item>)
    ensures items == Take(fetched, maxRecords, 0)
  {
    hide Take, TakenSoFar, CursorOf, Data;
    items := [];
    var data := 0;
    TakeStart(fetched, maxRecords);
    assert fetched[0..] == fetched;
    assert Data([]) == [] by { NoData(); }
    for i: nat := 0 to |fetched|
      invariant TakenSoFar(fetched, maxRecords, items, fetched[i..], false) && data == |Data(items)|
    {
      var it := fetched[i];
      assert fetched[i..] == [it] + fetched[i + 1..];
      TakeOne(fetched, maxRecords, items, it, fetched[i + 1..]);
      items := items + [it];
      if it.data { data := data + 1; }
      if maxRecords > 0 && it.data && data >= maxRecords {
        TakeFull(fetched, maxRecords, items, fetched[i + 1..]);
        return;
      }
    }
    TakeEnd(fetched, maxRecords, items, false);
  }

  lemma {:induction false} NoData()
    ensures Data([]) == [] && CursorOf([]) == map[]
  {}

  lemma {:induction false} TakeFull(items: seq<Item>, max: int, seen: seq<Item>, left: seq<Item>)
    requires TakenSoFar(items, max, seen, left, true)
    ensures Take(items, max, 0) == seen
  {
    assert seen + [] == seen;
  }

  /** `aggregateFetches`: one cut over all nodes, and the cursors behind what is delivered. */
  method AggregateFetches(nodes: seq<seq<Item>>, maxPoll: int) returns (out: seq<Item>, cursor: map<Key, int>)
    ensures out == Data(Take(Flatten(nodes), maxPoll, 0))
    ensures cursor == CursorOf(Take(Flatten(nodes), maxPoll, 0))
  {
    hide Take, TakenSoFar, CursorOf, Data, Flatten;
    out, cursor := [], map[];
    ghost var all, seen := Flatten(nodes), [];
    NoData();
    TakeStart(all, maxPoll);
    assert nodes[0..] == nodes;
    for n: nat := 0 to |nodes|
      invariant TakenSoFar(all, maxPoll, seen, Flatten(nodes[n..]), false)
      invariant out == Data(seen) && cursor == CursorOf(seen)
    {
      FlattenStep(nodes, n);
      ghost var rest := Flatten(nodes[n + 1..]);
      var items := nodes[n];
      assert items[0..] == items;
      for i: nat := 0 to |items|
        invariant TakenSoFar(all, maxPoll, seen, items[i..] + rest, false)
        invariant out == Data(seen) && cursor == CursorOf(seen)
      {
        var it := items[i];
        assert items[i..] + rest == [it] + (items[i + 1..] + rest);
        TakeOne(all, maxPoll, seen, it, items[i + 1..] + rest);
        cursor := cursor[it.key := it.offset + 1];
        seen := seen + [it];
        if it.data {
          out := out + [it];
          if maxPoll > 0 && |out| >= maxPoll {
            TakeFull(all, maxPoll, seen, items[i + 1..] + rest);
            return;
          }
        }
      }
      assert items[|items|..] + rest == rest;
    }
    FlattenNone(nodes);
    TakeEnd(all, maxPoll, seen, false);
  }

  lemma {:induction false} FlattenStep(nodes: seq<seq<Item>>, n: nat)
    requires n < |nodes|
    ensures Flatten(nodes[n..]) == nodes[n] + Flatten(nodes[n + 1..])
  {
    assert nodes[n..][1..] == nodes[n + 1..];
  }

  lemma {:induction false} FlattenNone(nodes: seq<seq<Item>>)
    ensures Flatten(nodes[|nodes|..]) == []
  {}

  // ------------------------------------------------------------- logs

  /** A partition's log: entries with ascending offsets, not necessarily consecutive. */
  ghost predicate IsLog(l: seq<Item>) { forall i, j :: 0 <= i < j < |l| ==> l[i].offset < l[j].offset }

  /** How many entries lie below an offset. */
  function Below(l: seq<Item>, o: int): (n: nat)
    ensures n <= |l|
  {
    if l == [] then 0 else if l[|l| - 1].offset < o then |l| else Below(l[..|l| - 1], o)
  }

  lemma {:induction false} BelowIs(l: seq<Item>, o: int)
    requires IsLog(l)
    ensures forall i :: 0 <= i < Below(l, o) ==> l[i].offset < o
    ensures forall i :: Below(l, o) <= i < |l| ==> l[i].offset >= o
  {
    if l != [] && l[|l| - 1].offset >= o {
      var m := l[..|l| - 1];
      BelowIs(m, o);
      assert forall i :: 0 <= i < |m| ==> l[i] == m[i];
    }
  }

  lemma {:induction false} BelowUnique(l: seq<Item>, o: int, n: nat)
    requires IsLog(l) && n <= |l|
    requires (forall i :: 0 <= i < n ==> l[i].offset < o) && forall i :: n <= i < |l| ==> l[i].offset >= o
    ensures Below(l, o) == n
  {
    if l != [] && l[|l| - 1].offset >= o { BelowUnique(l[..|l| - 1], o, n); }
  }

  /** Everything delivered since the origin is the log's data from there up to the cursor. */
  ghost predicate Exact(l: seq<Item>, origin: int, offset: int, history: seq<Item>) {
    && IsLog(l)
    && Below(l, origin) <= Below(l, offset)
    && history == Data(l[Below(l, origin)..Below(l, offset)])
  }

  lemma {:induction false} ExactAtOrigin(l: seq<Item>, o: int)
    requires IsLog(l)
    ensures Exact(l, o, o, [])
  {}

  /** Delivering the next m entries and moving the cursor behind them keeps the history exact. */
  lemma {:induction false} ExactStep(l: seq<Item>, origin: int, offset: int, history: seq<Item>, m: nat)
    requires Exact(l, origin, offset, history) && m > 0 && Below(l, offset) + m <= |l|
    ensures var b := Below(l, offset);
            var next := l[b + m - 1].offset + 1;
            next > offset && Exact(l, origin, next, history + Data(l[b..b + m]))
  {
    hide Data, Below;
    var a, b := Below(l, origin), Below(l, offset);
    BelowIs(l, offset);
    BelowAfter(l, b, m);
    DataConcat(l[a..b], l[b..b + m]);
    assert l[a..b] + l[b..b + m] == l[a..b + m];
  }

  lemma {:induction false} BelowAfter(l: seq<Item>, b: nat, m: nat)
    requires IsLog(l) && m > 0 && b + m <= |l|
    ensures Below(l, l[b + m - 1].offset + 1) == b + m
  {
    BelowUnique(l, l[b + m - 1].offset + 1, b + m);
  }

  // ------------------------------------------------------------- what a fetch may return

  /** Partition k is fetched from one node only, as a run of its log from a place on. */
  ghost predicate FetchedRun(l: seq<Item>, from: nat, k: Key, fetched: seq<seq<Item>>, owner: int) {
    && from <= |l|
    && NoneBut(fetched, k, owner)
    && (0 <= owner < |fetched| ==> Only(fetched[owner], k) <= l[from..])
  }

  ghost predicate CappedOf(fetched: seq<seq<Item>>, nodes: seq<seq<Item>>) {
    |nodes| == |fetched| && forall n :: 0 <= n < |nodes| ==> nodes[n] <= fetched[n]
  }

  /** No node but the owner has items of partition k. */
  ghost predicate NoneBut(nodes: seq<seq<Item>>, k: Key, owner: int) {
    forall n :: 0 <= n < |nodes| && n != owner ==> Only(nodes[n], k) == []
  }

  lemma {:induction false} NoneButTail(nodes: seq<seq<Item>>, k: Key, owner: int)
    requires nodes != [] && NoneBut(nodes, k, owner)
    ensures NoneBut(nodes[1..], k, owner - 1)
    ensures owner != 0 ==> Only(nodes[0], k) == []
  {}

  lemma {:induction false} OnlyOwner(nodes: seq<seq<Item>>, k: Key, owner: int)
    requires NoneBut(nodes, k, owner)
    ensures Only(Flatten(nodes), k) == if 0 <= owner < |nodes| then Only(nodes[owner], k) else []
    decreases |nodes|
  {
    if nodes != [] {
      hide Only, NoneBut;
      NoneButTail(nodes, k, owner);
      OnlyConcat(nodes[0], Flatten(nodes[1..]), k);
      OnlyOwner(nodes[1..], k, owner - 1);
    }
  }

  /** What is consumed of partition k is a run of its log from that place on. */
  lemma {:induction false} ConsumedRun(l: seq<Item>, from: nat, k: Key, fetched: seq<seq<Item>>, owner: int,
                                       nodes: seq<seq<Item>>, max: int) returns (m: nat)
    requires FetchedRun(l, from, k, fetched, owner) && CappedOf(fetched, nodes)
    ensures from + m <= |l| && m == |Only(Take(Flatten(nodes), max, 0), k)|
    ensures Only(Take(Flatten(nodes), max, 0), k) == l[from..from + m]
  {
    hide Take, Flatten, Only;
    var taken := Take(Flatten(nodes), max, 0);
    OnlyPrefix(taken, Flatten(nodes), k);
    forall n | 0 <= n < |nodes| && n != owner ensures Only(nodes[n], k) == [] {
      OnlyPrefix(nodes[n], fetched[n], k);
    }
    OnlyOwner(nodes, k, owner);
    if 0 <= owner < |nodes| { OnlyPrefix(nodes[owner], fetched[owner], k); }
    m := |Only(taken, k)|;
    PrefixOfRest(Only(taken, k), l, from);
  }

  lemma {:induction false} PrefixOfRest(a: seq<Item>, l: seq<Item>, b: nat)
    requires b <= |l| && a <= l[b..]
    ensures b + |a| <= |l| && a == l[b..b + |a|]
  {}

  // ------------------------------------------------------------- the consumer

  ghost predicate DistinctKeys(a: seq<PartitionOffset>) {
    forall i, j :: 0 <= i < j < |a| ==> a[i].key != a[j].key
  }

  /** Where the fetch of each partition was issued from. */
  function FromMap(a: seq<PartitionOffset>): map<Key, int> {
    if a == [] then map[] else FromMap(a[..|a| - 1])[a[|a| - 1].key := a[|a| - 1].offset]
  }

  lemma {:induction false} FromMapAt(a: seq<PartitionOffset>, i: nat)
    requires DistinctKeys(a) && i < |a|
    ensures a[i].key in FromMap(a) && FromMap(a)[a[i].key] == a[i].offset
  {
    if i < |a| - 1 {
      var b := a[..|a| - 1];
      assert b[i] == a[i];
      FromMapAt(b, i);
    }
  }

  /** The compare-and-set of one cursor. */
  function Advance(from: map<Key, int>, cursor: map<Key, int>, a: PartitionOffset): (r: PartitionOffset)
    ensures r.key == a.key
  {
    if a.key in cursor && a.key in from && a.offset == from[a.key] && cursor[a.key] > a.offset
    then a.(offset := cursor[a.key]) else a
  }

  /** The place a sequence of seeks leaves a cursor at. */
  function Sought(seeks: seq<PartitionOffset>, a: PartitionOffset): (r: PartitionOffset)
    ensures r.key == a.key
  {
    if seeks == [] then a
    else
      var s := seeks[|seeks| - 1];
      if s.key == a.key then s else Sought(seeks[..|seeks| - 1], a)
  }

  /** One poll: what each node returns, the cut, and the seeks that fall between the fetch and the advance. */
  datatype Poll = Poll(fetched: seq<seq<Item>>, max: int, seeks: seq<PartitionOffset>)

  function Limit(max: int): int { if max <= 0 then 500 else max }

  function Capped(fetched: seq<seq<Item>>, max: int): (nodes: seq<seq<Item>>)
    ensures |nodes| == |fetched|
  {
    seq(|fetched|, n requires 0 <= n < |fetched| => Take(fetched[n], max, 0))
  }

  function Consumed(p: Poll): seq<Item> { Take(Flatten(Capped(p.fetched, Limit(p.max))), Limit(p.max), 0) }

  function NextOf(from: map<Key, int>, p: Poll, a: PartitionOffset): PartitionOffset {
    Advance(from, CursorOf(Consumed(p)), Sought(p.seeks, a))
  }

  function Next(a: seq<PartitionOffset>, p: Poll): (b: seq<PartitionOffset>)
    ensures |b| == |a|
  {
    seq(|a|, i requires 0 <= i < |a| => NextOf(FromMap(a), p, a[i]))
  }

  class Consumer {
    var assignments: seq<PartitionOffset>

    method Seek(k: Key, offset: int) returns (found: bool)
      requires DistinctKeys(assignments)
      modifies this
      ensures found <==> exists i :: 0 <= i < |assignments| && assignments[i].key == k
      ensures |assignments| == |old(assignments)|
      ensures forall i :: 0 <= i < |assignments| ==>
                assignments[i] == if old(assignments)[i].key == k then PartitionOffset(k, offset) else old(assignments)[i]
    {
      for i := 0 to |assignments|
        invariant assignments == old(assignments)
        invariant forall j :: 0 <= j < i ==> assignments[j].key != k
      {
        if assignments[i].key == k {
          assignments := assignments[i := assignments[i].(offset := offset)];
          assert assignments[i].key == k;
          return true;
        }
      }
      found := false;
    }

    /** Moves a cursor only if it still is where the fetch was issued from. */
    method AdvanceDelivered(fetchedFrom: seq<PartitionOffset>, cursor: map<Key, int>)
      modifies this
      ensures |assignments| == |old(assignments)|
      ensures forall i :: 0 <= i < |assignments| ==>
                assignments[i] == Advance(FromMap(fetchedFrom), cursor, old(assignments)[i])
    {
      if |cursor| == 0 { return; }
      var from: map<Key, int> := map[];
      for i := 0 to |fetchedFrom|
        invariant from == FromMap(fetchedFrom[..i])
      {
        assert fetchedFrom[..i + 1][..i] == fetchedFrom[..i];
        from := from[fetchedFrom[i].key := fetchedFrom[i].offset];
      }
      assert fetchedFrom[..|fetchedFrom|] == fetchedFrom;
      for i := 0 to |assignments|
        invariant |assignments| == |old(assignments)|
        invariant forall j :: 0 <= j < i ==>
                    assignments[j] == Advance(from, cursor, old(assignments)[j])
        invariant forall j :: i <= j < |assignments| ==> assignments[j] == old(assignments)[j]
      {
        var a := assignments[i];
        if a.key in cursor && a.key in from && a.offset == from[a.key] && cursor[a.key] > a.offset {
          assignments := assignments[i := a.(offset := cursor[a.key])];
        }
      }
    }

    /** Seeks made by others while a poll is waiting for its fetches. */
    method SeekAll(seeks: seq<PartitionOffset>)
      requires DistinctKeys(assignments)
      modifies this
      ensures |assignments| == |old(assignments)|
      ensures forall i :: 0 <= i < |assignments| ==> assignments[i] == Sought(seeks, old(assignments)[i])
    {
      for n := 0 to |seeks|
        invariant |assignments| == |old(assignments)|
        invariant forall i :: 0 <= i < |assignments| ==> assignments[i] == Sought(seeks[..n], old(assignments)[i])
      {
        assert seeks[..n + 1][..n] == seeks[..n];
        var found := Seek(seeks[n].key, seeks[n].offset);
      }
      assert seeks[..|seeks|] == seeks;
    }

    method PollOnce(p: Poll) returns (out: seq<Item>)
      requires DistinctKeys(assignments)
      modifies this
      ensures out == Data(Consumed(p))
      ensures assignments == Next(old(assignments), p)
    {
      hide Take, CursorOf, Data, Flatten, FromMap, Advance, Sought;
      var from, limit := assignments, Limit(p.max);
      var nodes: seq<seq<Item>> := [];
      for n := 0 to |p.fetched|
        invariant assignments == from
        invariant |nodes| == n && forall m :: 0 <= m < n ==> nodes[m] == Take(p.fetched[m], limit, 0)
      {
        var items := CapItems(p.fetched[n], limit);
        nodes := nodes + [items];
      }
      assert nodes == Capped(p.fetched, limit);
      SeekAll(p.seeks);
      var cursor;
      out, cursor := AggregateFetches(nodes, limit);
      AdvanceDelivered(from, cursor);
    }
  }

  // ------------------------------------------------------------- what a poll and a run of polls guarantee

  /** A poll gets a run of the partition's log, from whichever node leads the partition at the time. */
  ghost predicate FetchFrom(l: seq<Item>, from: nat, k: Key, p: Poll) {
    exists owner :: FetchedRun(l, from, k, p.fetched, owner)
  }

  /** The run begins at the cursor. */
  ghost predicate FetchOk(l: seq<Item>, a: PartitionOffset, p: Poll) { FetchFrom(l, Below(l, a.offset), a.key, p) }

  lemma {:induction false} CapsArePrefixes(fetched: seq<seq<Item>>, max: int)
    ensures CappedOf(fetched, Capped(fetched, max))
  {
    hide Take;
  }

  /** One poll and one partition, from wherever the fetch begins: what is consumed, and the new cursor. */
  lemma {:induction false} PollFrom(l: seq<Item>, a: seq<PartitionOffset>, i: nat, p: Poll, from: nat) returns (m: nat)
    requires DistinctKeys(a) && i < |a| && IsLog(l) && FetchFrom(l, from, a[i].key, p) && from <= Below(l, a[i].offset)
    ensures from + m <= |l| && m == |Only(Consumed(p), a[i].key)|
    ensures Only(Consumed(p), a[i].key) == l[from..from + m]
    ensures Only(Data(Consumed(p)), a[i].key) == Data(l[from..from + m])
    ensures var sought := Sought(p.seeks, a[i]);
            Next(a, p)[i] == if sought.offset == a[i].offset && from + m > Below(l, a[i].offset)
                             then sought.(offset := l[from + m - 1].offset + 1) else sought
  {
    hide Take, Flatten, Only, Data, CursorOf, FromMap, FetchedRun, Below, IsLog;
    var k, nodes, limit := a[i].key, Capped(p.fetched, Limit(p.max)), Limit(p.max);
    FromMapAt(a, i);
    CapsArePrefixes(p.fetched, limit);
    var owner :| FetchedRun(l, from, k, p.fetched, owner);
    m := ConsumedRun(l, from, k, p.fetched, owner, nodes, limit);
    CursorIs(Consumed(p), k);
    DataOnly(Consumed(p), k);
    if m > 0 { BeyondCursor(l, a[i].offset, from + m); }
  }

  /** An entry's offset is at or beyond the cursor exactly when its place is. */
  lemma {:induction false} BeyondCursor(l: seq<Item>, offset: int, n: nat)
    requires IsLog(l) && 0 < n <= |l|
    ensures l[n - 1].offset + 1 > offset <==> n > Below(l, offset)
  {
    hide Below;
    BelowIs(l, offset);
  }

  /**
   One poll and one partition: if no seek moved the cursor away, what was
   delivered extends the history exactly up to the new cursor; if one did, its
   target stands.
   */
  lemma {:induction false} PollExact(l: seq<Item>, a: seq<PartitionOffset>, i: nat, p: Poll, origin: int,
                                     history: seq<Item>)
    requires DistinctKeys(a) && i < |a| && Exact(l, origin, a[i].offset, history)
    requires FetchOk(l, a[i], p)
    ensures var sought := Sought(p.seeks, a[i]);
            if sought.offset == a[i].offset
            then Exact(l, origin, Next(a, p)[i].offset, history + Only(Data(Consumed(p)), a[i].key))
            else Next(a, p)[i] == sought
  {
    hide Take, Flatten, Only, Data, CursorOf, FromMap, FetchFrom, Next, Below, Consumed;
    var m := PollFrom(l, a, i, p, Below(l, a[i].offset));
    if m > 0 {
      ExactStep(l, origin, a[i].offset, history, m);
    } else {
      NoData();
      assert history + [] == history;
    }
  }

  /** A poll that consumes an item of a partition moves its cursor forward, even if the item is only a marker. */
  lemma {:induction false} PollAdvances(l: seq<Item>, a: seq<PartitionOffset>, i: nat, p: Poll)
    requires DistinctKeys(a) && i < |a| && IsLog(l) && FetchOk(l, a[i], p)
    requires Sought(p.seeks, a[i]) == a[i]
    ensures Only(Consumed(p), a[i].key) != [] <==> Next(a, p)[i].offset > a[i].offset
  {
    hide Only, Data, FetchFrom, Next, Below, Consumed;
    var m := PollFrom(l, a, i, p, Below(l, a[i].offset));
    if m > 0 { BeyondCursor(l, a[i].offset, Below(l, a[i].offset) + m); }
  }

  /** Whatever is fetched, its first item is consumed. */
  lemma {:induction false} FirstConsumed(p: Poll)
    requires Flatten(Capped(p.fetched, Limit(p.max))) != []
    ensures Consumed(p) != [] && Consumed(p)[0] == Flatten(Capped(p.fetched, Limit(p.max)))[0]
  {}

  /** The records a run of polls delivers, and the cursors it ends with. */
  function Delivered(ps: seq<Poll>): seq<Item> {
    if ps == [] then [] else Data(Consumed(ps[0])) + Delivered(ps[1..])
  }

  function After(a: seq<PartitionOffset>, ps: seq<Poll>): (b: seq<PartitionOffset>)
    ensures |b| == |a|
    decreases |ps|
  {
    if ps == [] then a else After(Next(a, ps[0]), ps[1..])
  }

  /** Every fetch of the run answers partition i from the cursor of its poll. */
  ghost predicate RunOk(l: seq<Item>, a: seq<PartitionOffset>, i: nat, ps: seq<Poll>)
    requires i < |a|
    decreases |ps|
  {
    ps == [] || (FetchOk(l, a[i], ps[0]) && RunOk(l, Next(a, ps[0]), i, ps[1..]))
  }

  ghost predicate NeverSought(ps: seq<Poll>, k: Key) {
    forall n, s :: 0 <= n < |ps| && s in ps[n].seeks ==> s.key != k
  }

  lemma {:induction false} NotSought(seeks: seq<PartitionOffset>, a: PartitionOffset)
    requires forall s :: s in seeks ==> s.key != a.key
    ensures Sought(seeks, a) == a
  {
    if seeks != [] {
      assert seeks[|seeks| - 1] in seeks;
      NotSought(seeks[..|seeks| - 1], a);
    }
  }

  lemma {:induction false} NextKeys(a: seq<PartitionOffset>, p: Poll)
    ensures forall i :: 0 <= i < |a| ==> Next(a, p)[i].key == a[i].key
    ensures DistinctKeys(a) ==> DistinctKeys(Next(a, p))
  {
    hide FromMap, Consumed, CursorOf;
  }

  lemma {:induction false} RunExactFrom(l: seq<Item>, a: seq<PartitionOffset>, i: nat, ps: seq<Poll>,
                                        origin: int, history: seq<Item>)
    requires DistinctKeys(a) && i < |a| && RunOk(l, a, i, ps) && NeverSought(ps, a[i].key)
    requires Exact(l, origin, a[i].offset, history)
    ensures After(a, ps)[i].key == a[i].key
    ensures Exact(l, origin, After(a, ps)[i].offset, history + Only(Delivered(ps), a[i].key))
    decreases |ps|
  {
    hide Exact, Only, Data, Consumed, FetchOk, Next;
    var k := a[i].key;
    if ps == [] {
      OnlyNothing(k);
      assert history + [] == history;
    } else {
      var p, out := ps[0], Data(Consumed(ps[0]));
      assert p == ps[0];
      NotSought(p.seeks, a[i]);
      PollExact(l, a, i, p, origin, history);
      NextKeys(a, p);
      SoughtTail(ps, k);
      RunExactFrom(l, Next(a, p), i, ps[1..], origin, history + Only(out, k));
      OnlyConcat(out, Delivered(ps[1..]), k);
      assert history + Only(out, k) + Only(Delivered(ps[1..]), k) == history + (Only(out, k) + Only(Delivered(ps[1..]), k));
    }
  }

  lemma {:induction false} SoughtTail(ps: seq<Poll>, k: Key)
    requires ps != [] && NeverSought(ps, k)
    ensures NeverSought(ps[1..], k)
  {}

  lemma {:induction false} OnlyNothing(k: Key)
    ensures Only([], k) == []
  {}

  /**
   Over any run of polls in which a partition is not repositioned, the records
   delivered for it are exactly its log's data from the first cursor up to the
   last one: nothing lost, nothing twice, in order.
   */
  lemma {:induction false} RunExact(l: seq<Item>, a: seq<PartitionOffset>, i: nat, ps: seq<Poll>)
    requires DistinctKeys(a) && i < |a| && RunOk(l, a, i, ps) && NeverSought(ps, a[i].key) && IsLog(l)
    ensures && Below(l, a[i].offset) <= Below(l, After(a, ps)[i].offset)
            && Only(Delivered(ps), a[i].key) == Data(l[Below(l, a[i].offset)..Below(l, After(a, ps)[i].offset)])
  {
    ExactAtOrigin(l, a[i].offset);
    RunExactFrom(l, a, i, ps, a[i].offset, []);
    assert [] + Only(Delivered(ps), a[i].key) == Only(Delivered(ps), a[i].key);
  }
}
