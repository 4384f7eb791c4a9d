/**
 The group leader's assignors: every topic's partitions among the members that
 subscribe to it, by range, in turn, or to the least loaded member.
 */
module Assignors {
  import opened Sorting
  import opened Shares

  /** Member ids are compared as byte strings; only their total order matters here. */
  type Id = int

  datatype Member = Member(id: Id, topics: seq<string>)

  datatype TopicParts = TopicParts(topic: string, parts: seq<int>)

  // ------------------------------------------------------------- assignments

  function EntryFor(entries: seq<TopicParts>, topic: string): seq<int> {
    if entries == [] then [] else if entries[0].topic == topic then entries[0].parts else EntryFor(entries[1..], topic)
  }

  /** The partitions of a topic that a member has. */
  function PartsFor(byMember: map<Id, seq<TopicParts>>, id: Id, topic: string): seq<int> {
    if id in byMember then EntryFor(byMember[id], topic) else []
  }

  /** Entries before the first one for a topic are passed over. */
  lemma {:induction false} EntryAt(entries: seq<TopicParts>, topic: string, i: nat)
    requires i < |entries| && entries[i].topic == topic && forall j :: 0 <= j < i ==> entries[j].topic != topic
    ensures EntryFor(entries, topic) == entries[i].parts
  {
    if i > 0 { EntryAt(entries[1..], topic, i - 1); }
  }

  lemma {:induction false} EntryElsewhere(entries: seq<TopicParts>, i: nat, parts: seq<int>, topic: string)
    requires i < |entries| && entries[i].topic != topic
    ensures EntryFor(entries[i := TopicParts(entries[i].topic, parts)], topic) == EntryFor(entries, topic)
  {
    var updated := entries[i := TopicParts(entries[i].topic, parts)];
    if i == 0 {
      assert updated[1..] == entries[1..];
    } else {
      assert updated[1..] == entries[1..][i - 1 := TopicParts(entries[i].topic, parts)];
      EntryElsewhere(entries[1..], i - 1, parts, topic);
    }
  }

  lemma {:induction false} EntryAppended(entries: seq<TopicParts>, e: TopicParts, topic: string)
    requires forall j :: 0 <= j < |entries| ==> entries[j].topic != e.topic
    ensures EntryFor(entries + [e], topic) == if topic == e.topic then e.parts else EntryFor(entries, topic)
    ensures EntryFor(entries, e.topic) == []
  {
    if entries == [] {
      assert (entries + [e])[1..] == [];
    } else {
      assert (entries + [e])[1..] == entries[1..] + [e];
      EntryAppended(entries[1..], e, topic);
    }
  }

  /** Adding partitions to one member's share of one topic; nothing else changes. */
  ghost predicate Added(before: map<Id, seq<TopicParts>>, after: map<Id, seq<TopicParts>>, id: Id, topic: string, parts: seq<int>) {
    forall m, t :: PartsFor(after, m, t) ==
                   PartsFor(before, m, t) + if m == id && t == topic then parts else []
  }

  class Assignment {
    var byMember: map<Id, seq<TopicParts>>

    /** Every member starts without partitions. */
    constructor (members: seq<Member>)
      ensures forall id :: id in byMember <==> exists m :: m in members && m.id == id
      ensures forall id :: id in byMember ==> byMember[id] == []
    {
      byMember := map m | m in members :: m.id := [];
    }

    method AppendTopicParts(id: Id, topic: string, parts: seq<int>)
      modifies this
      ensures Added(old(byMember), byMember, id, topic, parts)
      ensures byMember.Keys == old(byMember).Keys + {id}
    {
      hide EntryFor;
      var entries := if id in byMember then byMember[id] else [];
      for i: nat := 0 to |entries|
        invariant byMember == old(byMember)
        invariant forall j :: 0 <= j < i ==> entries[j].topic != topic
      {
        if entries[i].topic == topic {
          var more := entries[i].parts + parts;
          byMember := byMember[id := entries[i := TopicParts(topic, more)]];
          EntryAt(entries, topic, i);
          EntryAt(byMember[id], topic, i);
          forall t | t != topic ensures EntryFor(byMember[id], t) == EntryFor(entries, t) {
            EntryElsewhere(entries, i, more, t);
          }
          return;
        }
      }
      byMember := byMember[id := entries + [TopicParts(topic, parts)]];
      forall t ensures EntryFor(byMember[id], t) == if t == topic then parts else EntryFor(entries, t) {
        EntryAppended(entries, TopicParts(topic, parts), t);
      }
      EntryAppended(entries, TopicParts(topic, parts), topic);
      NoEntries();
    }

    method AssignRange(topic: string, parts: seq<int>, members: seq<Id>)
      requires Ascending(members)
      modifies this
      ensures members == [] ==> byMember == old(byMember)
      ensures members != [] ==>
                Shared(old(byMember), byMember, members, topic, Range(parts, |members|), |members|)
      ensures old(byMember).Keys <= byMember.Keys <= old(byMember).Keys + set m | m in members
    {
      hide Shared, Start, Range;
      var n := |members|;
      if n == 0 { return; }
      var per, extra, idx := |parts| / n, |parts| % n, 0;
      StartStep(|parts|, n, n);
      NoneShared(byMember, members, topic, Range(parts, n));
      for i: nat := 0 to n
        invariant idx == Start(|parts|, n, i)
        invariant Shared(old(byMember), byMember, members, topic, Range(parts, n), i)
        invariant old(byMember).Keys <= byMember.Keys <= old(byMember).Keys + set m | m in members
      {
        StartStep(|parts|, n, i);
        StartMonotone(|parts|, n, i + 1, n);
        RangeAt(parts, n, i);
        ghost var before := byMember;
        var count := per;
        if i < extra { count := count + 1; }
        if count != 0 {
          AppendTopicParts(members[i], topic, parts[idx..idx + count]);
        } else {
          NothingAdded(byMember, members[i], topic);
        }
        idx := idx + count;
        ShareOne(old(byMember), before, byMember, members, topic, Range(parts, n), i);
      }
    }

    method AssignRoundRobin(topic: string, parts: seq<int>, members: seq<Id>)
      requires Ascending(members)
      modifies this
      ensures members == [] ==> byMember == old(byMember)
      ensures members != [] ==>
                Shared(old(byMember), byMember, members, topic, RoundRobin(parts, |members|), |members|)
      ensures old(byMember).Keys <= byMember.Keys <= old(byMember).Keys + set m | m in members
    {
      hide Shared, DealtAll, Turn;
      if members == [] { return; }
      var buckets := Deal(parts, |members|);
      NoneShared(byMember, members, topic, buckets);
      for i: nat := 0 to |members|
        invariant Shared(old(byMember), byMember, members, topic, buckets, i)
        invariant old(byMember).Keys <= byMember.Keys <= old(byMember).Keys + set m | m in members
      {
        ghost var before := byMember;
        if |buckets[i]| > 0 {
          AppendTopicParts(members[i], topic, buckets[i]);
        } else {
          NothingAdded(byMember, members[i], topic);
        }
        ShareOne(old(byMember), before, byMember, members, topic, buckets, i);
      }
    }

    /** Each partition to a least loaded member: the same shares as dealing them out in turn. */
    method AssignSticky(topic: string, parts: seq<int>, members: seq<Id>)
      requires Ascending(members)
      requires forall m :: m in members ==> PartsFor(byMember, m, topic) == []
      modifies this
      ensures members == [] ==> byMember == old(byMember)
      ensures members != [] ==>
                Shared(old(byMember), byMember, members, topic, RoundRobin(parts, |members|), |members|)
      ensures old(byMember).Keys <= byMember.Keys <= old(byMember).Keys + set m | m in members
    {
      hide Shared, DealtAll, Turn, PartsFor;
      if members == [] { return; }
      var n := |members|;
      var counts := StickyCounts(byMember, topic, members);
      NoneDealt(byMember, members, topic, parts);
      StartCounts(counts, members, parts);
      for j: nat := 0 to |parts|
        invariant Shared(old(byMember), byMember, members, topic, DealtAll(parts, n, j), n)
        invariant CountsDealt(counts, members, parts, j)
        invariant old(byMember).Keys <= byMember.Keys <= old(byMember).Keys + set m | m in members
      {
        ghost var before := byMember;
        var mid := StickyPickMember(counts, members);
        GreedyIsTurn(counts, members, parts, j, mid);
        AppendTopicParts(mid, topic, [parts[j]]);
        ShareDealt(old(byMember), before, byMember, members, topic, parts, j);
        CountOne(counts, members, parts, j);
        counts := counts[mid := counts[mid] + 1];
      }
    }
  }

  lemma NoEntries()
    ensures forall t :: EntryFor([], t) == []
  {}

  // ------------------------------------------------------------- one topic

  /** The share of a member among the first k members. */
  function ShareOf(members: seq<Id>, shares: seq<seq<int>>, k: nat, m: Id): seq<int>
    requires k <= |members| && k <= |shares|
  {
    if k == 0 then [] else if members[k - 1] == m then shares[k - 1] else ShareOf(members, shares, k - 1, m)
  }

  /** The first k members have got their shares of the topic, and nothing else has changed. */
  ghost predicate Shared(before: map<Id, seq<TopicParts>>, after: map<Id, seq<TopicParts>>, members: seq<Id>, topic: string,
                         shares: seq<seq<int>>, k: nat) {
    && k <= |members| == |shares|
    && forall m, t :: PartsFor(after, m, t) ==
                      PartsFor(before, m, t) + if t == topic then ShareOf(members, shares, k, m) else []
  }

  lemma {:induction false} ShareAt(members: seq<Id>, shares: seq<seq<int>>, k: nat, i: nat)
    requires Ascending(members) && i < k <= |members| && k <= |shares|
    ensures ShareOf(members, shares, k, members[i]) == shares[i]
  {
    if i < k - 1 { ShareAt(members, shares, k - 1, i); }
  }

  lemma {:induction false} ShareNone(members: seq<Id>, shares: seq<seq<int>>, k: nat, m: Id)
    requires k <= |members| && k <= |shares| && m !in members[..k]
    ensures ShareOf(members, shares, k, m) == []
  {
    if k > 0 {
      assert members[..k][k - 1] == members[k - 1];
      assert forall i :: 0 <= i < k - 1 ==> members[..k - 1][i] == members[..k][i];
      ShareNone(members, shares, k - 1, m);
    }
  }

  lemma {:induction false} NoneShared(byMember: map<Id, seq<TopicParts>>, members: seq<Id>, topic: string, shares: seq<seq<int>>)
    requires |shares| == |members|
    ensures Shared(byMember, byMember, members, topic, shares, 0)
  {
    hide PartsFor;
  }

  lemma {:induction false} NothingAdded(byMember: map<Id, seq<TopicParts>>, id: Id, topic: string)
    ensures Added(byMember, byMember, id, topic, [])
  {
    hide PartsFor;
  }

  lemma {:induction false} ShareOne(start: map<Id, seq<TopicParts>>, before: map<Id, seq<TopicParts>>,
                                    after: map<Id, seq<TopicParts>>, members: seq<Id>, topic: string, shares: seq<seq<int>>, i: nat)
    requires Ascending(members) && i < |members| && Shared(start, before, members, topic, shares, i)
    requires Added(before, after, members[i], topic, shares[i])
    ensures Shared(start, after, members, topic, shares, i + 1)
  {
    hide PartsFor;
    ShareNone(members, shares, i, members[i]);
    forall m, t
      ensures PartsFor(after, m, t) == PartsFor(start, m, t) + if t == topic then ShareOf(members, shares, i + 1, m) else []
    {
      assert PartsFor(after, m, t) == PartsFor(before, m, t) + if m == members[i] && t == topic then shares[i] else [];
    }
  }

  lemma {:induction false} RangeAt(parts: seq<int>, n: nat, i: nat)
    requires i < n
    ensures Start(|parts|, n, i) <= Start(|parts|, n, i + 1) <= |parts|
    ensures Range(parts, n)[i] == parts[Start(|parts|, n, i)..Start(|parts|, n, i + 1)]
  {
    hide Start;
    StartMonotone(|parts|, n, i, i + 1);
    StartMonotone(|parts|, n, i + 1, n);
    StartStep(|parts|, n, n);
  }

  /** The buckets of `assignRoundRobin`. */
  method Deal(parts: seq<int>, n: nat) returns (buckets: seq<seq<int>>)
    requires n > 0
    ensures buckets == RoundRobin(parts, n)
  {
    hide DealtAll;
    buckets := seq(n, _ => []);
    DealtNone(parts, n);
    for i: nat := 0 to |parts|
      invariant buckets == DealtAll(parts, n, i)
    {
      DealOne(parts, n, i);
      buckets := buckets[i % n := buckets[i % n] + [parts[i]]];
    }
  }

  lemma {:induction false} DealtNone(parts: seq<int>, n: nat)
    requires n > 0
    ensures DealtAll(parts, n, 0) == seq(n, _ => [])
  {}

  // ------------------------------------------------------------- the least loaded member

  method StickyCounts(byMember: map<Id, seq<TopicParts>>, topic: string, members: seq<Id>) returns (counts: map<Id, int>)
    ensures forall m :: m in members ==> m in counts && counts[m] == |PartsFor(byMember, m, topic)|
  {
    counts := map[];
    for i := 0 to |members|
      invariant forall j :: 0 <= j < i ==> members[j] in counts && counts[members[j]] == |PartsFor(byMember, members[j], topic)|
    {
      counts := counts[members[i] := |PartsFor(byMember, members[i], topic)|];
    }
  }

  /** The least loaded member, the smallest id among several. */
  method StickyPickMember(counts: map<Id, int>, members: seq<Id>) returns (best: Id)
    requires members != [] && forall m :: m in members ==> m in counts
    ensures best in members
    ensures forall m :: m in members ==> counts[best] < counts[m] || (counts[best] == counts[m] && best <= m)
  {
    best := members[0];
    var bestCount := counts[best];
    assert members[..1] == [members[0]];
    for i := 1 to |members|
      invariant best in members && bestCount == counts[best]
      invariant forall m :: m in members[..i] ==>
                  m in counts && (counts[best] < counts[m] || (counts[best] == counts[m] && best <= m))
    {
      var mid := members[i];
      assert members[..i + 1] == members[..i] + [mid];
      var c := counts[mid];
      if c < bestCount || (c == bestCount && mid < best) { best, bestCount := mid, c; }
    }
    assert members[..|members|] == members;
  }

  /** Loads after j partitions have been dealt out. */
  ghost predicate CountsDealt(counts: map<Id, int>, members: seq<Id>, parts: seq<int>, j: nat) {
    && j <= |parts| && |members| > 0
    && forall i :: 0 <= i < |members| ==>
         members[i] in counts && counts[members[i]] == |Dealt(parts, |members|, i, j)|
  }

  lemma {:induction false} StartCounts(counts: map<Id, int>, members: seq<Id>, parts: seq<int>)
    requires |members| > 0 && forall m :: m in members ==> m in counts && counts[m] == 0
    ensures CountsDealt(counts, members, parts, 0)
  {
    forall i | 0 <= i < |members| ensures members[i] in counts && counts[members[i]] == |Dealt(parts, |members|, i, 0)| {
      var m := members[i];
      assert m in members;
      assert m in counts;
      assert counts[m] == 0;
      assert Dealt(parts, |members|, i, 0) == [];
    }
  }

  /** The least loaded member is the one whose turn it is. */
  lemma {:induction false} GreedyIsTurn(counts: map<Id, int>, members: seq<Id>, parts: seq<int>, j: nat, best: Id)
    requires Ascending(members) && CountsDealt(counts, members, parts, j) && best in members
    requires forall m :: m in members ==> counts[best] < counts[m] || (counts[best] == counts[m] && best <= m)
    ensures best == members[Turn(j, |members|)]
  {
    hide Turn, Rounds, Dealt;
    var n := |members|;
    var t := Turn(j, n);
    var b :| 0 <= b < n && members[b] == best;
    DealtCount(parts, n, t, j);
    DealtCount(parts, n, b, j);
    assert members[t] in members;
  }

  lemma {:induction false} CountOne(counts: map<Id, int>, members: seq<Id>, parts: seq<int>, j: nat)
    requires Ascending(members) && j < |parts| && CountsDealt(counts, members, parts, j)
    ensures var mid := members[Turn(j, |members|)];
            CountsDealt(counts[mid := counts[mid] + 1], members, parts, j + 1)
  {
    hide Turn;
  }

  lemma {:induction false} NoneDealt(byMember: map<Id, seq<TopicParts>>, members: seq<Id>, topic: string, parts: seq<int>)
    requires members != []
    ensures Shared(byMember, byMember, members, topic, DealtAll(parts, |members|, 0), |members|)
  {
    hide PartsFor;
    var shares := DealtAll(parts, |members|, 0);
    forall m ensures ShareOf(members, shares, |members|, m) == [] { EmptyShares(members, shares, |members|, m); }
  }

  lemma {:induction false} EmptyShares(members: seq<Id>, shares: seq<seq<int>>, k: nat, m: Id)
    requires k <= |members| && k <= |shares| && forall i :: 0 <= i < |shares| ==> shares[i] == []
    ensures ShareOf(members, shares, k, m) == []
  {
    if k > 0 { EmptyShares(members, shares, k - 1, m); }
  }

  lemma {:induction false} ShareUpdated(members: seq<Id>, shares: seq<seq<int>>, i: nat, p: int, k: nat, m: Id)
    requires Ascending(members) && |members| == |shares| && i < |members| && k <= |members|
    ensures ShareOf(members, shares[i := shares[i] + [p]], k, m) ==
            ShareOf(members, shares, k, m) + if i < k && m == members[i] then [p] else []
  {
    if k > 0 { ShareUpdated(members, shares, i, p, k - 1, m); }
  }

  lemma {:induction false} ShareDealt(start: map<Id, seq<TopicParts>>, before: map<Id, seq<TopicParts>>,
                                      after: map<Id, seq<TopicParts>>, members: seq<Id>, topic: string, parts: seq<int>, j: nat)
    requires Ascending(members) && members != [] && j < |parts|
    requires Shared(start, before, members, topic, DealtAll(parts, |members|, j), |members|)
    requires Added(before, after, members[Turn(j, |members|)], topic, [parts[j]])
    ensures Shared(start, after, members, topic, DealtAll(parts, |members|, j + 1), |members|)
  {
    hide PartsFor, DealtAll, Turn;
    var n, i := |members|, Turn(j, |members|);
    var shares := DealtAll(parts, n, j);
    DealOne(parts, n, j);
    forall m, t
      ensures PartsFor(after, m, t) ==
              PartsFor(start, m, t) + if t == topic then ShareOf(members, DealtAll(parts, n, j + 1), n, m) else []
    {
      assert PartsFor(after, m, t) == PartsFor(before, m, t) + if m == members[i] && t == topic then [parts[j]] else [];
      ShareUpdated(members, shares, i, parts[j], n, m);
    }
  }
}
