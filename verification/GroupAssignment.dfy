/**
 The whole assignment the group leader computes, for every iteration order of
 its topic map.
 */
module GroupAssignment {
  import opened Sorting
  import opened Shares
  import opened Assignors

  // ------------------------------------------------------------- who subscribes to what

  /** A member's id, once for every time it names the topic. */
  function Named(id: Id, topics: seq<string>, t: string): seq<Id> {
    if topics == [] then []
    else Named(id, topics[..|topics| - 1], t) + if topics[|topics| - 1] == t then [id] else []
  }

  function Subscribed(ms: seq<Member>, t: string): seq<Id> {
    if ms == [] then []
    else Subscribed(ms[..|ms| - 1], t) + Named(ms[|ms| - 1].id, ms[|ms| - 1].topics, t)
  }

  ghost predicate DistinctTopics(topics: seq<string>) { forall a, b :: 0 <= a < b < |topics| ==> topics[a] != topics[b] }

  ghost predicate DistinctMembers(ms: seq<Member>) {
    && (forall i, j :: 0 <= i < j < |ms| ==> ms[i].id != ms[j].id)
    && forall i :: 0 <= i < |ms| ==> DistinctTopics(ms[i].topics)
  }

  ghost predicate Subscribes(ms: seq<Member>, id: Id, t: string) {
    exists m :: m in ms && m.id == id && t in m.topics
  }

  lemma {:induction false} NamedOnce(id: Id, topics: seq<string>, t: string)
    requires DistinctTopics(topics)
    ensures Named(id, topics, t) == if t in topics then [id] else []
  {
    if topics != [] {
      var n := |topics| - 1;
      assert topics == topics[..n] + [topics[n]];
      NamedOnce(id, topics[..n], t);
    }
  }

  lemma {:induction false} SubscribedIs(ms: seq<Member>, t: string, x: Id)
    requires DistinctMembers(ms)
    ensures x in Subscribed(ms, t) <==> Subscribes(ms, x, t)
  {
    if ms != [] {
      var n := |ms| - 1;
      assert ms == ms[..n] + [ms[n]];
      SubscribedIs(ms[..n], t, x);
      NamedOnce(ms[n].id, ms[n].topics, t);
      assert Subscribes(ms, x, t) <==> Subscribes(ms[..n], x, t) || (ms[n].id == x && t in ms[n].topics);
    }
  }

  lemma {:induction false} SubscribedNoRepeats(ms: seq<Member>, t: string)
    requires DistinctMembers(ms)
    ensures NoRepeats(Subscribed(ms, t))
  {
    if ms != [] {
      var n := |ms| - 1;
      SubscribedNoRepeats(ms[..n], t);
      NamedOnce(ms[n].id, ms[n].topics, t);
      SubscribedIs(ms[..n], t, ms[n].id);
    }
  }

  /** The members that get partitions of a topic, in order. */
  function Mids(ms: seq<Member>, t: string): seq<Id> { Sort(Subscribed(ms, t)) }

  lemma {:induction false} MidsAre(ms: seq<Member>, t: string)
    requires DistinctMembers(ms)
    ensures Ascending(Mids(ms, t))
    ensures forall x :: x in Mids(ms, t) <==> Subscribes(ms, x, t)
  {
    SubscribedNoRepeats(ms, t);
    SortAscending(Subscribed(ms, t));
    forall x ensures x in Mids(ms, t) <==> Subscribes(ms, x, t) {
      SortHas(Subscribed(ms, t), x);
      SubscribedIs(ms, t, x);
    }
  }

  // ------------------------------------------------------------- members by id

  function InsertMember(m: Member, s: seq<Member>): seq<Member> {
    if s == [] || m.id <= s[0].id then [m] + s else [s[0]] + InsertMember(m, s[1..])
  }

  function SortMembers(ms: seq<Member>): seq<Member> {
    if ms == [] then [] else InsertMember(ms[0], SortMembers(ms[1..]))
  }

  lemma {:induction false} InsertMemberHas(m: Member, s: seq<Member>, x: Member)
    ensures x in InsertMember(m, s) <==> x == m || x in s
  {
    if s != [] {
      assert s == [s[0]] + s[1..];
      if m.id > s[0].id { InsertMemberHas(m, s[1..], x); }
    }
  }

  lemma {:induction false} SortMembersHas(ms: seq<Member>, x: Member)
    ensures x in SortMembers(ms) <==> x in ms
  {
    if ms != [] {
      assert ms == [ms[0]] + ms[1..];
      SortMembersHas(ms[1..], x);
      InsertMemberHas(ms[0], SortMembers(ms[1..]), x);
    }
  }

  ghost predicate HasId(ms: seq<Member>, id: Id) { exists m :: m in ms && m.id == id }

  lemma {:induction false} ConsDistinct(m: Member, s: seq<Member>)
    requires DistinctMembers(s) && !HasId(s, m.id) && DistinctTopics(m.topics)
    ensures DistinctMembers([m] + s)
  {
    forall j | 0 <= j < |s| ensures s[j].id != m.id {
      var x := s[j];
      assert x in s;
    }
  }

  lemma {:induction false} ConsDistinctInv(s: seq<Member>)
    requires DistinctMembers(s) && s != []
    ensures DistinctMembers(s[1..]) && !HasId(s[1..], s[0].id) && DistinctTopics(s[0].topics)
  {
    forall x | x in s[1..] ensures x.id != s[0].id {
      var j :| 0 <= j < |s[1..]| && s[1..][j] == x;
      assert s[j + 1] == x;
    }
  }

  lemma {:induction false} InsertMemberDistinct(m: Member, s: seq<Member>)
    requires DistinctMembers(s) && !HasId(s, m.id) && DistinctTopics(m.topics)
    ensures DistinctMembers(InsertMember(m, s))
  {
    if s == [] || m.id <= s[0].id {
      ConsDistinct(m, s);
    } else {
      ConsDistinctInv(s);
      NoIdInTail(s, m.id);
      InsertMemberDistinct(m, s[1..]);
      forall x | x in InsertMember(m, s[1..]) ensures x.id != s[0].id { InsertMemberHas(m, s[1..], x); }
      ConsDistinct(s[0], InsertMember(m, s[1..]));
    }
  }

  lemma {:induction false} NoIdInTail(s: seq<Member>, id: Id)
    requires s != [] && !HasId(s, id)
    ensures s[0].id != id && !HasId(s[1..], id)
  {
    assert s == [s[0]] + s[1..];
    var x := s[0];
    assert x in s;
    forall y | y in s[1..] ensures y.id != id { assert y in s; }
  }

  lemma {:induction false} SortMembersDistinct(ms: seq<Member>)
    requires DistinctMembers(ms)
    ensures DistinctMembers(SortMembers(ms))
  {
    if ms != [] {
      ConsDistinctInv(ms);
      SortMembersDistinct(ms[1..]);
      forall x | x in SortMembers(ms[1..]) ensures x.id != ms[0].id { SortMembersHas(ms[1..], x); }
      InsertMemberDistinct(ms[0], SortMembers(ms[1..]));
    }
  }

  /** The order in which members are listed makes no difference. */
  lemma {:induction false} MidsOfSorted(ms: seq<Member>, t: string)
    requires DistinctMembers(ms)
    ensures Mids(SortMembers(ms), t) == Mids(ms, t)
  {
    var sorted := SortMembers(ms);
    SortMembersDistinct(ms);
    MidsAre(ms, t);
    MidsAre(sorted, t);
    forall x ensures Subscribes(sorted, x, t) <==> Subscribes(ms, x, t) {
      forall m ensures m in sorted <==> m in ms { SortMembersHas(ms, m); }
    }
    SubsetWithin(Mids(sorted, t), Mids(ms, t));
    SubsetWithin(Mids(ms, t), Mids(sorted, t));
    AscendingUnique(Mids(sorted, t), Mids(ms, t));
  }

  // ------------------------------------------------------------- the leader's computation

  datatype Strategy = ByRange | InTurn | Sticky

  function SharesBy(strategy: Strategy, parts: seq<int>, n: nat): (s: seq<seq<int>>)
    requires n > 0
    ensures |s| == n
  {
    if strategy == ByRange then Range(parts, n) else RoundRobin(parts, n)
  }

  function PartitionsOf(topicPartitions: map<string, seq<int>>, t: string): seq<int> {
    if t in topicPartitions then topicPartitions[t] else []
  }

  /** What a member should get of a topic; nothing here depends on an order of topics or members. */
  function Due(strategy: Strategy, ms: seq<Member>, topicPartitions: map<string, seq<int>>, id: Id, t: string): seq<int> {
    var mids, parts := Mids(ms, t), Sort(PartitionsOf(topicPartitions, t));
    if mids == [] then [] else ShareOf(mids, SharesBy(strategy, parts, |mids|), |mids|, id)
  }

  /** Every partition of every subscribed topic goes to one member that subscribes, and the loads differ by one at most. */
  lemma {:induction false} DueValid(strategy: Strategy, ms: seq<Member>, topicPartitions: map<string, seq<int>>, t: string)
    requires DistinctMembers(ms) && Mids(ms, t) != []
    ensures var mids := Mids(ms, t);
            var shares := seq(|mids|, i requires 0 <= i < |mids| => Due(strategy, ms, topicPartitions, mids[i], t));
            Complete(PartitionsOf(topicPartitions, t), shares) && Balanced(shares)
    ensures forall id :: !Subscribes(ms, id, t) ==> Due(strategy, ms, topicPartitions, id, t) == []
  {
    hide Bag, Range, RoundRobin, Subscribes, Sort, ShareOf;
    var mids, all := Mids(ms, t), PartitionsOf(topicPartitions, t);
    var parts := Sort(all);
    var due := SharesBy(strategy, parts, |mids|);
    var shares := seq(|mids|, i requires 0 <= i < |mids| => Due(strategy, ms, topicPartitions, mids[i], t));
    MidsAre(ms, t);
    SortBag(all);
    RangeValid(parts, |mids|);
    RoundRobinValid(parts, |mids|);
    forall i | 0 <= i < |mids| ensures shares[i] == due[i] { ShareAt(mids, due, |mids|, i); }
    assert shares == due;
    forall id | !Subscribes(ms, id, t) ensures Due(strategy, ms, topicPartitions, id, t) == [] {
      assert mids[..|mids|] == mids;
      ShareNone(mids, due, |mids|, id);
    }
  }

  function Lookup(m: map<string, seq<Id>>, t: string): seq<Id> { if t in m then m[t] else [] }

  /** A member's id has been added under the topics it names. */
  ghost predicate Recorded(before: map<string, seq<Id>>, after: map<string, seq<Id>>, id: Id, topics: seq<string>) {
    && (forall t :: Lookup(after, t) == Lookup(before, t) + Named(id, topics, t))
    && forall t :: t in after <==> t in before || t in topics
  }

  lemma {:induction false} RecordNone(m: map<string, seq<Id>>, id: Id)
    ensures Recorded(m, m, id, [])
  {}

  lemma {:induction false} RecordOne(before: map<string, seq<Id>>, after: map<string, seq<Id>>, id: Id,
                                     topics: seq<string>, topic: string)
    requires Recorded(before, after, id, topics)
    ensures Recorded(before, after[topic := Lookup(after, topic) + [id]], id, topics + [topic])
  {
    hide Named;
    var after' := after[topic := Lookup(after, topic) + [id]];
    forall t ensures Lookup(after', t) == Lookup(before, t) + Named(id, topics + [topic], t) {
      RecordedFor(before, after, id, topics, topic, t);
    }
    forall t ensures t in after' <==> t in before || t in topics + [topic] {}
  }

  lemma {:induction false} RecordedFor(before: map<string, seq<Id>>, after: map<string, seq<Id>>, id: Id,
                                       topics: seq<string>, topic: string, t: string)
    requires Lookup(after, t) == Lookup(before, t) + Named(id, topics, t)
    ensures Lookup(after[topic := Lookup(after, topic) + [id]], t) == Lookup(before, t) + Named(id, topics + [topic], t)
  {
    hide Named;
    NamedSnoc(id, topics, topic, t);
  }

  lemma {:induction false} NamedSnoc(id: Id, topics: seq<string>, topic: string, t: string)
    ensures Named(id, topics + [topic], t) == Named(id, topics, t) + if topic == t then [id] else []
  {
    assert (topics + [topic])[..|topics|] == topics;
  }

  method AddMember(topicMembers: map<string, seq<Id>>, m: Member) returns (r: map<string, seq<Id>>)
    ensures Recorded(topicMembers, r, m.id, m.topics)
  {
    hide Recorded;
    r := topicMembers;
    RecordNone(r, m.id);
    assert m.topics[..0] == [];
    for i := 0 to |m.topics|
      invariant Recorded(topicMembers, r, m.id, m.topics[..i])
    {
      RecordOne(topicMembers, r, m.id, m.topics[..i], m.topics[i]);
      assert m.topics[..i + 1] == m.topics[..i] + [m.topics[i]];
      r := r[m.topics[i] := Lookup(r, m.topics[i]) + [m.id]];
    }
    assert m.topics[..|m.topics|] == m.topics;
  }

  method TopicMembers(sorted: seq<Member>) returns (r: map<string, seq<Id>>)
    ensures forall t :: Lookup(r, t) == Subscribed(sorted, t)
    ensures forall t :: t in r <==> exists m :: m in sorted && t in m.topics
  {
    r := map[];
    for i := 0 to |sorted|
      invariant forall t :: Lookup(r, t) == Subscribed(sorted[..i], t)
      invariant forall t :: t in r <==> exists m :: m in sorted[..i] && t in m.topics
    {
      assert sorted[..i + 1][..i] == sorted[..i];
      assert sorted[..i + 1] == sorted[..i] + [sorted[i]];
      r := AddMember(r, sorted[i]);
    }
    assert sorted[..|sorted|] == sorted;
  }

  /** The topics dealt with so far have been shared out as due, the others not at all. */
  ghost predicate Progress(strategy: Strategy, ms: seq<Member>, topicPartitions: map<string, seq<int>>, seen: seq<string>,
                           byMember: map<Id, seq<TopicParts>>) {
    forall id, t :: PartsFor(byMember, id, t) ==
                    if t in seen then Due(strategy, ms, topicPartitions, id, t) else []
  }

  lemma {:induction false} ProgressStep(strategy: Strategy, ms: seq<Member>, topicPartitions: map<string, seq<int>>,
                                        seen: seq<string>, topic: string, before: map<Id, seq<TopicParts>>,
                                        after: map<Id, seq<TopicParts>>)
    requires Progress(strategy, ms, topicPartitions, seen, before) && topic !in seen
    requires var mids := Mids(ms, topic);
             var parts := Sort(PartitionsOf(topicPartitions, topic));
             mids != [] && Shared(before, after, mids, topic, SharesBy(strategy, parts, |mids|), |mids|)
    ensures Progress(strategy, ms, topicPartitions, seen + [topic], after)
  {
    hide Mids, Sort, SharesBy, ShareOf, PartsFor, PartitionsOf;
    var mids, parts := Mids(ms, topic), Sort(PartitionsOf(topicPartitions, topic));
    forall id, t
      ensures PartsFor(after, id, t) == if t in seen + [topic] then Due(strategy, ms, topicPartitions, id, t) else []
    {
      assert PartsFor(after, id, t) == PartsFor(before, id, t) +
             if t == topic then ShareOf(mids, SharesBy(strategy, parts, |mids|), |mids|, id) else [];
    }
  }

  /** A topic without partitions leaves everything as it is. */
  lemma {:induction false} ProgressSkip(strategy: Strategy, ms: seq<Member>, topicPartitions: map<string, seq<int>>,
                                        seen: seq<string>, topic: string, byMember: map<Id, seq<TopicParts>>)
    requires Progress(strategy, ms, topicPartitions, seen, byMember) && topic !in seen
    requires PartitionsOf(topicPartitions, topic) == []
    ensures Progress(strategy, ms, topicPartitions, seen + [topic], byMember)
  {
    hide Mids, PartsFor;
    forall id ensures Due(strategy, ms, topicPartitions, id, topic) == [] {
      NothingDue(strategy, ms, topicPartitions, id, topic);
    }
  }

  lemma {:induction false} NothingDue(strategy: Strategy, ms: seq<Member>, topicPartitions: map<string, seq<int>>,
                                      id: Id, t: string)
    requires PartitionsOf(topicPartitions, t) == []
    ensures Due(strategy, ms, topicPartitions, id, t) == []
  {
    hide Mids, RangeShare, Range, RoundRobin;
    var mids := Mids(ms, t);
    if mids != [] {
      assert Sort([]) == [];
      NoParts(strategy, |mids|);
      EmptyShares(mids, SharesBy(strategy, [], |mids|), |mids|, id);
    }
  }

  lemma {:induction false} NoParts(strategy: Strategy, n: nat)
    requires n > 0
    ensures forall i :: 0 <= i < n ==> SharesBy(strategy, [], n)[i] == []
  {
    hide RangeShare;
    forall i | 0 <= i < n ensures Range([], n)[i] == [] { RangeAt([], n, i); }
  }

  /** No two topics of an iteration order are the same. */
  ghost predicate IsOrder(order: seq<string>, ms: seq<Member>) {
    && (forall i, j :: 0 <= i < j < |order| ==> order[i] != order[j])
    && forall t :: t in order <==> exists m :: m in ms && t in m.topics
  }

  /** Whether anything is left of an assignment without topics. */
  lemma {:induction false} EmptyProgress(strategy: Strategy, ms: seq<Member>, topicPartitions: map<string, seq<int>>,
                                         byMember: map<Id, seq<TopicParts>>)
    requires forall id :: id in byMember ==> byMember[id] == []
    ensures Progress(strategy, ms, topicPartitions, [], byMember)
  {}

  lemma {:induction false} Nobody(ms: seq<Member>, topicPartitions: map<string, seq<int>>, strategy: Strategy, id: Id, t: string)
    requires DistinctMembers(ms) && !exists m :: m in ms && t in m.topics
    ensures Due(strategy, ms, topicPartitions, id, t) == []
  {
    MidsAre(ms, t);
    if Mids(ms, t) != [] { FirstIn(Mids(ms, t)); }
  }

  /**
   `ComputeGroupAssignments`: whatever order the topics come in, every member
   ends with exactly what is due to it.
   */
  method ComputeGroupAssignments(strategy: Strategy, ms: seq<Member>, topicPartitions: map<string, seq<int>>, order: seq<string>)
    returns (byMember: map<Id, seq<TopicParts>>)
    requires DistinctMembers(ms) && IsOrder(order, ms)
    ensures forall id, t :: PartsFor(byMember, id, t) == Due(strategy, ms, topicPartitions, id, t)
    ensures forall id :: id in byMember <==> HasId(ms, id)
  {
    hide Mids, Sort, Due, Shared, Range, RoundRobin, PartsFor, Progress, Subscribed;
    var sorted := SortMembers(ms);
    SortMembersDistinct(ms);
    forall m ensures m in sorted <==> m in ms { SortMembersHas(ms, m); }
    var a := new Assignment(sorted);
    EmptyProgress(strategy, ms, topicPartitions, a.byMember);
    var topicMembers := TopicMembers(sorted);
    assert order[..0] == [];
    for n: nat := 0 to |order|
      invariant forall id :: id in a.byMember <==> HasId(ms, id)
      invariant fresh(a) && Progress(strategy, ms, topicPartitions, order[..n], a.byMember)
    {
      var topic := order[n];
      assert topic in order;
      assert order[..n + 1] == order[..n] + [topic];
      AssignTopic(a, strategy, ms, topicPartitions, topic, Lookup(topicMembers, topic), order[..n]);
    }
    assert order[..|order|] == order;
    byMember := a.byMember;
    AllProgress(strategy, ms, topicPartitions, order, byMember);
  }

  lemma {:induction false} AllProgress(strategy: Strategy, ms: seq<Member>, topicPartitions: map<string, seq<int>>,
                                       order: seq<string>, byMember: map<Id, seq<TopicParts>>)
    requires DistinctMembers(ms) && IsOrder(order, ms) && Progress(strategy, ms, topicPartitions, order, byMember)
    ensures forall id, t :: PartsFor(byMember, id, t) == Due(strategy, ms, topicPartitions, id, t)
  {
    hide Due, PartsFor;
    forall id, t ensures PartsFor(byMember, id, t) == Due(strategy, ms, topicPartitions, id, t) {
      if t !in order { Nobody(ms, topicPartitions, strategy, id, t); }
    }
  }

  /** The body of the loop over topics. */
  method AssignTopic(a: Assignment, strategy: Strategy, ghost ms: seq<Member>, topicPartitions: map<string, seq<int>>,
                     topic: string, subscribed: seq<Id>, ghost seen: seq<string>)
    requires DistinctMembers(ms) && topic !in seen && exists m :: m in ms && topic in m.topics
    requires subscribed == Subscribed(SortMembers(ms), topic)
    requires Progress(strategy, ms, topicPartitions, seen, a.byMember)
    requires forall id :: id in a.byMember <==> HasId(ms, id)
    modifies a
    ensures forall id :: id in a.byMember <==> HasId(ms, id)
    ensures Progress(strategy, ms, topicPartitions, seen + [topic], a.byMember)
  {
    hide Sort, Due, Shared, Range, RoundRobin, PartsFor, Progress, Subscribed;
    var mids := Sort(subscribed);
    MidsOfSorted(ms, topic);
    MidsAre(ms, topic);
    SomebodyIs(ms, topic);
    var parts := PartitionsOf(topicPartitions, topic);
    if |parts| == 0 {
      ProgressSkip(strategy, ms, topicPartitions, seen, topic, a.byMember);
      return;
    }
    NotYet(strategy, ms, topicPartitions, seen, topic, a.byMember);
    ghost var before := a.byMember;
    var sortedParts := Sort(parts);
    match strategy {
      case ByRange => a.AssignRange(topic, sortedParts, mids);
      case InTurn => a.AssignRoundRobin(topic, sortedParts, mids);
      case Sticky => a.AssignSticky(topic, sortedParts, mids);
    }
    ProgressStep(strategy, ms, topicPartitions, seen, topic, before, a.byMember);
  }

  lemma {:induction false} SomebodyIs(ms: seq<Member>, t: string)
    requires DistinctMembers(ms) && exists m :: m in ms && t in m.topics
    ensures Mids(ms, t) != []
  {
    MidsAre(ms, t);
    var m :| m in ms && t in m.topics;
    assert Subscribes(ms, m.id, t);
    assert m.id in Mids(ms, t);
  }

  lemma {:induction false} NotYet(strategy: Strategy, ms: seq<Member>, topicPartitions: map<string, seq<int>>, seen: seq<string>,
                                  topic: string, byMember: map<Id, seq<TopicParts>>)
    requires Progress(strategy, ms, topicPartitions, seen, byMember) && topic !in seen
    ensures forall m :: PartsFor(byMember, m, topic) == []
  {
    hide PartsFor, Due;
  }
}
