/**
 The synchronous idempotent producer: partitions are frozen once, every attempt
 sends the records not yet acknowledged as one batch per partition, and only
 the partitions that failed are rolled back and sent again.
 */
module IdempotentProduce {
  import opened ProduceBroker

  datatype Key = Key(topic: string, part: int)

  /** A record to produce; a negative partition is left to the partitioner. */
  datatype Record = Record(id: nat, topic: string, partition: int)

  datatype RecordResult = NoResult | Result(key: Key, offset: nat)

  function KeyOf(r: Record): Key { Key(r.topic, r.partition) }

  // ------------------------------------------------------------- grouping

  /** Indices below n of the records of partition k, ascending. */
  function Positions(rs: seq<Record>, k: Key, n: nat): (r: seq<nat>)
    requires n <= |rs|
    ensures forall t :: 0 <= t < |r| ==> r[t] < n && KeyOf(rs[r[t]]) == k
  {
    if n == 0 then []
    else Positions(rs, k, n - 1) + (if KeyOf(rs[n - 1]) == k then [n - 1] else [])
  }

  /** The records of partition k, in input order. */
  function IdsFor(rs: seq<Record>, k: Key): (ids: seq<nat>)
    ensures |ids| == |Positions(rs, k, |rs|)|
  {
    var ps := Positions(rs, k, |rs|);
    seq(|ps|, t requires 0 <= t < |ps| => rs[ps[t]].id)
  }

  /** How many records of the same partition come before record i. */
  function Rank(rs: seq<Record>, i: nat): nat
    requires i < |rs|
  {
    |Positions(rs, KeyOf(rs[i]), i)|
  }

  lemma {:induction false} PositionAt(rs: seq<Record>, i: nat, n: nat)
    requires i < n <= |rs|
    ensures var ps := Positions(rs, KeyOf(rs[i]), n); Rank(rs, i) < |ps| && ps[Rank(rs, i)] == i
  {
    if i < n - 1 { PositionAt(rs, i, n - 1); }
  }

  lemma {:induction false} RankOfPosition(rs: seq<Record>, k: Key, n: nat, t: nat)
    requires n <= |rs| && t < |Positions(rs, k, n)|
    ensures Rank(rs, Positions(rs, k, n)[t]) == t
  {
    if t < |Positions(rs, k, n - 1)| { RankOfPosition(rs, k, n - 1, t); }
  }

  /** The partitions of the first n records. */
  ghost function Keys(rs: seq<Record>, n: nat): set<Key>
    requires n <= |rs|
  {
    set i | 0 <= i < n :: KeyOf(rs[i])
  }

  lemma KeyHasIds(rs: seq<Record>, k: Key)
    ensures k in Keys(rs, |rs|) <==> |IdsFor(rs, k)| >= 1
  {
    if k in Keys(rs, |rs|) {
      var i :| 0 <= i < |rs| && KeyOf(rs[i]) == k;
      PositionAt(rs, i, |rs|);
    }
    if |IdsFor(rs, k)| >= 1 {
      var i := Positions(rs, k, |rs|)[0];
      assert KeyOf(rs[i]) in Keys(rs, |rs|);
    }
  }

  method GroupByKey(rs: seq<Record>) returns (m: map<Key, seq<nat>>)
    ensures m.Keys == Keys(rs, |rs|)
    ensures forall k :: k in m ==> m[k] == Positions(rs, k, |rs|)
  {
    m := map[];
    for i: nat := 0 to |rs|
      invariant m.Keys == Keys(rs, i)
      invariant forall k :: k in m ==> m[k] == Positions(rs, k, i)
    {
      var k := KeyOf(rs[i]);
      if k !in m { NoPositions(rs, k, i); }
      m := m[k := (if k in m then m[k] else []) + [i]];
      assert Keys(rs, i + 1) == Keys(rs, i) + {k};
    }
  }

  lemma {:induction false} NoPositions(rs: seq<Record>, k: Key, n: nat)
    requires n <= |rs| && k !in Keys(rs, n)
    ensures Positions(rs, k, n) == []
  {
    if n > 0 {
      assert KeyOf(rs[n - 1]) in Keys(rs, n);
      assert forall j :: j in Keys(rs, n - 1) ==> j in Keys(rs, n);
      NoPositions(rs, k, n - 1);
    }
  }

  // ------------------------------------------------------------- sequence numbers

  function SeqAt(m: map<Key, int>, k: Key): int { if k in m then m[k] else 0 }

  class SequenceState {
    var sequences: map<Key, int>

    method ReserveBlock(k: Key, count: nat) returns (base: int)
      modifies this
      ensures base == SeqAt(old(sequences), k)
      ensures sequences == old(sequences)[k := base + count]
    {
      base := SeqAt(sequences, k);
      sequences := sequences[k := base + count];
    }

    /** Never below zero. */
    method RollbackBlock(k: Key, count: nat)
      modifies this
      ensures var s := SeqAt(old(sequences), k) - count;
              sequences == old(sequences)[k := if s < 0 then 0 else s]
    {
      sequences := sequences[k := SeqAt(sequences, k) - count];
      if sequences[k] < 0 { sequences := sequences[k := 0]; }
    }
  }

  /** Reserving a block and rolling it back leaves the sequence where it was. */
  method ReserveRollback(s: SequenceState, k: Key, count: nat)
    requires SeqAt(s.sequences, k) >= 0
    modifies s
    ensures forall j: Key :: SeqAt(s.sequences, j) == SeqAt(old(s.sequences), j)
  {
    var base := s.ReserveBlock(k, count);
    s.RollbackBlock(k, count);
  }

  // ------------------------------------------------------------- the brokers

  function PartAt(m: map<Key, Part>, k: Key): Part { if k in m then m[k] else Part([], 0, NoBatch) }

  class Brokers {
    var parts: map<Key, Part>

    method Produce(k: Key, base: int, ids: seq<nat>, fate: Fate) returns (seen: Seen)
      modifies this
      ensures var (p, s) := Attempt(PartAt(old(parts), k), base, ids, fate);
              seen == s && parts == old(parts)[k := p]
    {
      var (p, s) := Attempt(PartAt(parts, k), base, ids, fate);
      parts := parts[k := p];
      seen := s;
    }
  }

  // ------------------------------------------------------------- one attempt

  datatype SendError = NoError | Error(fatal: bool)

  /** A fatal error wins over a retriable one. */
  function Worse(a: SendError, fatal: bool): SendError {
    if a == NoError || (!a.fatal && fatal) then Error(fatal) else a
  }

  /** What one attempt does to partition k, given what it was before. */
  ghost predicate KeySent(rs: seq<Record>, k: Key, fate: Fate, p: Part, s: int, p': Part, s': int, res: seq<RecordResult>)
    requires |res| == |rs|
  {
    var ids, ps := IdsFor(rs, k), Positions(rs, k, |rs|);
    var (part, seen) := Attempt(p, s, ids, fate);
    && p' == part
    && s' == (if seen.Acked? then s + |ids| else s)
    && forall t :: 0 <= t < |ps| ==>
         res[ps[t]] == if seen.Acked? then Result(k, seen.offset + t) else NoResult
  }

  method ReserveAll(state: SequenceState, counts: map<Key, nat>) returns (cursor: map<Key, int>)
    modifies state
    ensures cursor.Keys == counts.Keys
    ensures forall k :: k in counts ==>
              cursor[k] == SeqAt(old(state.sequences), k) && SeqAt(state.sequences, k) == cursor[k] + counts[k]
    ensures forall k :: k !in counts ==> SeqAt(state.sequences, k) == SeqAt(old(state.sequences), k)
  {
    cursor := map[];
    var left := counts.Keys;
    while left != {}
      invariant left <= counts.Keys && cursor.Keys == counts.Keys - left
      invariant forall k :: k in cursor ==>
                  cursor[k] == SeqAt(old(state.sequences), k) && SeqAt(state.sequences, k) == cursor[k] + counts[k]
      invariant forall k :: k !in cursor ==> SeqAt(state.sequences, k) == SeqAt(old(state.sequences), k)
      decreases |left|
    {
      var k :| k in left;
      var base := state.ReserveBlock(k, counts[k]);
      cursor := cursor[k := base];
      left := left - {k};
    }
  }

  method RollbackAll(state: SequenceState, failed: set<Key>, counts: map<Key, nat>)
    requires failed <= counts.Keys
    requires forall k :: k in failed ==> SeqAt(state.sequences, k) >= counts[k]
    modifies state
    ensures forall k :: k in failed ==> SeqAt(state.sequences, k) == SeqAt(old(state.sequences), k) - counts[k]
    ensures forall k :: k !in failed ==> SeqAt(state.sequences, k) == SeqAt(old(state.sequences), k)
  {
    var left := failed;
    while left != {}
      invariant left <= failed
      invariant forall k :: k in failed - left ==>
                  SeqAt(state.sequences, k) == SeqAt(old(state.sequences), k) - counts[k]
      invariant forall k :: k !in failed - left ==> SeqAt(state.sequences, k) == SeqAt(old(state.sequences), k)
      decreases |left|
    {
      var k :| k in left;
      state.RollbackBlock(k, counts[k]);
      left := left - {k};
    }
  }

  /** The offsets of one acknowledged batch, record by record. */
  method FillResults(res: array<RecordResult>, ps: seq<nat>, k: Key, offset: nat)
    requires forall t :: 0 <= t < |ps| ==> ps[t] < res.Length
    requires forall t, u :: 0 <= t < u < |ps| ==> ps[t] != ps[u]
    modifies res
    ensures forall t :: 0 <= t < |ps| ==> res[ps[t]] == Result(k, offset + t)
    ensures forall i :: 0 <= i < res.Length && i !in ps ==> res[i] == old(res[i])
  {
    for t := 0 to |ps|
      invariant forall u :: 0 <= u < t ==> res[ps[u]] == Result(k, offset + u)
      invariant forall i :: 0 <= i < res.Length && i !in ps ==> res[i] == old(res[i])
    {
      res[ps[t]] := Result(k, offset + t);
    }
  }

  lemma PositionsDistinct(rs: seq<Record>, k: Key, n: nat)
    requires n <= |rs|
    ensures forall t, u :: 0 <= t < u < |Positions(rs, k, n)| ==> Positions(rs, k, n)[t] < Positions(rs, k, n)[u]
  {}

  /** Results written and partitions failed, once the partitions in `done` have been sent. */
  ghost predicate SentSoFar(rs: seq<Record>, cursor: map<Key, int>, fates: Key -> Fate,
                            before: map<Key, Part>, after: map<Key, Part>, done: set<Key>, failed: set<Key>,
                            res: seq<RecordResult>, err: SendError)
  {
    && |res| == |rs| && failed <= done
    && (err == NoError <==> failed == {})
    && (err == Error(true) <==> SomeFatal(rs, cursor, fates, before, done))
    && (forall k :: k !in done ==> PartAt(after, k) == PartAt(before, k))
    && (forall i :: 0 <= i < |res| && KeyOf(rs[i]) !in done ==> res[i] == NoResult)
    && (forall k :: k in done ==>
          k in cursor && OneSent(rs, k, fates(k), PartAt(before, k), cursor[k], PartAt(after, k), k in failed, res))
  }

  /** Some partition's attempt ends in an error that must not be retried. */
  ghost predicate SomeFatal(rs: seq<Record>, cursor: map<Key, int>, fates: Key -> Fate, parts: map<Key, Part>, done: set<Key>) {
    exists k :: k in done && Attempt(PartAt(parts, k), SeqAt(cursor, k), IdsFor(rs, k), fates(k)).1 == Failed(true)
  }

  ghost predicate OneSent(rs: seq<Record>, k: Key, fate: Fate, p: Part, base: int, p': Part, failed: bool,
                          res: seq<RecordResult>)
    requires |res| == |rs|
  {
    var (part, seen) := Attempt(p, base, IdsFor(rs, k), fate);
    && p' == part && (failed <==> seen.Failed?)
    && forall t :: 0 <= t < |Positions(rs, k, |rs|)| ==>
         res[Positions(rs, k, |rs|)[t]] == if seen.Acked? then Result(k, seen.offset + t) else NoResult
  }

  lemma NothingSent(rs: seq<Record>, cursor: map<Key, int>, fates: Key -> Fate,
                    parts: map<Key, Part>, res: seq<RecordResult>)
    requires |res| == |rs| && forall i :: 0 <= i < |res| ==> res[i] == NoResult
    ensures SentSoFar(rs, cursor, fates, parts, parts, {}, {}, res, NoError)
  {}

  /** Sending one more partition touches only its own part and its own results. */
  lemma SentOne(rs: seq<Record>, cursor: map<Key, int>, fates: Key -> Fate,
                before: map<Key, Part>, after: map<Key, Part>, done: set<Key>, failed: set<Key>,
                res: seq<RecordResult>, err: SendError, k: Key, res': seq<RecordResult>)
    requires SentSoFar(rs, cursor, fates, before, after, done, failed, res, err)
    requires k !in done && k in cursor && |res'| == |rs|
    requires var (p, seen) := Attempt(PartAt(before, k), cursor[k], IdsFor(rs, k), fates(k));
             && (forall i :: 0 <= i < |rs| && KeyOf(rs[i]) != k ==> res'[i] == res[i])
             && forall t :: 0 <= t < |Positions(rs, k, |rs|)| ==>
                  res'[Positions(rs, k, |rs|)[t]] == if seen.Acked? then Result(k, seen.offset + t) else NoResult
    ensures var (p, seen) := Attempt(PartAt(before, k), cursor[k], IdsFor(rs, k), fates(k));
            SentSoFar(rs, cursor, fates, before, after[k := p], done + {k},
                      if seen.Failed? then failed + {k} else failed, res',
                      if seen.Failed? then Worse(err, seen.fatal) else err)
  {
    hide Attempt, IdsFor, Positions, SomeFatal, OneSent;
    var (p, seen) := Attempt(PartAt(before, k), cursor[k], IdsFor(rs, k), fates(k));
    FatalStep(rs, cursor, fates, before, done, k);
    var after', failed' := after[k := p], if seen.Failed? then failed + {k} else failed;
    forall j | j in done + {k}
      ensures j in cursor && OneSent(rs, j, fates(j), PartAt(before, j), cursor[j], PartAt(after', j), j in failed', res')
    {
      if j == k {
        SentThis(rs, k, fates(k), PartAt(before, k), cursor[k], res');
      } else {
        SentBefore(rs, j, fates(j), PartAt(before, j), cursor[j], PartAt(after, j), j in failed, res, res');
      }
    }
  }

  /** Results of other partitions do not matter to a partition that was sent. */
  lemma SentBefore(rs: seq<Record>, j: Key, fate: Fate, p: Part, base: int, p': Part, failed: bool,
                   res: seq<RecordResult>, res': seq<RecordResult>)
    requires |res| == |rs| == |res'| && OneSent(rs, j, fate, p, base, p', failed, res)
    requires forall i :: 0 <= i < |rs| && KeyOf(rs[i]) == j ==> res'[i] == res[i]
    ensures OneSent(rs, j, fate, p, base, p', failed, res')
  {
    hide Attempt, IdsFor, Positions;
  }

  lemma SentThis(rs: seq<Record>, k: Key, fate: Fate, p: Part, base: int, res: seq<RecordResult>)
    requires |res| == |rs|
    requires var seen := Attempt(p, base, IdsFor(rs, k), fate).1;
             forall t :: 0 <= t < |Positions(rs, k, |rs|)| ==>
               res[Positions(rs, k, |rs|)[t]] == if seen.Acked? then Result(k, seen.offset + t) else NoResult
    ensures var (part, seen) := Attempt(p, base, IdsFor(rs, k), fate);
            OneSent(rs, k, fate, p, base, part, seen.Failed?, res)
  {
    hide Attempt, IdsFor, Positions;
  }

  lemma FatalStep(rs: seq<Record>, cursor: map<Key, int>, fates: Key -> Fate, parts: map<Key, Part>, done: set<Key>, k: Key)
    requires k in cursor
    ensures SomeFatal(rs, cursor, fates, parts, done + {k}) <==>
              || SomeFatal(rs, cursor, fates, parts, done)
              || Attempt(PartAt(parts, k), cursor[k], IdsFor(rs, k), fates(k)).1 == Failed(true)
  {
    hide Attempt, IdsFor;
    if Attempt(PartAt(parts, k), cursor[k], IdsFor(rs, k), fates(k)).1 == Failed(true) {
      assert k in done + {k};
    }
  }

  /** One partition's batch and, if it is acknowledged, its results. */
  method SendKey(brokers: Brokers, rs: seq<Record>, k: Key, ps: seq<nat>, base: int, fate: Fate, res: array<RecordResult>)
    returns (seen: Seen)
    requires res.Length == |rs| && ps == Positions(rs, k, |rs|)
    requires forall t :: 0 <= t < |ps| ==> res[ps[t]] == NoResult
    modifies brokers, res
    ensures var (p, s) := Attempt(PartAt(old(brokers.parts), k), base, IdsFor(rs, k), fate);
            seen == s && brokers.parts == old(brokers.parts)[k := p]
    ensures forall i :: 0 <= i < |rs| && KeyOf(rs[i]) != k ==> res[..][i] == old(res[..])[i]
    ensures forall t :: 0 <= t < |ps| ==>
              res[..][ps[t]] == if seen.Acked? then Result(k, seen.offset + t) else NoResult
  {
    hide Positions, Attempt;
    ghost var before := res[..];
    seen := brokers.Produce(k, base, IdsFor(rs, k), fate);
    PositionsDistinct(rs, k, |rs|);
    if seen.Acked? { FillResults(res, ps, k, seen.offset); }
    OnlyOwnResults(rs, k, before, res[..]);
  }

  method SendAll(brokers: Brokers, rs: seq<Record>, group: map<Key, seq<nat>>, cursor: map<Key, int>, fates: Key -> Fate,
                 res: array<RecordResult>)
    returns (failed: set<Key>, err: SendError)
    requires group.Keys == cursor.Keys && res.Length == |rs|
    requires forall k :: k in group ==> group[k] == Positions(rs, k, |rs|)
    requires forall i :: 0 <= i < res.Length ==> res[i] == NoResult
    modifies brokers, res
    ensures SentSoFar(rs, cursor, fates, old(brokers.parts), brokers.parts, group.Keys, failed, res[..], err)
  {
    hide SentSoFar, Attempt, Positions;
    failed, err := {}, NoError;
    var left := group.Keys;
    NothingSent(rs, cursor, fates, brokers.parts, res[..]);
    assert group.Keys - left == {};
    while left != {}
      invariant left <= group.Keys
      invariant SentSoFar(rs, cursor, fates, old(brokers.parts), brokers.parts, group.Keys - left, failed, res[..], err)
      decreases |left|
    {
      var k :| k in left;
      ghost var before, done, partsBefore := res[..], group.Keys - left, brokers.parts;
      PartsUntouched(rs, cursor, fates, old(brokers.parts), partsBefore, done, failed, before, err, k);
      var seen := SendKey(brokers, rs, k, group[k], cursor[k], fates(k), res);
      SentOne(rs, cursor, fates, old(brokers.parts), partsBefore, done, failed, before, err, k, res[..]);
      if seen.Failed? {
        failed := failed + {k};
        err := Worse(err, seen.fatal);
      }
      left := left - {k};
      assert group.Keys - left == done + {k};
    }
    assert group.Keys - {} == group.Keys;
  }

  lemma PartsUntouched(rs: seq<Record>, cursor: map<Key, int>, fates: Key -> Fate,
                       before: map<Key, Part>, after: map<Key, Part>, done: set<Key>, failed: set<Key>,
                       res: seq<RecordResult>, err: SendError, k: Key)
    requires SentSoFar(rs, cursor, fates, before, after, done, failed, res, err) && k !in done
    ensures PartAt(after, k) == PartAt(before, k)
    ensures |res| == |rs|
    ensures forall t :: 0 <= t < |Positions(rs, k, |rs|)| ==> res[Positions(rs, k, |rs|)[t]] == NoResult
  {}

  lemma OnlyOwnResults(rs: seq<Record>, k: Key, before: seq<RecordResult>, after: seq<RecordResult>)
    requires |before| == |after| == |rs|
    requires forall i :: 0 <= i < |rs| && i !in Positions(rs, k, |rs|) ==> after[i] == before[i]
    ensures forall i :: 0 <= i < |rs| && KeyOf(rs[i]) != k ==> after[i] == before[i]
  {}

  /**
   `sendRecords`: reserve a block per partition, send every batch, roll back the
   partitions that failed.
   */
  method SendRecords(state: SequenceState, brokers: Brokers, rs: seq<Record>, fates: Key -> Fate)
    returns (res: seq<RecordResult>, err: SendError)
    requires forall k :: SeqAt(state.sequences, k) >= 0
    modifies state, brokers
    ensures |res| == |rs|
    ensures forall k :: k in Keys(rs, |rs|) ==>
              KeySent(rs, k, fates(k), PartAt(old(brokers.parts), k), SeqAt(old(state.sequences), k),
                      PartAt(brokers.parts, k), SeqAt(state.sequences, k), res)
    ensures forall k :: k !in Keys(rs, |rs|) ==>
              && PartAt(brokers.parts, k) == PartAt(old(brokers.parts), k)
              && SeqAt(state.sequences, k) == SeqAt(old(state.sequences), k)
    ensures err == NoError <==> AllAcked(rs, fates, old(brokers.parts), old(state.sequences))
    ensures err == Error(true) <==> SomeFatal(rs, old(state.sequences), fates, old(brokers.parts), Keys(rs, |rs|))
  {
    hide Positions, Attempt, KeySent, SentSoFar, IdsFor, AllAcked, SomeFatal;
    var group := GroupByKey(rs);
    var counts: map<Key, nat> := map k | k in group :: |group[k]|;
    var cursor := ReserveAll(state, counts);
    var results := new RecordResult[|rs|](_ => NoResult);
    var failed;
    failed, err := SendAll(brokers, rs, group, cursor, fates, results);
    SentFacts(rs, cursor, fates, old(brokers.parts), brokers.parts, group.Keys, failed, results[..], err);
    RollbackAll(state, failed, counts);
    res := results[..];
    AttemptDone(rs, cursor, fates, old(brokers.parts), brokers.parts, old(state.sequences), state.sequences, failed, res, err);
  }

  /** The loops together do to every partition what one attempt should. */
  lemma AttemptDone(rs: seq<Record>, cursor: map<Key, int>, fates: Key -> Fate, before: map<Key, Part>,
                    after: map<Key, Part>, seqs: map<Key, int>, seqs': map<Key, int>, failed: set<Key>,
                    res: seq<RecordResult>, err: SendError)
    requires SentSoFar(rs, cursor, fates, before, after, Keys(rs, |rs|), failed, res, err)
    requires cursor.Keys == Keys(rs, |rs|) && forall k :: k in cursor ==> cursor[k] == SeqAt(seqs, k)
    requires forall k :: k in cursor ==>
               SeqAt(seqs', k) == if k in failed then cursor[k] else cursor[k] + |IdsFor(rs, k)|
    ensures forall k :: k in Keys(rs, |rs|) ==>
              |res| == |rs| && KeySent(rs, k, fates(k), PartAt(before, k), SeqAt(seqs, k), PartAt(after, k), SeqAt(seqs', k), res)
    ensures err == NoError <==> AllAcked(rs, fates, before, seqs)
    ensures err == Error(true) <==> SomeFatal(rs, seqs, fates, before, Keys(rs, |rs|))
  {
    hide SentSoFar, KeySent, OneSent, Attempt, IdsFor, SomeFatal;
    SameFatal(rs, cursor, seqs, fates, before, Keys(rs, |rs|));
    SentFacts(rs, cursor, fates, before, after, Keys(rs, |rs|), failed, res, err);
    forall k | k in cursor
      ensures KeySent(rs, k, fates(k), PartAt(before, k), SeqAt(seqs, k), PartAt(after, k), SeqAt(seqs', k), res)
    {
      SentKey(rs, k, fates(k), PartAt(before, k), cursor[k], PartAt(after, k), SeqAt(seqs', k), k in failed, res);
    }
  }

  /** No partition of the attempt fails. */
  ghost predicate AllAcked(rs: seq<Record>, fates: Key -> Fate, parts: map<Key, Part>, seqs: map<Key, int>) {
    forall k :: k in Keys(rs, |rs|) ==> Attempt(PartAt(parts, k), SeqAt(seqs, k), IdsFor(rs, k), fates(k)).1.Acked?
  }

  lemma SentFacts(rs: seq<Record>, cursor: map<Key, int>, fates: Key -> Fate, before: map<Key, Part>,
                  after: map<Key, Part>, done: set<Key>, failed: set<Key>, res: seq<RecordResult>, err: SendError)
    requires SentSoFar(rs, cursor, fates, before, after, done, failed, res, err)
    ensures |res| == |rs| && failed <= done && (err == NoError <==> failed == {})
    ensures err == Error(true) <==> SomeFatal(rs, cursor, fates, before, done)
    ensures forall k :: k !in done ==> PartAt(after, k) == PartAt(before, k)
    ensures forall k :: k in done ==>
              k in cursor && OneSent(rs, k, fates(k), PartAt(before, k), cursor[k], PartAt(after, k), k in failed, res)
    ensures failed == {} <==>
              forall k :: k in done ==> Attempt(PartAt(before, k), cursor[k], IdsFor(rs, k), fates(k)).1.Acked?
  {
    hide Attempt, IdsFor, Positions, SomeFatal;
    if k :| k in failed {
      assert OneSent(rs, k, fates(k), PartAt(before, k), cursor[k], PartAt(after, k), true, res);
    }
  }

  lemma SameFatal(rs: seq<Record>, cursor: map<Key, int>, seqs: map<Key, int>, fates: Key -> Fate, parts: map<Key, Part>,
                  done: set<Key>)
    requires forall k :: k in done ==> SeqAt(cursor, k) == SeqAt(seqs, k)
    ensures SomeFatal(rs, cursor, fates, parts, done) <==> SomeFatal(rs, seqs, fates, parts, done)
  {
    hide Attempt, IdsFor;
  }

  lemma SentKey(rs: seq<Record>, k: Key, fate: Fate, p: Part, base: int, p': Part, s': int, failed: bool,
                res: seq<RecordResult>)
    requires |res| == |rs| && OneSent(rs, k, fate, p, base, p', failed, res)
    requires s' == if failed then base else base + |IdsFor(rs, k)|
    ensures KeySent(rs, k, fate, p, base, p', s', res)
  {}
}
