/**
 One whole call of the synchronous producer: attempts, partial acknowledgements
 and retries, for every sequence of faults.
 */
module ProduceCall {
  import opened ProduceBroker
  import opened IdempotentProduce

  // ------------------------------------------------------------- records still to be sent

  function Unacked(acked: seq<bool>, n: nat): (r: seq<nat>)
    requires n <= |acked|
    ensures forall j :: 0 <= j < |r| ==> r[j] < n && !acked[r[j]]
  {
    if n == 0 then [] else Unacked(acked, n - 1) + (if acked[n - 1] then [] else [n - 1])
  }

  function Pick(rs: seq<Record>, idx: seq<nat>): (r: seq<Record>)
    requires forall j :: 0 <= j < |idx| ==> idx[j] < |rs|
    ensures |r| == |idx| && forall j :: 0 <= j < |idx| ==> r[j] == rs[idx[j]]
  {
    seq(|idx|, j requires 0 <= j < |idx| => rs[idx[j]])
  }

  method PendingRecords(frozen: seq<Record>, acked: seq<bool>) returns (pending: seq<Record>, origIdx: seq<nat>)
    requires |acked| == |frozen|
    ensures origIdx == Unacked(acked, |acked|) && pending == Pick(frozen, origIdx)
  {
    pending, origIdx := [], [];
    for i: nat := 0 to |frozen|
      invariant origIdx == Unacked(acked, i) && pending == Pick(frozen, origIdx)
    {
      if !acked[i] {
        pending := pending + [frozen[i]];
        origIdx := origIdx + [i];
      }
    }
  }

  lemma {:induction false} PositionsAgree(a: seq<Record>, b: seq<Record>, k: Key, n: nat)
    requires n <= |a| && n <= |b| && forall i :: 0 <= i < n ==> a[i] == b[i]
    ensures Positions(a, k, n) == Positions(b, k, n)
  {
    if n > 0 { PositionsAgree(a, b, k, n - 1); }
  }

  /** None of the first n records of partition k is acknowledged. */
  ghost predicate NoneAcked(frozen: seq<Record>, acked: seq<bool>, k: Key, n: nat)
    requires n <= |frozen| == |acked|
  {
    forall i :: 0 <= i < n && KeyOf(frozen[i]) == k ==> !acked[i]
  }

  /** Through idx, the places ps are the places qs. */
  ghost predicate SamePlaces(idx: seq<nat>, ps: seq<nat>, qs: seq<nat>) {
    && |ps| == |qs|
    && (forall t :: 0 <= t < |ps| ==> ps[t] < |idx|)
    && forall t :: 0 <= t < |ps| ==> idx[ps[t]] == qs[t]
  }

  /** Among the first n records, those of partition k are all pending, in their order. */
  ghost predicate AllPending(frozen: seq<Record>, acked: seq<bool>, k: Key, n: nat)
    requires n <= |frozen| == |acked|
  {
    var idx := Unacked(acked, n);
    SamePlaces(idx, Positions(Pick(frozen, idx), k, |idx|), Positions(frozen, k, n))
  }

  lemma {:induction false} TakeOne(frozen: seq<Record>, acked: seq<bool>, k: Key, n: nat)
    requires n < |frozen| == |acked| && AllPending(frozen, acked, k, n) && !acked[n]
    ensures AllPending(frozen, acked, k, n + 1)
  {
    hide SamePlaces, Positions;
    var idx := Unacked(acked, n);
    var picked := Pick(frozen, idx + [n]);
    PositionsAgree(Pick(frozen, idx), picked, k, |idx|);
    var ps, qs := Positions(picked, k, |idx|), Positions(frozen, k, n);
    SamePlacesMore(idx, ps, qs, n);
    PositionsSnoc(picked, k, |idx|);
    PositionsSnoc(frozen, k, n);
  }

  lemma {:induction false} SamePlacesMore(idx: seq<nat>, ps: seq<nat>, qs: seq<nat>, n: nat)
    requires SamePlaces(idx, ps, qs)
    ensures SamePlaces(idx + [n], ps, qs) && SamePlaces(idx + [n], ps + [|idx|], qs + [n])
  {}

  lemma {:induction false} PositionsSnoc(rs: seq<Record>, k: Key, n: nat)
    requires n < |rs|
    ensures Positions(rs, k, n + 1) == if KeyOf(rs[n]) == k then Positions(rs, k, n) + [n] else Positions(rs, k, n)
  {}

  lemma {:induction false} SkipOne(frozen: seq<Record>, acked: seq<bool>, k: Key, n: nat)
    requires n < |frozen| == |acked| && AllPending(frozen, acked, k, n) && acked[n] && KeyOf(frozen[n]) != k
    ensures AllPending(frozen, acked, k, n + 1)
  {
    assert Unacked(acked, n + 1) == Unacked(acked, n);
    assert Positions(frozen, k, n + 1) == Positions(frozen, k, n);
  }

  /**
   A partition none of whose records is acknowledged is sent with all its
   records, in their original order.
   */
  lemma {:induction false} PendingPositions(frozen: seq<Record>, acked: seq<bool>, k: Key, n: nat)
    requires n <= |frozen| == |acked| && NoneAcked(frozen, acked, k, n)
    ensures AllPending(frozen, acked, k, n)
  {
    if n == 0 {
      assert Unacked(acked, 0) == [];
    } else {
      hide AllPending;
      PendingPositions(frozen, acked, k, n - 1);
      if acked[n - 1] { SkipOne(frozen, acked, k, n - 1); } else { TakeOne(frozen, acked, k, n - 1); }
    }
  }

  lemma {:induction false} UnackedComplete(acked: seq<bool>, n: nat, i: nat)
    requires i < n <= |acked| && !acked[i]
    ensures i in Unacked(acked, n)
  {
    if i < n - 1 { UnackedComplete(acked, n - 1, i); }
  }

  lemma {:induction false} UnackedDistinct(acked: seq<bool>, n: nat)
    requires n <= |acked|
    ensures forall j, l :: 0 <= j < l < |Unacked(acked, n)| ==> Unacked(acked, n)[j] < Unacked(acked, n)[l]
  {
    if n > 0 { UnackedDistinct(acked, n - 1); }
  }

  // ------------------------------------------------------------- the state of a call

  /** Every partition is in one of the three states of `KeyInv`; the others are untouched. */
  ghost predicate CallInv(frozen: seq<Record>, start: map<Key, Part>, startSeqs: map<Key, int>,
                          parts: map<Key, Part>, seqs: map<Key, int>, done: set<Key>) {
    && (forall k :: k in Keys(frozen, |frozen|) ==>
          KeyInv(PartAt(start, k), PartAt(parts, k), SeqAt(seqs, k), k in done, IdsFor(frozen, k)))
    && (forall k :: k !in Keys(frozen, |frozen|) ==>
          PartAt(parts, k) == PartAt(start, k) && SeqAt(seqs, k) == SeqAt(startSeqs, k))
    && done <= Keys(frozen, |frozen|)
  }

  /** Where record i is, once its partition is acknowledged. */
  function OffsetOf(frozen: seq<Record>, start: map<Key, Part>, i: nat): RecordResult
    requires i < |frozen|
  {
    var k := KeyOf(frozen[i]);
    Result(k, |PartAt(start, k).log| + Rank(frozen, i))
  }

  /** Acknowledged are exactly the records of the acknowledged partitions, at their offsets. */
  ghost predicate ResultsInv(frozen: seq<Record>, start: map<Key, Part>, done: set<Key>,
                             acked: seq<bool>, results: seq<RecordResult>) {
    && |acked| == |results| == |frozen|
    && forall i :: 0 <= i < |frozen| ==>
         && acked[i] == (KeyOf(frozen[i]) in done)
         && results[i] == if acked[i] then OffsetOf(frozen, start, i) else NoResult
  }

  method MergeAcked(results: array<RecordResult>, acked: array<bool>, origIdx: seq<nat>, res: seq<RecordResult>)
    requires results.Length == acked.Length && |origIdx| == |res|
    requires forall j :: 0 <= j < |origIdx| ==> origIdx[j] < acked.Length
    requires forall j, l :: 0 <= j < l < |origIdx| ==> origIdx[j] != origIdx[l]
    modifies results, acked
    ensures forall j :: 0 <= j < |origIdx| && res[j].Result? ==> results[origIdx[j]] == res[j] && acked[origIdx[j]]
    ensures forall j :: 0 <= j < |origIdx| && !res[j].Result? ==>
              results[origIdx[j]] == old(results[origIdx[j]]) && acked[origIdx[j]] == old(acked[origIdx[j]])
    ensures forall i :: 0 <= i < acked.Length && i !in origIdx ==> results[i] == old(results[i]) && acked[i] == old(acked[i])
  {
    for k := 0 to |res|
      invariant forall j :: 0 <= j < k && res[j].Result? ==> results[origIdx[j]] == res[j] && acked[origIdx[j]]
      invariant forall j :: 0 <= j < k && !res[j].Result? ==>
                  results[origIdx[j]] == old(results[origIdx[j]]) && acked[origIdx[j]] == old(acked[origIdx[j]])
      invariant forall j :: k <= j < |res| ==>
                  results[origIdx[j]] == old(results[origIdx[j]]) && acked[origIdx[j]] == old(acked[origIdx[j]])
      invariant forall i :: 0 <= i < acked.Length && i !in origIdx ==>
                  results[i] == old(results[i]) && acked[i] == old(acked[i])
    {
      if res[k].Result? {
        results[origIdx[k]] := res[k];
        acked[origIdx[k]] := true;
      }
    }
  }

  // ------------------------------------------------------------- freezing partitions

  datatype Choice = Chosen(part: nat) | Unresolved(fatal: bool)

  /** What the outside world does during one attempt. */
  datatype Env = Env(
    cancelled: bool,            // the context is done before the attempt
    refresh: SendError,         // outcome of the metadata refresh
    choose: nat -> Choice,      // what the partitioner would answer for record i, this time
    leader: Key -> SendError,   // whether a partition's leader is known
    fates: Key -> Fate,
    cancelledWaiting: bool)     // the context is done during the wait that follows

  /** Nothing in the attempt ends the call: no cancellation, no error that must not be retried. */
  ghost predicate Calm(e: Env) {
    && !e.cancelled && !e.cancelledWaiting && e.refresh != Error(true)
    && (forall i: nat :: e.choose(i) != Unresolved(true))
    && forall k :: e.leader(k) != Error(true) && !Fatal(e.fates(k))
  }

  predicate Fatal(f: Fate) { f != Delivered && f.fatal }

  /** Nothing goes wrong in the attempt. */
  ghost predicate Benign(e: Env) {
    && !e.cancelled && e.refresh == NoError && (forall i: nat :: e.choose(i).Chosen?)
    && forall k :: e.leader(k) == NoError && e.fates(k) == Delivered
  }

  /** Every record keeps its identity and topic, and a chosen partition stays chosen. */
  ghost predicate FrozenFrom(records: seq<Record>, frozen: seq<Record>) {
    && |frozen| == |records|
    && forall i :: 0 <= i < |records| ==>
         && frozen[i].id == records[i].id && frozen[i].topic == records[i].topic && frozen[i].partition >= 0
         && (records[i].partition >= 0 ==> frozen[i].partition == records[i].partition)
  }

  method FreezePartitions(records: seq<Record>, choose: nat -> Choice) returns (frozen: seq<Record>, err: SendError)
    ensures err == NoError ==> FrozenFrom(records, frozen)
    ensures err == NoError <==> forall i: nat :: i < |records| && records[i].partition < 0 ==> choose(i).Chosen?
    ensures err == NoError ==>
              forall i: nat :: i < |records| && records[i].partition < 0 ==> frozen[i].partition == choose(i).part
    ensures err.Error? ==> exists i: nat :: choose(i) == Unresolved(err.fatal)
  {
    frozen := [];
    for i: nat := 0 to |records|
      invariant FrozenFrom(records[..i], frozen)
      invariant forall j: nat :: j < i && records[j].partition < 0 ==>
                  choose(j).Chosen? && frozen[j].partition == choose(j).part
    {
      var r := records[i];
      if r.partition < 0 {
        var c := choose(i);
        if c.Unresolved? { return [], Error(c.fatal); }
        r := r.(partition := c.part);
      }
      frozen := frozen + [r];
    }
    assert records[..|records|] == records;
    err := NoError;
  }

  method ResolveLeaders(pending: seq<Record>, leader: Key -> SendError) returns (err: SendError)
    ensures err == NoError <==> forall i :: 0 <= i < |pending| ==> leader(KeyOf(pending[i])) == NoError
    ensures err.Error? ==> exists k :: leader(k) == err
  {
    for i := 0 to |pending|
      invariant forall j :: 0 <= j < i ==> leader(KeyOf(pending[j])) == NoError
    {
      err := leader(KeyOf(pending[i]));
      if err != NoError { return; }
    }
    err := NoError;
  }

  // ------------------------------------------------------------- one attempt within a call

  /** Unacknowledged partitions are sent whole, and nothing else is. */
  lemma PendingKeys(frozen: seq<Record>, start: map<Key, Part>, done: set<Key>, acked: seq<bool>, results: seq<RecordResult>)
    requires ResultsInv(frozen, start, done, acked, results)
    ensures var pending := Pick(frozen, Unacked(acked, |acked|));
            Keys(pending, |pending|) == Keys(frozen, |frozen|) - done
  {
    var idx := Unacked(acked, |acked|);
    var pending := Pick(frozen, idx);
    forall k | k in Keys(frozen, |frozen|) - done ensures k in Keys(pending, |pending|) {
      var i :| 0 <= i < |frozen| && KeyOf(frozen[i]) == k;
      UnackedComplete(acked, |acked|, i);
      var j :| 0 <= j < |idx| && idx[j] == i;
      assert pending[j] == frozen[i];
    }
    forall k | k in Keys(pending, |pending|) ensures k in Keys(frozen, |frozen|) - done {
      var j :| 0 <= j < |pending| && KeyOf(pending[j]) == k;
      assert pending[j] == frozen[idx[j]];
    }
  }

  lemma PendingIds(frozen: seq<Record>, start: map<Key, Part>, done: set<Key>, acked: seq<bool>,
                   results: seq<RecordResult>, k: Key)
    requires ResultsInv(frozen, start, done, acked, results) && k !in done
    ensures AllPending(frozen, acked, k, |frozen|)
    ensures IdsFor(Pick(frozen, Unacked(acked, |acked|)), k) == IdsFor(frozen, k)
  {
    hide Positions, Unacked;
    PendingPositions(frozen, acked, k, |frozen|);
  }

  /** The partitions acknowledged after an attempt on the pending ones. */
  ghost function DoneAfter(frozen: seq<Record>, done: set<Key>, parts: map<Key, Part>, seqs: map<Key, int>,
                           fates: Key -> Fate): set<Key>
  {
    done + set k | k in Keys(frozen, |frozen|) &&
                   Attempt(PartAt(parts, k), SeqAt(seqs, k), IdsFor(frozen, k), fates(k)).1.Acked?
  }

  /** The state of one partition after one attempt, and the results of its records. */
  lemma KeyAttempt(frozen: seq<Record>, pending: seq<Record>, k: Key, fate: Fate, start: Part, p: Part, s: int,
                   p': Part, s': int, res: seq<RecordResult>)
    requires |res| == |pending| && KeySent(pending, k, fate, p, s, p', s', res)
    requires IdsFor(pending, k) == IdsFor(frozen, k) && |IdsFor(frozen, k)| >= 1
    requires KeyInv(start, p, s, false, IdsFor(frozen, k))
    ensures var ok := Attempt(p, s, IdsFor(frozen, k), fate).1.Acked?;
            var ps := Positions(pending, k, |pending|);
            && KeyInv(start, p', s', ok, IdsFor(frozen, k))
            && forall t :: 0 <= t < |ps| ==> res[ps[t]] == if ok then Result(k, |start.log| + t) else NoResult
  {
    hide IdsFor, Positions, Attempt, KeyInv;
    AttemptKeeps(start, p, s, IdsFor(frozen, k), fate);
  }

  /** Record j of an attempt is reported at the offset of its original. */
  lemma RecordAttempt(frozen: seq<Record>, acked: seq<bool>, start: map<Key, Part>, j: nat, ok: bool, res: seq<RecordResult>)
    requires |acked| == |frozen| && |res| == |Unacked(acked, |acked|)| && j < |res|
    requires var idx := Unacked(acked, |acked|);
             var pending := Pick(frozen, idx);
             var k := KeyOf(pending[j]);
             var ps := Positions(pending, k, |pending|);
             && AllPending(frozen, acked, k, |frozen|)
             && forall t :: 0 <= t < |ps| ==> res[ps[t]] == if ok then Result(k, |PartAt(start, k).log| + t) else NoResult
    ensures var i := Unacked(acked, |acked|)[j];
            res[j] == if ok then OffsetOf(frozen, start, i) else NoResult
  {
    hide Unacked, Positions;
    var idx := Unacked(acked, |acked|);
    var pending := Pick(frozen, idx);
    var k := KeyOf(pending[j]);
    PositionAt(pending, j, |pending|);
    RankOfPosition(frozen, k, |frozen|, Rank(pending, j));
  }

  /** What `SendRecords` promises about every partition it was given, and about the others. */
  ghost predicate AllSent(pending: seq<Record>, fates: Key -> Fate, parts: map<Key, Part>, seqs: map<Key, int>,
                          parts': map<Key, Part>, seqs': map<Key, int>, res: seq<RecordResult>) {
    && |res| == |pending|
    && (forall k :: k in Keys(pending, |pending|) ==>
          KeySent(pending, k, fates(k), PartAt(parts, k), SeqAt(seqs, k), PartAt(parts', k), SeqAt(seqs', k), res))
    && (forall k :: k !in Keys(pending, |pending|) ==>
          PartAt(parts', k) == PartAt(parts, k) && SeqAt(seqs', k) == SeqAt(seqs, k))
  }

  /** One attempt keeps the invariant of every partition. */
  lemma CallStep(frozen: seq<Record>, start: map<Key, Part>, startSeqs: map<Key, int>, done: set<Key>,
                 acked: seq<bool>, results: seq<RecordResult>, parts: map<Key, Part>, seqs: map<Key, int>,
                 parts': map<Key, Part>, seqs': map<Key, int>, fates: Key -> Fate, res: seq<RecordResult>)
    requires CallInv(frozen, start, startSeqs, parts, seqs, done) && ResultsInv(frozen, start, done, acked, results)
    requires AllSent(Pick(frozen, Unacked(acked, |acked|)), fates, parts, seqs, parts', seqs', res)
    ensures CallInv(frozen, start, startSeqs, parts', seqs', DoneAfter(frozen, done, parts, seqs, fates))
  {
    hide KeyInv, KeySent, IdsFor, Attempt, Positions, Unacked;
    var pending := Pick(frozen, Unacked(acked, |acked|));
    var done' := DoneAfter(frozen, done, parts, seqs, fates);
    PendingKeys(frozen, start, done, acked, results);
    forall k | k in Keys(frozen, |frozen|)
      ensures KeyInv(PartAt(start, k), PartAt(parts', k), SeqAt(seqs', k), k in done', IdsFor(frozen, k))
    {
      if k !in done {
        KeyHasIds(frozen, k);
        PendingIds(frozen, start, done, acked, results, k);
        KeyAttempt(frozen, pending, k, fates(k), PartAt(start, k), PartAt(parts, k), SeqAt(seqs, k),
                   PartAt(parts', k), SeqAt(seqs', k), res);
      }
    }
  }

  /** The results of one attempt, by original index. */
  lemma ResultsStep(frozen: seq<Record>, start: map<Key, Part>, startSeqs: map<Key, int>, done: set<Key>,
                    acked: seq<bool>, results: seq<RecordResult>, parts: map<Key, Part>, seqs: map<Key, int>,
                    parts': map<Key, Part>, seqs': map<Key, int>, fates: Key -> Fate, res: seq<RecordResult>, j: nat)
    requires CallInv(frozen, start, startSeqs, parts, seqs, done) && ResultsInv(frozen, start, done, acked, results)
    requires AllSent(Pick(frozen, Unacked(acked, |acked|)), fates, parts, seqs, parts', seqs', res)
    requires j < |res|
    ensures var i := Unacked(acked, |acked|)[j];
            res[j] == if KeyOf(frozen[i]) in DoneAfter(frozen, done, parts, seqs, fates) then OffsetOf(frozen, start, i)
                      else NoResult
  {
    hide KeyInv, KeySent, IdsFor, Attempt, Positions, Unacked, AllPending;
    var pending := Pick(frozen, Unacked(acked, |acked|));
    var k := KeyOf(pending[j]);
    assert k in Keys(pending, |pending|);
    PendingKeys(frozen, start, done, acked, results);
    KeyHasIds(frozen, k);
    PendingIds(frozen, start, done, acked, results, k);
    KeyAttempt(frozen, pending, k, fates(k), PartAt(start, k), PartAt(parts, k), SeqAt(seqs, k),
               PartAt(parts', k), SeqAt(seqs', k), res);
    RecordAttempt(frozen, acked, start, j, Attempt(PartAt(parts, k), SeqAt(seqs, k), IdsFor(frozen, k), fates(k)).1.Acked?, res);
  }

  /** What `MergeAcked` does to the flags and results. */
  ghost predicate Merged(idx: seq<nat>, res: seq<RecordResult>, acked: seq<bool>, results: seq<RecordResult>,
                         acked': seq<bool>, results': seq<RecordResult>) {
    && |acked'| == |acked| == |results| == |results'| && |res| == |idx|
    && (forall j :: 0 <= j < |idx| ==> idx[j] < |acked|)
    && (forall j :: 0 <= j < |idx| ==>
          if res[j].Result? then results'[idx[j]] == res[j] && acked'[idx[j]]
          else results'[idx[j]] == results[idx[j]] && acked'[idx[j]] == acked[idx[j]])
    && forall i :: 0 <= i < |acked| && i !in idx ==> results'[i] == results[i] && acked'[i] == acked[i]
  }

  lemma MergeStep(frozen: seq<Record>, start: map<Key, Part>, done: set<Key>, done': set<Key>, idx: seq<nat>,
                  res: seq<RecordResult>, acked: seq<bool>, results: seq<RecordResult>, acked': seq<bool>,
                  results': seq<RecordResult>)
    requires ResultsInv(frozen, start, done, acked, results) && done <= done'
    requires Merged(idx, res, acked, results, acked', results')
    requires forall i :: 0 <= i < |acked| && !acked[i] ==> i in idx
    requires forall j :: 0 <= j < |idx| ==> !acked[idx[j]]
    requires forall j :: 0 <= j < |idx| ==>
               res[j] == if KeyOf(frozen[idx[j]]) in done' then OffsetOf(frozen, start, idx[j]) else NoResult
    ensures ResultsInv(frozen, start, done', acked', results')
  {
    hide Rank, PartAt;
    forall i | 0 <= i < |frozen|
      ensures acked'[i] == (KeyOf(frozen[i]) in done')
      ensures results'[i] == if acked'[i] then OffsetOf(frozen, start, i) else NoResult
    {
      if i in idx {
        var j :| 0 <= j < |idx| && idx[j] == i;
      }
    }
  }

  /** Sends what is pending and merges what was acknowledged. */
  method SendPending(state: SequenceState, brokers: Brokers, frozen: seq<Record>, results: array<RecordResult>,
                     acked: array<bool>, env: Env, ghost start: map<Key, Part>, ghost startSeqs: map<Key, int>,
                     ghost done: set<Key>)
    returns (err: SendError, ghost done': set<Key>)
    requires CallInv(frozen, start, startSeqs, brokers.parts, state.sequences, done)
    requires ResultsInv(frozen, start, done, acked[..], results[..])
    requires forall k :: SeqAt(startSeqs, k) >= 0
    modifies state, brokers, results, acked
    ensures CallInv(frozen, start, startSeqs, brokers.parts, state.sequences, done')
    ensures ResultsInv(frozen, start, done', acked[..], results[..])
    ensures done <= done' && (err == NoError <==> done' == Keys(frozen, |frozen|))
    ensures Benign(env) ==> err == NoError
    ensures Calm(env) ==> err != Error(true)
  {
    hide CallInv, ResultsInv, KeySent, Keys, Unacked, Positions, IdsFor, AllAcked, SomeFatal, DoneAfter, AllSent;
    ghost var was, wasAcked, parts, seqs := results[..], acked[..], brokers.parts, state.sequences;
    ResultsShape(frozen, start, done, wasAcked, was);
    NonNegative(frozen, start, startSeqs, parts, seqs, done);
    var pending, origIdx := PendingRecords(frozen, acked[..]);
    PendingKeys(frozen, start, done, wasAcked, was);
    err := ResolveLeaders(pending, env.leader);
    if err != NoError {
      done' := done;
      SomethingPending(pending);
      return;
    }
    var fates, res := env.fates, [];
    NoWorseThanFates(frozen, start, startSeqs, done, wasAcked, was, parts, seqs, fates);
    res, err := SendRecords(state, brokers, pending, fates);
    done' := DoneAfter(frozen, done, parts, seqs, fates);
    SentAll(pending, fates, parts, seqs, brokers.parts, state.sequences, res);
    CallStep(frozen, start, startSeqs, done, wasAcked, was, parts, seqs, brokers.parts, state.sequences, fates, res);
    forall j | 0 <= j < |origIdx|
      ensures res[j] == if KeyOf(frozen[origIdx[j]]) in done' then OffsetOf(frozen, start, origIdx[j]) else NoResult
    {
      ResultsStep(frozen, start, startSeqs, done, wasAcked, was, parts, seqs, brokers.parts, state.sequences, fates, res, j);
    }
    ErrorIff(frozen, start, startSeqs, done, wasAcked, was, parts, seqs, fates);
    UnackedDistinct(wasAcked, |wasAcked|);
    MergeAcked(results, acked, origIdx, res);
    UnackedIsAll(wasAcked);
    MergeStep(frozen, start, done, done', origIdx, res, wasAcked, was, acked[..], results[..]);
  }

  /** An attempt fails only where its fate is a failure, and fatally only where its fate is fatal. */
  lemma NoWorseThanFates(frozen: seq<Record>, start: map<Key, Part>, startSeqs: map<Key, int>, done: set<Key>, acked: seq<bool>,
                         results: seq<RecordResult>, parts: map<Key, Part>, seqs: map<Key, int>, fates: Key -> Fate)
    requires CallInv(frozen, start, startSeqs, parts, seqs, done) && ResultsInv(frozen, start, done, acked, results)
    ensures var pending := Pick(frozen, Unacked(acked, |acked|));
            && ((forall k :: fates(k) == Delivered) ==> AllAcked(pending, fates, parts, seqs))
            && ((forall k :: !Fatal(fates(k))) ==> !SomeFatal(pending, seqs, fates, parts, Keys(pending, |pending|)))
  {
    hide IdsFor, Attempt, Positions, Unacked, Keys, KeyInv;
    var pending := Pick(frozen, Unacked(acked, |acked|));
    PendingKeys(frozen, start, done, acked, results);
    forall k | k in Keys(pending, |pending|)
      ensures var seen := Attempt(PartAt(parts, k), SeqAt(seqs, k), IdsFor(pending, k), fates(k)).1;
              seen.Failed? ==> fates(k) != Delivered && seen.fatal == fates(k).fatal
    {
      KeyHasIds(frozen, k);
      PendingIds(frozen, start, done, acked, results, k);
      FailsAsFated(PartAt(start, k), PartAt(parts, k), SeqAt(seqs, k), IdsFor(frozen, k), fates(k));
    }
  }

  lemma FailsAsFated(start: Part, p: Part, seq_: int, ids: seq<nat>, fate: Fate)
    requires KeyInv(start, p, seq_, false, ids) && |ids| >= 1
    ensures var seen := Attempt(p, seq_, ids, fate).1; seen.Failed? ==> fate != Delivered && seen.fatal == fate.fatal
  {
    AttemptKeeps(start, p, seq_, ids, fate);
  }

  lemma SomethingPending(pending: seq<Record>)
    ensures pending != [] ==> Keys(pending, |pending|) != {}
  {
    if pending != [] { assert KeyOf(pending[0]) in Keys(pending, |pending|); }
  }

  lemma ResultsShape(frozen: seq<Record>, start: map<Key, Part>, done: set<Key>, acked: seq<bool>, results: seq<RecordResult>)
    requires ResultsInv(frozen, start, done, acked, results)
    ensures |acked| == |results| == |frozen|
  {}

  lemma UnackedIsAll(acked: seq<bool>)
    ensures forall i :: 0 <= i < |acked| && !acked[i] ==> i in Unacked(acked, |acked|)
  {
    forall i: nat | i < |acked| && !acked[i] ensures i in Unacked(acked, |acked|) {
      UnackedComplete(acked, |acked|, i);
    }
  }

  lemma NonNegative(frozen: seq<Record>, start: map<Key, Part>, startSeqs: map<Key, int>, parts: map<Key, Part>,
                    seqs: map<Key, int>, done: set<Key>)
    requires CallInv(frozen, start, startSeqs, parts, seqs, done) && forall k :: SeqAt(startSeqs, k) >= 0
    ensures forall k :: SeqAt(seqs, k) >= 0
  {
    hide IdsFor, Keys;
  }

  lemma SentAll(pending: seq<Record>, fates: Key -> Fate, parts: map<Key, Part>, seqs: map<Key, int>,
                parts': map<Key, Part>, seqs': map<Key, int>, res: seq<RecordResult>)
    requires |res| == |pending|
    requires forall k :: k in Keys(pending, |pending|) ==>
               KeySent(pending, k, fates(k), PartAt(parts, k), SeqAt(seqs, k), PartAt(parts', k), SeqAt(seqs', k), res)
    requires forall k :: k !in Keys(pending, |pending|) ==>
               PartAt(parts', k) == PartAt(parts, k) && SeqAt(seqs', k) == SeqAt(seqs, k)
    ensures AllSent(pending, fates, parts, seqs, parts', seqs', res)
  {}

  /** An attempt without error leaves no partition to send. */
  lemma ErrorIff(frozen: seq<Record>, start: map<Key, Part>, startSeqs: map<Key, int>, done: set<Key>, acked: seq<bool>,
                 results: seq<RecordResult>, parts: map<Key, Part>, seqs: map<Key, int>, fates: Key -> Fate)
    requires CallInv(frozen, start, startSeqs, parts, seqs, done) && ResultsInv(frozen, start, done, acked, results)
    ensures AllAcked(Pick(frozen, Unacked(acked, |acked|)), fates, parts, seqs) <==>
              DoneAfter(frozen, done, parts, seqs, fates) == Keys(frozen, |frozen|)
    ensures done <= DoneAfter(frozen, done, parts, seqs, fates)
  {
    hide IdsFor, Attempt, Positions, Unacked, Keys, KeyInv;
    var pending := Pick(frozen, Unacked(acked, |acked|));
    PendingKeys(frozen, start, done, acked, results);
    forall k | k in Keys(frozen, |frozen|) - done ensures IdsFor(pending, k) == IdsFor(frozen, k) {
      PendingIds(frozen, start, done, acked, results, k);
    }
  }

  // ------------------------------------------------------------- what a call guarantees

  /** Logs only grow, and hold no record twice. */
  ghost predicate NoDuplicates(start: map<Key, Part>, parts: map<Key, Part>) {
    forall k :: PartAt(start, k).log <= PartAt(parts, k).log && Unique(PartAt(parts, k).log)
  }

  /** A reported record is in the partition it asked for, at the reported offset. */
  ghost predicate Reported(records: seq<Record>, parts: map<Key, Part>, results: seq<RecordResult>) {
    && |results| == |records|
    && forall i :: 0 <= i < |records| && results[i].Result? ==>
         var k, log := results[i].key, PartAt(parts, results[i].key).log;
         && k.topic == records[i].topic && (records[i].partition >= 0 ==> k.part == records[i].partition)
         && results[i].offset < |log| && log[results[i].offset] == records[i].id
  }

  /** Records of one partition are reported in input order. */
  ghost predicate InOrder(results: seq<RecordResult>) {
    forall i, j :: 0 <= i < j < |results| && results[i].Result? && results[j].Result? && results[i].key == results[j].key ==>
      results[i].offset < results[j].offset
  }

  /** No record is in two partitions. */
  ghost predicate OnePartition(records: seq<Record>, parts: map<Key, Part>) {
    forall i, k, l :: 0 <= i < |records| && records[i].id in PartAt(parts, k).log && records[i].id in PartAt(parts, l).log ==>
      k == l
  }

  /** What is new in a log are records of this call, of that topic. */
  ghost predicate OnlyTheseRecords(records: seq<Record>, start: map<Key, Part>, parts: map<Key, Part>) {
    forall k, t :: |PartAt(start, k).log| <= t < |PartAt(parts, k).log| ==>
      OfThisCall(records, k, PartAt(parts, k).log[t])
  }

  ghost predicate OfThisCall(records: seq<Record>, k: Key, id: nat) {
    exists i :: 0 <= i < |records| && records[i].id == id && records[i].topic == k.topic
  }

  /** Client and brokers agree on the next sequence of every partition. */
  ghost predicate AllInStep(parts: map<Key, Part>, seqs: map<Key, int>) {
    forall k :: InStep(PartAt(parts, k), SeqAt(seqs, k))
  }

  ghost predicate NewRecords(records: seq<Record>, parts: map<Key, Part>) {
    && (forall i, j :: 0 <= i < j < |records| ==> records[i].id != records[j].id)
    && (forall i, k :: 0 <= i < |records| ==> records[i].id !in PartAt(parts, k).log)
    && forall k :: Unique(PartAt(parts, k).log)
  }

  lemma IdsUnique(records: seq<Record>, frozen: seq<Record>, parts: map<Key, Part>, k: Key)
    requires FrozenFrom(records, frozen) && NewRecords(records, parts)
    ensures Unique(IdsFor(frozen, k)) && Fresh(PartAt(parts, k).log, IdsFor(frozen, k))
  {
    hide Positions;
    PositionsDistinct(frozen, k, |frozen|);
  }

  /** The log of partition k after the call. */
  lemma KeyOutcome(records: seq<Record>, frozen: seq<Record>, start: map<Key, Part>, startSeqs: map<Key, int>,
                   parts: map<Key, Part>, seqs: map<Key, int>, done: set<Key>, k: Key)
    requires FrozenFrom(records, frozen) && NewRecords(records, start)
    requires CallInv(frozen, start, startSeqs, parts, seqs, done)
    ensures Unique(PartAt(parts, k).log)
    ensures || PartAt(parts, k).log == PartAt(start, k).log
            || PartAt(parts, k).log == PartAt(start, k).log + IdsFor(frozen, k)
    ensures k in done ==> PartAt(parts, k).log == PartAt(start, k).log + IdsFor(frozen, k)
  {
    hide IdsFor, FrozenFrom;
    IdsUnique(records, frozen, start, k);
    if k in Keys(frozen, |frozen|) {
      ExactlyOnce(PartAt(start, k), PartAt(parts, k), SeqAt(seqs, k), k in done, IdsFor(frozen, k));
    }
  }

  /** A record is in no other log than its partition's. */
  lemma OwnLogOnly(records: seq<Record>, frozen: seq<Record>, start: map<Key, Part>, startSeqs: map<Key, int>,
                   parts: map<Key, Part>, seqs: map<Key, int>, done: set<Key>, i: nat, k: Key)
    requires FrozenFrom(records, frozen) && NewRecords(records, start)
    requires CallInv(frozen, start, startSeqs, parts, seqs, done)
    requires i < |records| && records[i].id in PartAt(parts, k).log
    ensures KeyOf(frozen[i]) == k
  {
    hide Positions, CallInv;
    KeyOutcome(records, frozen, start, startSeqs, parts, seqs, done, k);
    var ids := IdsFor(frozen, k);
    assert records[i].id in ids;
    var t :| 0 <= t < |ids| && ids[t] == records[i].id;
    var j := Positions(frozen, k, |frozen|)[t];
    assert records[j].id == records[i].id;
  }

  lemma ReportedAt(records: seq<Record>, frozen: seq<Record>, start: map<Key, Part>, startSeqs: map<Key, int>,
                   parts: map<Key, Part>, seqs: map<Key, int>, done: set<Key>, i: nat)
    requires FrozenFrom(records, frozen) && NewRecords(records, start)
    requires CallInv(frozen, start, startSeqs, parts, seqs, done)
    requires i < |records| && KeyOf(frozen[i]) in done
    ensures var r := OffsetOf(frozen, start, i);
            r.offset < |PartAt(parts, r.key).log| && PartAt(parts, r.key).log[r.offset] == records[i].id
  {
    hide Positions, CallInv;
    KeyOutcome(records, frozen, start, startSeqs, parts, seqs, done, KeyOf(frozen[i]));
    PositionAt(frozen, i, |frozen|);
  }

  lemma {:induction false} RankMonotone(rs: seq<Record>, i: nat, j: nat)
    requires i < j < |rs| && KeyOf(rs[i]) == KeyOf(rs[j])
    ensures Rank(rs, i) < Rank(rs, j)
  {
    PositionAt(rs, i, j);
  }

  lemma NewIsOfCall(records: seq<Record>, frozen: seq<Record>, k: Key, t: nat)
    requires FrozenFrom(records, frozen) && t < |IdsFor(frozen, k)|
    ensures OfThisCall(records, k, IdsFor(frozen, k)[t])
  {
    hide Positions;
    var i := Positions(frozen, k, |frozen|)[t];
    assert records[i].id == IdsFor(frozen, k)[t];
  }

  /** The invariant of the retry loop gives the guarantees of the call. */
  lemma CallOutcome(records: seq<Record>, frozen: seq<Record>, start: map<Key, Part>, startSeqs: map<Key, int>,
                    parts: map<Key, Part>, seqs: map<Key, int>, done: set<Key>, acked: seq<bool>, results: seq<RecordResult>)
    requires FrozenFrom(records, frozen) && NewRecords(records, start)
    requires CallInv(frozen, start, startSeqs, parts, seqs, done) && ResultsInv(frozen, start, done, acked, results)
    ensures NoDuplicates(start, parts) && OnePartition(records, parts)
    ensures Reported(records, parts, results) && InOrder(results)
    ensures OnlyTheseRecords(records, start, parts)
  {
    hide CallInv, Positions, IdsFor, NewRecords, Rank, OfThisCall;
    forall k, t | |PartAt(start, k).log| <= t < |PartAt(parts, k).log|
      ensures OfThisCall(records, k, PartAt(parts, k).log[t])
    {
      KeyOutcome(records, frozen, start, startSeqs, parts, seqs, done, k);
      NewIsOfCall(records, frozen, k, t - |PartAt(start, k).log|);
    }
    forall k ensures PartAt(start, k).log <= PartAt(parts, k).log && Unique(PartAt(parts, k).log) {
      KeyOutcome(records, frozen, start, startSeqs, parts, seqs, done, k);
    }
    forall i: nat, k | i < |records| && records[i].id in PartAt(parts, k).log ensures KeyOf(frozen[i]) == k {
      OwnLogOnly(records, frozen, start, startSeqs, parts, seqs, done, i, k);
    }
    forall i: nat | i < |records| && KeyOf(frozen[i]) in done
      ensures var r := OffsetOf(frozen, start, i);
              r.offset < |PartAt(parts, r.key).log| && PartAt(parts, r.key).log[r.offset] == records[i].id
    {
      ReportedAt(records, frozen, start, startSeqs, parts, seqs, done, i);
    }
    forall i: nat, j: nat | i < j < |frozen| && KeyOf(frozen[i]) == KeyOf(frozen[j]) ensures Rank(frozen, i) < Rank(frozen, j) {
      RankMonotone(frozen, i, j);
    }
  }

  /** Every partition whose log the call has extended is acknowledged. */
  ghost predicate NoneUnnoticed(start: map<Key, Part>, parts: map<Key, Part>, results: seq<RecordResult>) {
    forall k :: PartAt(parts, k).log == PartAt(start, k).log || Named(results, k)
  }

  ghost predicate Named(results: seq<RecordResult>, k: Key) {
    exists i :: 0 <= i < |results| && results[i].Result? && results[i].key == k
  }

  /** One partition is in step unless its batch was appended without an acknowledgement. */
  lemma StepOf(start: Part, p: Part, seq_: int, acked: bool, ids: seq<nat>)
    requires KeyInv(start, p, seq_, acked, ids) && |ids| >= 1
    ensures InStep(p, seq_) <==> p.log == start.log || acked
  {
    assert |start.log + ids| > |start.log|;
  }

  lemma DoneIsNamed(frozen: seq<Record>, start: map<Key, Part>, done: set<Key>, acked: seq<bool>,
                    results: seq<RecordResult>, k: Key)
    requires ResultsInv(frozen, start, done, acked, results) && done <= Keys(frozen, |frozen|)
    ensures Named(results, k) <==> k in done
  {
    if k in done {
      var i :| 0 <= i < |frozen| && KeyOf(frozen[i]) == k;
      assert results[i] == OffsetOf(frozen, start, i);
    }
  }

  /** Whatever becomes of the call, it leaves the client in step unless a batch went through unnoticed. */
  lemma StepAfter(frozen: seq<Record>, start: map<Key, Part>, startSeqs: map<Key, int>, parts: map<Key, Part>,
                  seqs: map<Key, int>, done: set<Key>, acked: seq<bool>, results: seq<RecordResult>)
    requires CallInv(frozen, start, startSeqs, parts, seqs, done) && ResultsInv(frozen, start, done, acked, results)
    requires AllInStep(start, startSeqs)
    ensures AllInStep(parts, seqs) <==> NoneUnnoticed(start, parts, results)
  {
    hide IdsFor, ResultsInv, KeyInv, InStep, Named;
    forall k
      ensures InStep(PartAt(parts, k), SeqAt(seqs, k)) <==> PartAt(parts, k).log == PartAt(start, k).log || Named(results, k)
    {
      DoneIsNamed(frozen, start, done, acked, results, k);
      if k in Keys(frozen, |frozen|) {
        KeyHasIds(frozen, k);
        StepOf(PartAt(start, k), PartAt(parts, k), SeqAt(seqs, k), k in done, IdsFor(frozen, k));
      }
    }
  }

  /** Acknowledged everywhere: every record reported, every partition in step. */
  lemma AllDone(frozen: seq<Record>, start: map<Key, Part>, startSeqs: map<Key, int>, parts: map<Key, Part>,
                seqs: map<Key, int>, done: set<Key>, acked: seq<bool>, results: seq<RecordResult>)
    requires CallInv(frozen, start, startSeqs, parts, seqs, done) && ResultsInv(frozen, start, done, acked, results)
    ensures done == Keys(frozen, |frozen|) <==> forall i :: 0 <= i < |results| ==> results[i].Result?
    ensures done == Keys(frozen, |frozen|) && AllInStep(start, startSeqs) ==> AllInStep(parts, seqs)
  {
    hide IdsFor;
    forall k | k in Keys(frozen, |frozen|) ensures |IdsFor(frozen, k)| >= 1 { KeyHasIds(frozen, k); }
    if !(Keys(frozen, |frozen|) <= done) {
      var k :| k in Keys(frozen, |frozen|) && k !in done;
      var i :| 0 <= i < |frozen| && KeyOf(frozen[i]) == k;
      assert results[i] == NoResult;
    }
  }

  lemma NothingDone(frozen: seq<Record>, parts: map<Key, Part>, seqs: map<Key, int>, acked: seq<bool>,
                    results: seq<RecordResult>)
    requires AllInStep(parts, seqs) && |acked| == |results| == |frozen|
    requires forall i :: 0 <= i < |frozen| ==> !acked[i] && results[i] == NoResult
    ensures CallInv(frozen, parts, seqs, parts, seqs, {}) && ResultsInv(frozen, parts, {}, acked, results)
  {
    hide IdsFor;
  }

  // ------------------------------------------------------------- the call

  /** At least one attempt is made. */
  function Attempts(maxAttempts: int): nat { if maxAttempts < 1 then 1 else maxAttempts }

  datatype CallResult = Success | GaveUp(fatal: bool) | Cancelled

  /** The state of the retry loop: nothing sent before the partitions are frozen. */
  ghost predicate LoopInv(records: seq<Record>, isFrozen: bool, frozen: seq<Record>, start: map<Key, Part>,
                          startSeqs: map<Key, int>, parts: map<Key, Part>, seqs: map<Key, int>, done: set<Key>,
                          acked: seq<bool>, results: seq<RecordResult>) {
    && |acked| == |results| == |records|
    && (if isFrozen then
          && FrozenFrom(records, frozen)
          && CallInv(frozen, start, startSeqs, parts, seqs, done) && ResultsInv(frozen, start, done, acked, results)
        else
          && parts == start && seqs == startSeqs
          && forall i :: 0 <= i < |records| ==> !acked[i] && results[i] == NoResult)
  }

  /** What holds whenever the call returns. */
  lemma LoopOutcome(records: seq<Record>, isFrozen: bool, frozen: seq<Record>, start: map<Key, Part>,
                    startSeqs: map<Key, int>, parts: map<Key, Part>, seqs: map<Key, int>, done: set<Key>,
                    acked: seq<bool>, results: seq<RecordResult>)
    requires LoopInv(records, isFrozen, frozen, start, startSeqs, parts, seqs, done, acked, results)
    requires NewRecords(records, start) && AllInStep(start, startSeqs) && records != []
    ensures NoDuplicates(start, parts) && OnePartition(records, parts)
    ensures Reported(records, parts, results) && InOrder(results) && OnlyTheseRecords(records, start, parts)
    ensures isFrozen && done == Keys(frozen, |frozen|) <==> forall i :: 0 <= i < |results| ==> results[i].Result?
    ensures isFrozen && done == Keys(frozen, |frozen|) ==> AllInStep(parts, seqs)
    ensures AllInStep(parts, seqs) <==> NoneUnnoticed(start, parts, results)
  {
    hide CallInv, ResultsInv, AllInStep, FrozenFrom, Keys, Named;
    if isFrozen {
      CallOutcome(records, frozen, start, startSeqs, parts, seqs, done, acked, results);
      AllDone(frozen, start, startSeqs, parts, seqs, done, acked, results);
      StepAfter(frozen, start, startSeqs, parts, seqs, done, acked, results);
    } else {
      assert !results[0].Result?;
    }
  }

  /**
   `ProduceSyncResult`: for every script of outside events, no record is
   duplicated, every reported record is where it is said to be, and success
   means that every record is reported and every partition in step.
   */
  method ProduceSync(state: SequenceState, brokers: Brokers, records: seq<Record>, env: nat -> Env, maxAttempts: int)
    returns (results: seq<RecordResult>, status: CallResult)
    requires AllInStep(brokers.parts, state.sequences) && NewRecords(records, brokers.parts)
    modifies state, brokers
    ensures NoDuplicates(old(brokers.parts), brokers.parts) && OnePartition(records, brokers.parts)
    ensures Reported(records, brokers.parts, results) && InOrder(results)
    ensures status == Success <==> forall i :: 0 <= i < |results| ==> results[i].Result?
    ensures status == Success ==> AllInStep(brokers.parts, state.sequences)
    ensures AllInStep(brokers.parts, state.sequences) <==> NoneUnnoticed(old(brokers.parts), brokers.parts, results)
    ensures OnlyTheseRecords(records, old(brokers.parts), brokers.parts)
    ensures forall n: nat :: n < Attempts(maxAttempts) && Benign(env(n)) && (forall m: nat :: m < n ==> Calm(env(m))) ==>
              status == Success
  {
    hide CallInv, ResultsInv, FrozenFrom, Keys, NoDuplicates, OnePartition, Reported, InOrder, LoopInv, NewRecords,
      OnlyTheseRecords, Calm, Benign, NoneUnnoticed;
    if records == [] {
      EmptyCall(brokers.parts);
      return [], Success;
    }
    ghost var start, startSeqs := brokers.parts, state.sequences;
    var out := new RecordResult[|records|](_ => NoResult);
    var acked := new bool[|records|](_ => false);
    var limit := Attempts(maxAttempts);
    var isFrozen, frozen := false, [];
    ghost var done: set<Key> := {};
    StartLoop(records, start, startSeqs, acked[..], out[..]);
    status := GaveUp(false);
    var attempt: nat := 0;
    while attempt < limit && status == GaveUp(false)
      invariant LoopInv(records, isFrozen, frozen, start, startSeqs, brokers.parts, state.sequences, done, acked[..], out[..])
      invariant status == Success <==> isFrozen && done == Keys(frozen, |frozen|)
      invariant (forall m: nat :: m < attempt ==> Calm(env(m))) ==> status == Success || status == GaveUp(false)
      invariant forall n: nat :: n < attempt && Benign(env(n)) && (forall m: nat :: m < n ==> Calm(env(m))) ==> status == Success
      decreases limit - attempt, status == GaveUp(false)
    {
      isFrozen, frozen, done, status := TryOnce(state, brokers, records, out, acked, env(attempt), isFrozen, frozen, start,
                                                startSeqs, done);
      CalmWaits(env(attempt));
      if status == GaveUp(false) && attempt < limit - 1 && env(attempt).cancelledWaiting { status := Cancelled; }
      attempt := attempt + 1;
    }
    results := out[..];
    LoopOutcome(records, isFrozen, frozen, start, startSeqs, brokers.parts, state.sequences, done, acked[..], results);
  }

  lemma CalmWaits(e: Env)
    ensures Calm(e) ==> !e.cancelledWaiting
  {}

  lemma EmptyCall(parts: map<Key, Part>)
    requires NewRecords([], parts)
    ensures NoDuplicates(parts, parts) && OnePartition([], parts) && Reported([], parts, []) && InOrder([])
    ensures OnlyTheseRecords([], parts, parts) && NoneUnnoticed(parts, parts, [])
  {}

  lemma StartLoop(records: seq<Record>, start: map<Key, Part>, startSeqs: map<Key, int>, acked: seq<bool>,
                  results: seq<RecordResult>)
    requires |acked| == |results| == |records|
    requires forall i :: 0 <= i < |records| ==> !acked[i] && results[i] == NoResult
    ensures LoopInv(records, false, [], start, startSeqs, start, startSeqs, {}, acked, results)
  {}

  /** The body of the retry loop: refresh, freeze once, send what is pending. */
  method TryOnce(state: SequenceState, brokers: Brokers, records: seq<Record>, out: array<RecordResult>, acked: array<bool>,
                 env: Env, isFrozen: bool, frozen: seq<Record>, ghost start: map<Key, Part>, ghost startSeqs: map<Key, int>,
                 ghost done: set<Key>)
    returns (isFrozen': bool, frozen': seq<Record>, ghost done': set<Key>, status: CallResult)
    requires LoopInv(records, isFrozen, frozen, start, startSeqs, brokers.parts, state.sequences, done, acked[..], out[..])
    requires AllInStep(start, startSeqs)
    requires !(isFrozen && done == Keys(frozen, |frozen|))
    modifies state, brokers, out, acked
    ensures LoopInv(records, isFrozen', frozen', start, startSeqs, brokers.parts, state.sequences, done', acked[..], out[..])
    ensures status == Success <==> isFrozen' && done' == Keys(frozen', |frozen'|)
    ensures isFrozen ==> isFrozen' && frozen' == frozen && done <= done'
    ensures Benign(env) ==> status == Success
    ensures Calm(env) ==> status == Success || status == GaveUp(false)
  {
    hide CallInv, ResultsInv, FrozenFrom, Keys;
    isFrozen', frozen', done' := isFrozen, frozen, done;
    if env.cancelled { return isFrozen, frozen, done, Cancelled; }
    if env.refresh != NoError { return isFrozen, frozen, done, GaveUp(env.refresh.fatal); }
    var err;
    if !isFrozen {
      frozen', err := FreezePartitions(records, env.choose);
      if err != NoError { return isFrozen, frozen, done, GaveUp(err.fatal); }
      isFrozen', done' := true, {};
      FrozenShape(records, frozen');
      NothingDone(frozen', start, startSeqs, acked[..], out[..]);
    }
    err, done' := SendPending(state, brokers, frozen', out, acked, env, start, startSeqs, done');
    ResultsShape(frozen', start, done', acked[..], out[..]);
    status := if err == NoError then Success else GaveUp(err.fatal);
  }

  lemma FrozenShape(records: seq<Record>, frozen: seq<Record>)
    requires FrozenFrom(records, frozen)
    ensures |frozen| == |records|
  {}
}
