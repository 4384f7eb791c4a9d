/**
 The read_committed filter of the fetch path: one pass over the batches of a
 response, against a definition of "aborted" on the partition's whole log.
 */
module ReadCommitted {
  import opened Wrappers
  import opened ByteStream
  import opened BigEndian
  import opened RecordPayload
  import opened RecordBatch

  /** One entry of the response's list of aborted transactions. */
  datatype AbortedTxn = AbortedTxn(pid: int, first: int)

  // ------------------------------------------------------------- the streaming filter

  /** The producers of the entries from ai up to the first one that starts after base. */
  function Activated(aborted: seq<AbortedTxn>, ai: nat, base: int): set<int>
    requires ai <= |aborted|
    decreases |aborted| - ai
  {
    if ai < |aborted| && aborted[ai].first <= base then {aborted[ai].pid} + Activated(aborted, ai + 1, base) else {}
  }

  function Reached(aborted: seq<AbortedTxn>, ai: nat, base: int): (r: nat)
    requires ai <= |aborted|
    ensures ai <= r <= |aborted|
    ensures forall a :: ai <= a < r ==> aborted[a].first <= base
    ensures r < |aborted| ==> aborted[r].first > base
    decreases |aborted| - ai
  {
    if ai < |aborted| && aborted[ai].first <= base then Reached(aborted, ai + 1, base) else ai
  }

  lemma {:induction false} ActivatedIs(aborted: seq<AbortedTxn>, ai: nat, base: int)
    requires ai <= |aborted|
    ensures forall p :: p in Activated(aborted, ai, base) <==>
              exists a :: ai <= a < Reached(aborted, ai, base) && aborted[a].pid == p
    decreases |aborted| - ai
  {
    if ai < |aborted| && aborted[ai].first <= base { ActivatedIs(aborted, ai + 1, base); }
  }

  /** What one batch contributes, given the producers whose transactions are being dropped. */
  function Emit(b: Batch, dropping: set<int>): seq<Entry> {
    if b.control || (b.transactional && b.pid in dropping) then [Marker(b.last)] else b.records
  }

  function Stream(bs: seq<Batch>, aborted: seq<AbortedTxn>, dropping: set<int>, ai: nat): seq<Entry>
    requires ai <= |aborted|
  {
    if bs == [] then []
    else
      var now := dropping + Activated(aborted, ai, bs[0].base);
      Emit(bs[0], now)
      + Stream(bs[1..], aborted, if bs[0].control then now - {bs[0].pid} else now, Reached(aborted, ai, bs[0].base))
  }

  // ------------------------------------------------------------- the log-level definition

  /** Batches in offset order, without overlap. */
  ghost predicate IsLog(log: seq<Batch>) {
    && (forall i :: 0 <= i < |log| ==> log[i].base <= log[i].last)
    && forall i, j :: 0 <= i < j < |log| ==> log[i].last < log[j].base
  }

  predicate Ends(log: seq<Batch>, j: int, pid: int) { 0 <= j < |log| && log[j].control && log[j].pid == pid }

  /** Control batch m ends the transaction that batch i belongs to. */
  ghost predicate EndOf(log: seq<Batch>, i: int, m: int)
    requires 0 <= i < |log|
  {
    i < m && Ends(log, m, log[i].pid) && forall j :: i < j < m ==> !Ends(log, j, log[i].pid)
  }

  /** Batch i is data of a transaction that an abort marker ends; `aborts` are the places of the abort markers. */
  ghost predicate IsAborted(log: seq<Batch>, aborts: set<nat>, i: int)
    requires 0 <= i < |log|
  {
    !log[i].control && log[i].transactional && exists m :: m in aborts && EndOf(log, i, m)
  }

  /** What a committed reader may see of the batches from s to e. */
  ghost function Visible(log: seq<Batch>, aborts: set<nat>, s: nat, e: nat): seq<Entry>
    requires s <= e <= |log|
    decreases e - s
  {
    if s == e then []
    else (if log[s].control || IsAborted(log, aborts, s) then [Marker(log[s].last)] else log[s].records)
         + Visible(log, aborts, s + 1, e)
  }

  // ------------------------------------------------------------- the broker's list

  /**
   Entry a stands for the transaction that abort marker m ends: it starts after
   any earlier marker of that producer and no later than its own data.
   */
  ghost predicate Describes(log: seq<Batch>, aborts: set<nat>, a: AbortedTxn, m: int) {
    && m in aborts && Ends(log, m, a.pid) && a.first <= log[m].base
    && (forall j :: 0 <= j < m && Ends(log, j, a.pid) ==> log[j].last < a.first)
    && forall i :: 0 <= i < m && log[i].pid == a.pid && log[i].transactional && EndOf(log, i, m) ==> a.first <= log[i].base
  }

  /**
   The list is sorted, none of its transactions ends before batch s, and it holds
   every aborted transaction with data among the batches from s to e.
   */
  ghost predicate IsAbortedList(log: seq<Batch>, aborts: set<nat>, s: nat, e: nat, aborted: seq<AbortedTxn>) {
    && (forall a, b :: 0 <= a < b < |aborted| ==> aborted[a].first <= aborted[b].first)
    && (forall a :: 0 <= a < |aborted| ==> Listed(log, aborts, s, aborted[a]))
    && forall i, m :: s <= i < e <= |log| && !log[i].control && log[i].transactional && m in aborts && EndOf(log, i, m) ==>
         InList(log, aborts, aborted, m)
  }

  ghost predicate Listed(log: seq<Batch>, aborts: set<nat>, s: nat, a: AbortedTxn) {
    exists m :: m >= s && Describes(log, aborts, a, m)
  }

  ghost predicate InList(log: seq<Batch>, aborts: set<nat>, aborted: seq<AbortedTxn>, m: int) {
    exists a :: 0 <= a < |aborted| && Describes(log, aborts, aborted[a], m)
  }

  // ------------------------------------------------------------- refinement

  /** Entry a stands for a transaction still open just before batch i. */
  ghost predicate StillOpen(log: seq<Batch>, aborts: set<nat>, a: AbortedTxn, i: int) {
    exists m :: m >= i && Describes(log, aborts, a, m)
  }

  /** The filter is dropping exactly the producers of reached entries whose transaction is open. */
  ghost predicate Tracks(log: seq<Batch>, aborts: set<nat>, aborted: seq<AbortedTxn>, i: nat, ai: nat, dropping: set<int>)
    requires ai <= |aborted|
  {
    forall p :: p in dropping <==> exists a :: 0 <= a < ai && aborted[a].pid == p && StillOpen(log, aborts, aborted[a], i)
  }

  /** An entry first reached at batch i is of a transaction still open there. */
  lemma ReachedIsOpen(log: seq<Batch>, aborts: set<nat>, aborted: seq<AbortedTxn>, s: nat, e: nat, i: nat, a: nat)
    requires IsLog(log) && IsAbortedList(log, aborts, s, e, aborted) && a < |aborted| && s <= i < |log|
    requires i == s || aborted[a].first > log[i - 1].base
    ensures StillOpen(log, aborts, aborted[a], i)
  {
    assert Listed(log, aborts, s, aborted[a]);
    var m :| m >= s && Describes(log, aborts, aborted[a], m);
  }

  /** A producer being dropped at batch i has an open aborted transaction there, which is that of the batch. */
  lemma DroppedIsAborted(log: seq<Batch>, aborts: set<nat>, a: AbortedTxn, i: nat)
    requires IsLog(log) && i < |log| && StillOpen(log, aborts, a, i) && a.pid == log[i].pid && a.first <= log[i].base
    requires !log[i].control && log[i].transactional
    ensures IsAborted(log, aborts, i)
  {
    var m :| m >= i && Describes(log, aborts, a, m);
    assert EndOf(log, i, m);
  }

  /** Batch i is dropped exactly when its transaction is aborted. */
  lemma DropsAborted(log: seq<Batch>, aborts: set<nat>, aborted: seq<AbortedTxn>, s: nat, e: nat, i: nat, ai: nat,
                     dropping: set<int>)
    requires IsLog(log) && IsAbortedList(log, aborts, s, e, aborted) && s <= i < e <= |log| && ai <= |aborted|
    requires Tracks(log, aborts, aborted, i, ai, dropping)
    requires forall a :: 0 <= a < |aborted| ==> (a < ai <==> aborted[a].first <= log[i].base)
    requires !log[i].control && log[i].transactional
    ensures log[i].pid in dropping <==> IsAborted(log, aborts, i)
  {
    hide IsLog, StillOpen, IsAborted, Listed, InList, Describes;
    if log[i].pid in dropping {
      var a :| 0 <= a < ai && aborted[a].pid == log[i].pid && StillOpen(log, aborts, aborted[a], i);
      DroppedIsAborted(log, aborts, aborted[a], i);
    }
    if IsAborted(log, aborts, i) {
      var a := AbortedIsListed(log, aborts, aborted, s, e, i);
    }
  }

  /** An aborted transaction with data at batch i is listed, starts no later than the batch and is open there. */
  lemma AbortedIsListed(log: seq<Batch>, aborts: set<nat>, aborted: seq<AbortedTxn>, s: nat, e: nat, i: nat) returns (a: nat)
    requires s <= i < e <= |log| && IsAbortedList(log, aborts, s, e, aborted) && IsAborted(log, aborts, i)
    ensures a < |aborted| && aborted[a].pid == log[i].pid && aborted[a].first <= log[i].base
    ensures StillOpen(log, aborts, aborted[a], i)
  {
    var m :| m in aborts && EndOf(log, i, m);
    assert InList(log, aborts, aborted, m);
    a :| 0 <= a < |aborted| && Describes(log, aborts, aborted[a], m);
  }

  /** The entries reached are those that start no later than the batches read so far. */
  ghost predicate ReachedSoFar(log: seq<Batch>, aborted: seq<AbortedTxn>, s: nat, i: nat, ai: nat)
    requires i <= |log|
  {
    ai <= |aborted| && forall a :: 0 <= a < |aborted| ==> (a < ai <==> i > s && aborted[a].first <= log[i - 1].base)
  }

  lemma Activates(log: seq<Batch>, aborts: set<nat>, aborted: seq<AbortedTxn>, s: nat, e: nat, i: nat, ai: nat,
                  dropping: set<int>)
    requires IsLog(log) && IsAbortedList(log, aborts, s, e, aborted) && s <= i < |log|
    requires ReachedSoFar(log, aborted, s, i, ai) && Tracks(log, aborts, aborted, i, ai, dropping)
    ensures var ai' := Reached(aborted, ai, log[i].base);
            && ReachedSoFar(log, aborted, s, i + 1, ai')
            && Tracks(log, aborts, aborted, i, ai', dropping + Activated(aborted, ai, log[i].base))
  {
    hide StillOpen, Listed, InList, Describes;
    var ai' := Reached(aborted, ai, log[i].base);
    ActivatedIs(aborted, ai, log[i].base);
    forall a | ai <= a < ai' ensures StillOpen(log, aborts, aborted[a], i) {
      ReachedIsOpen(log, aborts, aborted, s, e, i, a);
    }
  }

  /** After batch i, a reached entry is open unless batch i ended its transaction. */
  lemma OpenAfter(log: seq<Batch>, aborts: set<nat>, a: AbortedTxn, i: nat)
    requires IsLog(log) && i < |log| && a.first <= log[i].base
    ensures StillOpen(log, aborts, a, i + 1) <==> StillOpen(log, aborts, a, i) && !Ends(log, i, a.pid)
  {
    if StillOpen(log, aborts, a, i) && !Ends(log, i, a.pid) {
      var m :| m >= i && Describes(log, aborts, a, m);
      assert m >= i + 1;
    }
    if StillOpen(log, aborts, a, i + 1) {
      var m :| m >= i + 1 && Describes(log, aborts, a, m);
      assert m >= i;
    }
  }

  lemma Handles(log: seq<Batch>, aborts: set<nat>, aborted: seq<AbortedTxn>, s: nat, i: nat, ai: nat, dropping: set<int>)
    requires IsLog(log) && s <= i < |log|
    requires ReachedSoFar(log, aborted, s, i + 1, ai) && Tracks(log, aborts, aborted, i, ai, dropping)
    ensures Tracks(log, aborts, aborted, i + 1, ai, if log[i].control then dropping - {log[i].pid} else dropping)
  {
    hide StillOpen;
    forall a | 0 <= a < ai
      ensures StillOpen(log, aborts, aborted[a], i + 1) <==> StillOpen(log, aborts, aborted[a], i) && !Ends(log, i, aborted[a].pid)
    {
      OpenAfter(log, aborts, aborted[a], i);
    }
  }

  lemma {:induction false} StreamIsVisible(log: seq<Batch>, aborts: set<nat>, aborted: seq<AbortedTxn>, s: nat, i: nat, e: nat,
                                           ai: nat, dropping: set<int>)
    requires IsLog(log) && IsAbortedList(log, aborts, s, e, aborted) && s <= i <= e <= |log|
    requires ReachedSoFar(log, aborted, s, i, ai) && Tracks(log, aborts, aborted, i, ai, dropping)
    ensures Stream(log[i..e], aborted, dropping, ai) == Visible(log, aborts, i, e)
    decreases e - i
  {
    hide Tracks, ReachedSoFar, IsAborted, IsAbortedList, IsLog, Activated, Reached, Stream, Visible, Emit;
    ReachedBound(log, aborted, s, i, ai);
    if i == e {
      NothingShown(log, aborts, aborted, i, ai, dropping);
    } else {
      var now, ai' := dropping + Activated(aborted, ai, log[i].base), Reached(aborted, ai, log[i].base);
      Activates(log, aborts, aborted, s, e, i, ai, dropping);
      Handles(log, aborts, aborted, s, i, ai', now);
      ReachedHere(log, aborted, s, i, ai');
      if !log[i].control && log[i].transactional { DropsAborted(log, aborts, aborted, s, e, i, ai', now); }
      NotTransactional(log, aborts, i);
      StreamIsVisible(log, aborts, aborted, s, i + 1, e, ai', if log[i].control then now - {log[i].pid} else now);
      ShownOne(log, aborts, aborted, i, e, ai, dropping);
    }
  }

  lemma {:induction false} NothingShown(log: seq<Batch>, aborts: set<nat>, aborted: seq<AbortedTxn>, i: nat, ai: nat,
                                        dropping: set<int>)
    requires i <= |log| && ai <= |aborted|
    ensures Stream(log[i..i], aborted, dropping, ai) == [] == Visible(log, aborts, i, i)
  {}

  /** Both sides, one batch on. */
  lemma {:induction false} ShownOne(log: seq<Batch>, aborts: set<nat>, aborted: seq<AbortedTxn>, i: nat, e: nat, ai: nat,
                                    dropping: set<int>)
    requires i < e <= |log| && ai <= |aborted|
    requires !log[i].control && log[i].transactional ==>
               (log[i].pid in dropping + Activated(aborted, ai, log[i].base) <==> IsAborted(log, aborts, i))
    requires IsAborted(log, aborts, i) ==> log[i].transactional
    ensures var now := dropping + Activated(aborted, ai, log[i].base);
            var shown := Emit(log[i], now);
            && Stream(log[i..e], aborted, dropping, ai) == shown +
               Stream(log[i + 1..e], aborted, if log[i].control then now - {log[i].pid} else now, Reached(aborted, ai, log[i].base))
            && Visible(log, aborts, i, e) == shown + Visible(log, aborts, i + 1, e)
  {
    hide IsAborted, Activated, Reached;
    assert log[i..e][1..] == log[i + 1..e];
  }

  lemma ReachedBound(log: seq<Batch>, aborted: seq<AbortedTxn>, s: nat, i: nat, ai: nat)
    requires i <= |log| && ReachedSoFar(log, aborted, s, i, ai)
    ensures ai <= |aborted|
  {}

  lemma ReachedHere(log: seq<Batch>, aborted: seq<AbortedTxn>, s: nat, i: nat, ai: nat)
    requires s <= i < |log| && ReachedSoFar(log, aborted, s, i + 1, ai)
    ensures ai <= |aborted| && forall a :: 0 <= a < |aborted| ==> (a < ai <==> aborted[a].first <= log[i].base)
  {}

  lemma NotTransactional(log: seq<Batch>, aborts: set<nat>, i: nat)
    requires i < |log|
    ensures IsAborted(log, aborts, i) ==> !log[i].control && log[i].transactional
  {}

  /**
   For every log, every response from batch s to e and every list that fits it,
   the filter shows exactly what a committed reader may see.
   */
  lemma FilterExact(log: seq<Batch>, aborts: set<nat>, aborted: seq<AbortedTxn>, s: nat, e: nat)
    requires IsLog(log) && s <= e <= |log| && IsAbortedList(log, aborts, s, e, aborted)
    ensures Stream(log[s..e], aborted, {}, 0) == Visible(log, aborts, s, e)
  {
    StreamIsVisible(log, aborts, aborted, s, s, e, 0, {});
  }

  // ------------------------------------------------------------- the loop over the bytes of a response

  /** The length of the batch at the front of the data, or 0 when it is not all there. */
  function FrameLen(data: seq<byte>): (n: nat)
    ensures n > 0 ==> 12 <= n <= |data|
  {
    if |data| < 12 then 0
    else
      var n := 12 + BE(data[8..12]);
      if n > |data| then 0 else n
  }

  /** The batches at the front of the data. */
  function Batches(data: seq<byte>, env: Env): Result<seq<Batch>> {
    var n := FrameLen(data);
    if n == 0 then Ok([])
    else
      match DecodeOne(env, data[..n])
      case Bad => Err
      case Skipped => Batches(data[n..], env)
      case Info(b) =>
        match Batches(data[n..], env)
        case Err => Err
        case Ok(bs) => Ok([b] + bs)
  }

  /** The filter's state after the batches bs. */
  ghost predicate After(bs: seq<Batch>, aborted: seq<AbortedTxn>, out: seq<Entry>, dropping: set<int>, ai: nat) {
    && ai <= |aborted|
    && forall rest :: Stream(bs + rest, aborted, {}, 0) == out + Stream(rest, aborted, dropping, ai)
  }

  lemma AfterOne(bs: seq<Batch>, b: Batch, aborted: seq<AbortedTxn>, out: seq<Entry>, dropping: set<int>, ai: nat)
    requires After(bs, aborted, out, dropping, ai)
    ensures var now := dropping + Activated(aborted, ai, b.base);
            After(bs + [b], aborted, out + Emit(b, now), if b.control then now - {b.pid} else now, Reached(aborted, ai, b.base))
  {
    hide Emit, Activated, Reached;
    var now := dropping + Activated(aborted, ai, b.base);
    var next, ai' := if b.control then now - {b.pid} else now, Reached(aborted, ai, b.base);
    forall rest
      ensures Stream(bs + [b] + rest, aborted, {}, 0) == out + Emit(b, now) + Stream(rest, aborted, next, ai')
    {
      assert bs + [b] + rest == bs + ([b] + rest);
      assert ([b] + rest)[1..] == rest;
    }
  }

  /** Moves ai past the entries that start no later than base. */
  method Activate(aborted: seq<AbortedTxn>, start: nat, base: int, was: set<int>) returns (dropping: set<int>, ai: nat)
    requires start <= |aborted|
    ensures dropping == was + Activated(aborted, start, base) && ai == Reached(aborted, start, base)
  {
    dropping, ai := was, start;
    while ai < |aborted| && aborted[ai].first <= base
      invariant start <= ai <= |aborted|
      invariant was + Activated(aborted, start, base) == dropping + Activated(aborted, ai, base)
      invariant Reached(aborted, start, base) == Reached(aborted, ai, base)
    {
      dropping := dropping + {aborted[ai].pid};
      ai := ai + 1;
    }
  }

  /** `decodeRecordBatch`: cut the data into batches and filter them in one pass. */
  method DecodeRecordBatch(data: seq<byte>, aborted: seq<AbortedTxn>, env: Env)
    returns (r: Result<seq<Entry>>)
    ensures match Batches(data, env)
            case Err => r == Err
            case Ok(bs) => r == Ok(Stream(bs, aborted, {}, 0))
  {
    hide Stream, Activated, Reached, After, Batches, Emit, Continues, DecodeOne, FrameLen;
    var left, out, dropping, ai: nat := data, [], {}, 0;
    ghost var seen: seq<Batch> := [];
    AfterNone(aborted);
    StartOfData(data, env);
    while FrameLen(left) > 0
      invariant After(seen, aborted, out, dropping, ai) && ai <= |aborted|
      invariant Continues(data, env, seen, left)
      decreases |left|
    {
      var n := FrameLen(left);
      var d := DecodeOneRecordBatch(env, left[..n]);
      NextBatch(data, env, seen, left);
      if d == Bad { return Err; }
      left := left[n..];
      if d == Skipped { continue; }
      var b := d.batch;
      AfterOne(seen, b, aborted, out, dropping, ai);
      dropping, ai := Activate(aborted, ai, b.base, dropping);
      out := out + Emit(b, dropping);
      if b.control { dropping := dropping - {b.pid}; }
      seen := seen + [b];
    }
    AfterAll(seen, aborted, out, dropping, ai);
    EndOfData(data, env, seen, left);
    r := Ok(out);
  }

  /** The batches of data are those already seen and those of what is left. */
  ghost predicate Continues(data: seq<byte>, env: Env, seen: seq<Batch>, left: seq<byte>) {
    match Batches(left, env)
    case Err => Batches(data, env) == Err
    case Ok(bs) => Batches(data, env) == Ok(seen + bs)
  }

  lemma StartOfData(data: seq<byte>, env: Env)
    ensures Continues(data, env, [], data)
  {
    match Batches(data, env)
    case Err =>
    case Ok(bs) => assert [] + bs == bs;
  }

  lemma NextBatch(data: seq<byte>, env: Env, seen: seq<Batch>, left: seq<byte>)
    requires Continues(data, env, seen, left) && FrameLen(left) > 0
    ensures var n := FrameLen(left);
            match DecodeOne(env, left[..n])
            case Bad => Batches(data, env) == Err
            case Skipped => Continues(data, env, seen, left[n..])
            case Info(b) => Continues(data, env, seen + [b], left[n..])
  {
    var n := FrameLen(left);
    match DecodeOne(env, left[..n])
    case Bad =>
    case Skipped =>
    case Info(b) =>
      if Batches(left[n..], env).Ok? {
        var bs := Batches(left[n..], env).value;
        assert seen + [b] + bs == seen + ([b] + bs);
      }
  }

  lemma EndOfData(data: seq<byte>, env: Env, seen: seq<Batch>, left: seq<byte>)
    requires Continues(data, env, seen, left) && FrameLen(left) == 0
    ensures Batches(data, env) == Ok(seen)
  {
    assert seen + [] == seen;
  }

  lemma AfterNone(aborted: seq<AbortedTxn>)
    ensures After([], aborted, [], {}, 0)
  {
    forall rest ensures Stream([] + rest, aborted, {}, 0) == [] + Stream(rest, aborted, {}, 0) {
      assert [] + rest == rest;
    }
  }

  lemma AfterAll(bs: seq<Batch>, aborted: seq<AbortedTxn>, out: seq<Entry>, dropping: set<int>, ai: nat)
    requires After(bs, aborted, out, dropping, ai)
    ensures Stream(bs, aborted, {}, 0) == out
  {
    assert bs + [] == bs;
    assert Stream([], aborted, dropping, ai) == [];
  }

  // ------------------------------------------------------------- a response that holds whole batches

  /** The batches log[s..], one frame each. */
  ghost predicate Framed(frames: seq<seq<byte>>, env: Env, bs: seq<Batch>) {
    && |frames| == |bs|
    && forall i :: 0 <= i < |bs| ==> FrameLen(frames[i]) == |frames[i]| > 0 && DecodeOne(env, frames[i]) == Info(bs[i])
  }

  /** A frame is cut out whatever follows it. */
  lemma FrameFront(frame: seq<byte>, rest: seq<byte>)
    requires FrameLen(frame) == |frame| > 0
    ensures FrameLen(frame + rest) == |frame| && (frame + rest)[..|frame|] == frame && (frame + rest)[|frame|..] == rest
  {
    assert (frame + rest)[8..12] == frame[8..12];
  }

  /** Whole batches are all found; a truncated one at the end is left for the next fetch. */
  lemma {:induction false} BatchesFramed(frames: seq<seq<byte>>, tail: seq<byte>, env: Env, bs: seq<Batch>)
    requires Framed(frames, env, bs) && FrameLen(tail) == 0
    ensures Batches(Joined(frames) + tail, env) == Ok(bs)
  {
    hide FrameLen, DecodeOne, Batches, Joined;
    if frames == [] {
      NothingJoined();
      assert Joined(frames) + tail == tail;
      assert bs == [];
      NoBatches(tail, env);
    } else {
      var rest := Joined(frames[1..]) + tail;
      JoinedFirst(frames);
      Regroup(frames[0], Joined(frames[1..]), tail);
      BatchesFramed(frames[1..], tail, env, bs[1..]);
      FirstBatch(frames[0], rest, env, bs[0], bs[1..]);
      assert bs == [bs[0]] + bs[1..];
    }
  }

  lemma {:induction false} NoBatches(tail: seq<byte>, env: Env)
    requires FrameLen(tail) == 0
    ensures Batches(tail, env) == Ok([])
  {}

  lemma {:induction false} FirstBatch(frame: seq<byte>, rest: seq<byte>, env: Env, b: Batch, bs: seq<Batch>)
    requires FrameLen(frame) == |frame| > 0 && DecodeOne(env, frame) == Info(b) && Batches(rest, env) == Ok(bs)
    ensures Batches(frame + rest, env) == Ok([b] + bs)
  {
    hide FrameLen, DecodeOne;
    FrameFront(frame, rest);
  }

  /**
   The bytes of the batches from s to e of a log, with a truncated batch behind
   them, env to exactly what a committed reader may see.
   */
  lemma SegmentExact(log: seq<Batch>, aborts: set<nat>, aborted: seq<AbortedTxn>, s: nat, e: nat,
                     frames: seq<seq<byte>>, tail: seq<byte>, env: Env)
    requires IsLog(log) && s <= e <= |log| && IsAbortedList(log, aborts, s, e, aborted)
    requires Framed(frames, env, log[s..e]) && FrameLen(tail) == 0
    ensures match Batches(Joined(frames) + tail, env)
            case Err => false
            case Ok(bs) => Stream(bs, aborted, {}, 0) == Visible(log, aborts, s, e)
  {
    hide Stream, Batches;
    BatchesFramed(frames, tail, env, log[s..e]);
    FilterExact(log, aborts, aborted, s, e);
  }

  // ------------------------------------------------------------- undecided transactions

  lemma {:induction false} VisibleSplit(log: seq<Batch>, aborts: set<nat>, s: nat, i: nat, e: nat)
    requires s <= i <= e <= |log|
    ensures Visible(log, aborts, s, e) == Visible(log, aborts, s, i) + Visible(log, aborts, i, e)
    decreases i - s
  {
    if s < i { VisibleSplit(log, aborts, s + 1, i, e); }
  }

  /**
   A transaction that no marker has ended yet is shown: the filter waits for no
   decision, and relies on the broker to send none but decided transactions.
   */
  lemma {:induction false} UndecidedShown(log: seq<Batch>, aborts: set<nat>, aborted: seq<AbortedTxn>, s: nat, e: nat, i: nat)
    requires IsLog(log) && s <= i < e <= |log| && IsAbortedList(log, aborts, s, e, aborted)
    requires !log[i].control && forall m :: !EndOf(log, i, m)
    ensures Stream(log[s..e], aborted, {}, 0) ==
            Visible(log, aborts, s, i) + log[i].records + Visible(log, aborts, i + 1, e)
  {
    hide Stream, IsAbortedList, IsLog;
    FilterExact(log, aborts, aborted, s, e);
    VisibleSplit(log, aborts, s, i, e);
    assert Visible(log, aborts, i, e) == log[i].records + Visible(log, aborts, i + 1, e);
  }

  /** One open transaction, an empty list: its record reaches a committed reader. */
  lemma {:induction false} OpenTransactionShown(r: Fetched)
    ensures var log := [Batch(0, 0, 7, false, true, [Data(r)])];
            && IsLog(log) && IsAbortedList(log, {}, 0, 1, []) && (forall m :: !EndOf(log, 0, m))
            && Stream(log, [], {}, 0) == [Data(r)]
  {
    var log := [Batch(0, 0, 7, false, true, [Data(r)])];
    assert Stream(log[1..], [], {}, 0) == [];
    assert log[0] == Batch(0, 0, 7, false, true, [Data(r)]);
  }
}
