/**
 One partition as the idempotent producer sees it: the broker's log and
 sequence check, the client's sequence number, and what one send attempt does
 to both under every possible fate of the request and its reply.
 */
module ProduceBroker {

  /** The batch a broker appended last: base sequence, record count, base offset. */
  datatype Batch = NoBatch | Batch(base: int, count: nat, offset: nat)

  /** A partition: record identities in log order, the next expected sequence, the last batch. */
  datatype Part = Part(log: seq<nat>, expected: int, last: Batch)

  datatype Reply = Ack(offset: nat) | OutOfOrder

  /** The broker: a repeat of the last batch is acknowledged again but not appended. */
  function Handle(p: Part, base: int, ids: seq<nat>): (Part, Reply) {
    if p.last.Batch? && p.last.base == base && p.last.count == |ids| then (p, Ack(p.last.offset))
    else if base == p.expected then
      (Part(p.log + ids, p.expected + |ids|, Batch(base, |ids|, |p.log|)), Ack(|p.log|))
    else (p, OutOfOrder)
  }

  /** What becomes of one partition's batch in one attempt. */
  datatype Fate =
    | Delivered                   // handled, and the reply reaches the client
    | Rejected(fatal: bool)       // refused with an error code, nothing appended
    | RequestLost(fatal: bool)    // never handled
    | ReplyLost(fatal: bool)      // handled, but the client sees a failure

  datatype Seen = Acked(offset: nat) | Failed(fatal: bool)

  function Attempt(p: Part, base: int, ids: seq<nat>, fate: Fate): (Part, Seen) {
    match fate
    case Rejected(fatal) => (p, Failed(fatal))
    case RequestLost(fatal) => (p, Failed(fatal))
    case ReplyLost(fatal) => (Handle(p, base, ids).0, Failed(fatal))
    case Delivered =>
      var (p', reply) := Handle(p, base, ids);
      match reply
      case Ack(offset) => (p', Acked(offset))
      case OutOfOrder => (p', Failed(true))
  }

  // ------------------------------------------------------------- what every attempt keeps

  /** A broker partition and a client in step, with no batch that ends at the expected sequence being empty. */
  ghost predicate InStep(p: Part, seq_: int) {
    && seq_ == p.expected >= 0
    && (p.last.Batch? ==> p.last.count >= 1 && p.last.base + p.last.count == p.expected)
  }

  /** The batch has been appended to the starting log, exactly once. */
  ghost predicate Committed(start: Part, p: Part, ids: seq<nat>) {
    && p.log == start.log + ids
    && p.expected == start.expected + |ids|
    && p.last == Batch(start.expected, |ids|, |start.log|)
  }

  /**
   The three states one partition can be in between attempts: untouched,
   appended without the client knowing, appended and acknowledged.
   */
  ghost predicate KeyInv(start: Part, p: Part, seq_: int, acked: bool, ids: seq<nat>) {
    && InStep(start, start.expected)
    && (acked ==> Committed(start, p, ids) && seq_ == p.expected)
    && (!acked ==> seq_ == start.expected && (p == start || Committed(start, p, ids)))
  }

  /**
   One attempt keeps the invariant, whatever the fate: the client reserves its
   block, and takes the reservation back when it does not see an acknowledgement.
   */
  lemma AttemptKeeps(start: Part, p: Part, seq_: int, ids: seq<nat>, fate: Fate)
    requires KeyInv(start, p, seq_, false, ids) && |ids| >= 1
    ensures var (p', seen) := Attempt(p, seq_, ids, fate);
            match seen
            case Acked(offset) => offset == |start.log| && KeyInv(start, p', seq_ + |ids|, true, ids)
            case Failed(_) => fate != Delivered && KeyInv(start, p', seq_, false, ids)
  {}

  // ------------------------------------------------------------- what the invariant says about the log

  ghost predicate Unique(s: seq<nat>) { forall i, j :: 0 <= i < j < |s| ==> s[i] != s[j] }

  ghost predicate Fresh(log: seq<nat>, ids: seq<nat>) { forall i :: 0 <= i < |ids| ==> ids[i] !in log }

  /** No record is in the log twice, and an acknowledged one is where the client was told. */
  lemma ExactlyOnce(start: Part, p: Part, seq_: int, acked: bool, ids: seq<nat>)
    requires KeyInv(start, p, seq_, acked, ids)
    requires Unique(start.log) && Unique(ids) && Fresh(start.log, ids)
    ensures Unique(p.log) && start.log <= p.log
    ensures acked ==> |p.log| == |start.log| + |ids|
    ensures acked ==> forall t :: 0 <= t < |ids| ==> p.log[|start.log| + t] == ids[t]
  {
    if p != start {
      assert p.log == start.log + ids;
      forall i, j | 0 <= i < j < |p.log| ensures p.log[i] != p.log[j] {
        if i < |start.log| <= j { assert p.log[j] == ids[j - |start.log|]; }
      }
    }
  }

  // ------------------------------------------------------------- after a call that failed

  /** A delivered batch is appended and acknowledged exactly when client and broker are in step. */
  lemma AppendedIff(p: Part, seq_: int, ids: seq<nat>)
    requires InStep(p, p.expected) && |ids| >= 1
    ensures var (p', seen) := Attempt(p, seq_, ids, Delivered);
            (seen.Acked? && p'.log == p.log + ids) <==> seq_ == p.expected
  {
    var (p', seen) := Attempt(p, seq_, ids, Delivered);
    assert |p.log + ids| > |p.log|;
    if seq_ == p.expected { assert p'.log == p.log + ids; }
  }

  /**
   Sequences are rolled back even when the batch was appended and only its reply
   was lost, so the guarantee ends with the call: the next batch of the same
   length is acknowledged at the offsets of the old one and never appended.
   */
  lemma StaleSequence(start: Part, p: Part, ids: seq<nat>, next: seq<nat>)
    requires InStep(start, start.expected) && Committed(start, p, ids) && |next| == |ids| >= 1
    ensures KeyInv(start, p, start.expected, false, ids)
    ensures Attempt(p, start.expected, next, Delivered) == (p, Acked(|start.log|))
  {}
}
