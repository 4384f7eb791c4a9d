/** From the records of producers to the records of a committed reader, through the bytes of a log. */
module CommittedBytes {
  import opened Wrappers
  import opened ByteStream
  import opened BigEndian
  import opened RecordPayload
  import opened RecordBatch
  import opened ProducedBatch
  import opened ReadCommitted

  /** What a log holds: batches of producers, stamped by the broker, and the broker's own control batches. */
  datatype Source =
    | Produced(rs: seq<Record>, settings: Settings, sequence: int, clock: Clock, base: int, leaderEpoch: int)
    | Control(preamble: Preamble, body: seq<byte>)

  const MAX_BODY := 0x1_0000_0000 - 49

  /** Batches that can be written, are neither too short nor too long to be found, and whose numbers fit. */
  ghost predicate Readable(env: Env, s: Source) {
    match s
    case Produced(rs, settings, sequence, c, base, leaderEpoch) =>
      && 0 < |rs| <= |c.ticks| && FitsInt(TimeOf(rs[0], c.first), 8) && FitsInt(settings.pid, 8) && FitsInt(base, 8)
      && CodecWorks(env, settings, Payload(rs, c.now)) && Stored(env, settings, Payload(rs, c.now)).Ok?
      && 4 <= |Stored(env, settings, Payload(rs, c.now)).value.1| < MAX_BODY
      && AllFit(rs, 0, c.now, TimeOf(rs[0], c.now))
    case Control(p, body) => Sized(p) && Bit(p.attributes, 32) && 4 <= |body| < MAX_BODY
  }

  function BytesOf(env: Env, s: Source): (b: seq<byte>)
    requires Readable(env, s)
  {
    match s
    case Produced(rs, settings, sequence, c, base, leaderEpoch) =>
      Stamped(PrintRecords(env, rs, settings, sequence, c).value, base, leaderEpoch)
    case Control(p, body) => PrintBatch(env, p, body)
  }

  function BatchOf(env: Env, s: Source): Batch
    requires Readable(env, s)
  {
    match s
    case Produced(rs, settings, _, c, base, _) => Arrived(rs, settings, c, base)
    case Control(p, _) => Batch(p.base, p.base + p.lastDelta, p.pid, true, Bit(p.attributes, 16), [])
  }

  /** A batch is cut out whole if and only if its length fits the 32-bit length field. */
  lemma {:induction false} FrameIff(env: Env, p: Preamble, payload: seq<byte>)
    ensures FrameLen(PrintBatch(env, p, payload)) == |PrintBatch(env, p, payload)| <==> |payload| < MAX_BODY
  {
    hide PrintBatch, BE;
    LengthRead(env, p, payload);
  }

  /** The bytes of any readable batch are one frame and decode to it. */
  lemma {:induction false} FrameDecodes(env: Env, s: Source)
    requires Readable(env, s)
    ensures FrameLen(BytesOf(env, s)) == |BytesOf(env, s)| > 0
    ensures DecodeOne(env, BytesOf(env, s)) == Info(BatchOf(env, s))
  {
    hide PrintBatch, Stamped, DecodeOne, FrameLen, Arrived, AllFit, FitsInt, TimeOf, Sized, CodecWorks, Stored, Payload, Bit;
    match s
    case Produced(rs, settings, sequence, c, base, leaderEpoch) =>
      var (codec, bytes) := Stored(env, settings, Payload(rs, c.now)).value;
      var p := PreambleOf(rs, settings, sequence, c, codec);
      ProducedRoundTrip(env, rs, settings, sequence, c, base, leaderEpoch);
      StampedIs(env, p, bytes, base, leaderEpoch);
      FrameIff(env, p.(base := base, leaderEpoch := leaderEpoch), bytes);
    case Control(p, body) =>
      BatchRoundTrip(env, p, body);
      FrameIff(env, p, body);
  }

  ghost predicate AllReadable(env: Env, log: seq<Source>) { forall i :: 0 <= i < |log| ==> Readable(env, log[i]) }

  function AllBytes(env: Env, log: seq<Source>): (r: seq<seq<byte>>)
    requires AllReadable(env, log)
    ensures |r| == |log| && forall i :: 0 <= i < |r| ==> r[i] == BytesOf(env, log[i])
  {
    seq(|log|, i requires 0 <= i < |log| => BytesOf(env, log[i]))
  }

  function AllBatches(env: Env, log: seq<Source>): (r: seq<Batch>)
    requires AllReadable(env, log)
    ensures |r| == |log| && forall i :: 0 <= i < |r| ==> r[i] == BatchOf(env, log[i])
  {
    seq(|log|, i requires 0 <= i < |log| => BatchOf(env, log[i]))
  }

  /**
   For every log of producers' batches and markers and every list of aborted
   transactions that fits it: the bytes from batch s to batch e, with a truncated
   batch behind them, decode to the producers' own records, except those of aborted
   transactions, each with its offset, key, value and headers, in order.
   */
  lemma {:induction false} CommittedRecords(env: Env, log: seq<Source>, aborts: set<nat>, aborted: seq<AbortedTxn>,
                                            s: nat, e: nat, tail: seq<byte>)
    requires AllReadable(env, log) && s <= e <= |log| && FrameLen(tail) == 0
    requires var bs := AllBatches(env, log); IsLog(bs) && IsAbortedList(bs, aborts, s, e, aborted)
    ensures match Batches(Joined(AllBytes(env, log)[s..e]) + tail, env)
            case Err => false
            case Ok(bs) => Stream(bs, aborted, {}, 0) == Visible(AllBatches(env, log), aborts, s, e)
  {
    hide BytesOf, BatchOf, Readable, DecodeOne, FrameLen, Stream, Batches, Visible, IsLog, IsAbortedList;
    var frames, bs := AllBytes(env, log)[s..e], AllBatches(env, log);
    forall i | 0 <= i < e - s
      ensures FrameLen(frames[i]) == |frames[i]| > 0 && DecodeOne(env, frames[i]) == Info(bs[s..e][i])
    {
      FrameDecodes(env, log[s + i]);
    }
    SegmentExact(bs, aborts, aborted, s, e, frames, tail, env);
  }
}
