/** A list of records on its way through the produce path, the broker and the fetch path. */
module ProducedBatch {
  import opened Wrappers
  import opened ByteStream
  import opened BigEndian
  import opened Wire
  import opened RecordPayload
  import opened RecordCodec
  import opened RecordBatch

  /** Without idempotence the producer's identity and sequence are sent as -1. */
  datatype Settings = Settings(transactional: bool, codec: int, idempotent: bool, pid: int, epoch: int)

  /** Readings of the clock: for the batch's first time, for its latest time, and for the records. */
  datatype Clock = Clock(first: int, ticks: seq<int>, now: int)

  // ------------------------------------------------------------- what is printed

  /** The bytes of the records and the codec they are in: compressed only if that is shorter. */
  function Stored(env: Env, s: Settings, payload: seq<byte>): Result<(int, seq<byte>)> {
    if s.codec == 0 then Ok((0, payload))
    else
      match env.compress(s.codec, payload)
      case Err => Err
      case Ok(c) => Ok(if |c| < |payload| then (s.codec, c) else (0, payload))
  }

  /** The latest of the first i times and of a time before them. */
  function Latest(rs: seq<Record>, ticks: seq<int>, first: int, i: nat): (m: int)
    requires i <= |rs| <= |ticks|
  {
    if i == 0 then first
    else
      var m := Latest(rs, ticks, first, i - 1);
      var t := TimeOf(rs[i - 1], ticks[i - 1]);
      if t > m then t else m
  }

  function Payload(rs: seq<Record>, now: int): seq<byte>
    requires rs != []
  {
    PrintFrom(rs, 0, now, TimeOf(rs[0], now))
  }

  function PreambleOf(rs: seq<Record>, s: Settings, sequence: int, c: Clock, codec: int): Preamble
    requires 0 < |rs| <= |c.ticks|
  {
    var first := TimeOf(rs[0], c.first);
    Preamble(0, -1, (if s.transactional then 16 else 0) + codec, AsInt(|rs| - 1, 4), first, Latest(rs, c.ticks, first, |rs|),
             if s.idempotent then s.pid else -1, if s.idempotent then s.epoch else -1,
             if s.idempotent then sequence else -1, AsInt(|rs|, 4))
  }

  function PrintRecords(env: Env, rs: seq<Record>, s: Settings, sequence: int, c: Clock): Result<seq<byte>>
    requires |rs| <= |c.ticks|
  {
    if rs == [] then Err
    else
      match Stored(env, s, Payload(rs, c.now))
      case Err => Err
      case Ok((codec, bytes)) => Ok(PrintBatch(env, PreambleOf(rs, s, sequence, c, codec), bytes))
  }

  /** `encodeRecordBatch`: the batch with its length and checksum left open, then filled in. */
  method EncodeRecordBatch(env: Env, rs: seq<Record>, s: Settings, sequence: int, c: Clock) returns (r: Result<seq<byte>>)
    requires |rs| <= |c.ticks|
    ensures r == PrintRecords(env, rs, s, sequence, c)
  {
    hide PutInt, PrintFrom, TimeOf, AsInt, Checked;
    if rs == [] { return Err; }
    var first := TimeOf(rs[0], c.first);
    var latest := first;
    for i: nat := 0 to |rs|
      invariant latest == Latest(rs, c.ticks, first, i)
    {
      var t := TimeOf(rs[i], c.ticks[i]);
      if t > latest { latest := t; }
    }
    var payload, total := EncodeRecordsPayload(rs, c.now);
    var stored := Stored(env, s, payload);
    if stored.Err? { return Err; }
    var (codec, bytes) := stored.value;
    var p := PreambleOf(rs, s, sequence, c, codec);
    var buf := new Buffer([]);
    buf.WriteInt64(p.base);
    buf.WriteInt32(0);
    buf.WriteInt32(p.leaderEpoch);
    buf.WriteInt8(2);
    buf.WriteInt32(0);
    ghost var front := buf.B;
    WriteFields(buf, p);
    buf.Append(bytes);
    assert buf.B == front + (Fields(p) + bytes);
    Filled(env, front, p, bytes);
    var body := buf.B;
    body := body[..8] + PutInt(|body| - 12, 4) + body[12..];
    body := body[..17] + PutInt(env.crc(body[21..]), 4) + body[21..];
    r := Ok(body);
  }

  method WriteFields(buf: Buffer, p: Preamble)
    modifies buf
    ensures buf.B == old(buf.B) + Fields(p) && buf.I == old(buf.I)
  {
    hide PutInt;
    buf.WriteInt16(p.attributes);
    buf.WriteInt32(p.lastDelta);
    buf.WriteInt64(p.firstTime);
    buf.WriteInt64(p.maxTime);
    buf.WriteInt64(p.pid);
    buf.WriteInt16(p.epoch);
    buf.WriteInt32(p.sequence);
    buf.WriteInt32(p.count);
    assert buf.B == old(buf.B) + Fields(p);
  }

  /** Filling in the length and then the checksum of the rest gives the printed batch. */
  lemma {:induction false} Filled(env: Env, front: seq<byte>, p: Preamble, payload: seq<byte>)
    requires front == PutInt(p.base, 8) + PutInt(0, 4) + PutInt(p.leaderEpoch, 4) + [2] + PutInt(0, 4)
    ensures var body := front + (Fields(p) + payload);
            var sized := body[..8] + PutInt(|body| - 12, 4) + body[12..];
            && |body| == 61 + |payload| && |sized| == |body|
            && sized[..17] + PutInt(env.crc(sized[21..]), 4) + sized[21..] == PrintBatch(env, p, payload)
  {
    hide PutInt, Fields;
    var covered := Fields(p) + payload;
    var body := front + covered;
    var sized := body[..8] + PutInt(|body| - 12, 4) + body[12..];
    assert body[..8] == PutInt(p.base, 8);
    assert body[12..] == PutInt(p.leaderEpoch, 4) + [2] + PutInt(0, 4) + covered;
    assert sized == PutInt(p.base, 8) + PutInt(49 + |payload|, 4) + PutInt(p.leaderEpoch, 4) + [2] + PutInt(0, 4) + covered;
    assert sized[21..] == covered;
    assert sized[..17] == PutInt(p.base, 8) + PutInt(49 + |payload|, 4) + PutInt(p.leaderEpoch, 4) + [2];
  }

  /** The batch's latest time is the time of its first record or of a later one, and none is later. */
  lemma {:induction false} LatestIs(rs: seq<Record>, ticks: seq<int>, first: int, i: nat)
    requires i <= |rs| <= |ticks|
    ensures var m := Latest(rs, ticks, first, i);
            && m >= first && (forall j :: 0 <= j < i ==> TimeOf(rs[j], ticks[j]) <= m)
            && (m == first || exists j :: 0 <= j < i && TimeOf(rs[j], ticks[j]) == m)
  {
    if i > 0 { LatestIs(rs, ticks, first, i - 1); }
  }

  // ------------------------------------------------------------- the round trip

  /** The codec gives back what it was given, and its number is one of those a batch can carry. */
  ghost predicate CodecWorks(env: Env, s: Settings, payload: seq<byte>) {
    s.codec != 0 && env.compress(s.codec, payload).Ok? ==>
      0 < s.codec < 8 && env.decompress(s.codec, env.compress(s.codec, payload).value) == Ok(payload)
  }

  /** How far the times of a batch are moved: two readings of the clock, if its first record has no time. */
  function Drift(rs: seq<Record>, c: Clock): int
    requires rs != []
  {
    TimeOf(rs[0], c.first) - TimeOf(rs[0], c.now)
  }

  /** The batch a consumer finds at base: every record, in order, with consecutive offsets. */
  function Arrived(rs: seq<Record>, s: Settings, c: Clock, base: int): Batch
    requires rs != []
  {
    Batch(base, base + |rs| - 1, if s.idempotent then s.pid else -1, false, s.transactional,
          Entries(Expected(rs, 0, c.now, base, Drift(rs, c))))
  }

  lemma {:induction false} Attributes(transactional: bool, codec: int)
    requires 0 <= codec < 8
    ensures var a := (if transactional then 16 else 0) + codec;
            !Bit(a, 32) && Bit(a, 16) == transactional && a % 8 == codec && FitsInt(a, 2)
  {
    assert Base(2) == 65536;
  }

  lemma {:induction false} Few(rs: seq<Record>, now: int, first: int)
    requires rs != [] && AllFit(rs, 0, now, first)
    ensures AsInt(|rs| - 1, 4) == |rs| - 1
  {
    hide AsInt;
    assert Fits(rs[|rs| - 1], |rs| - 1, TimeOf(rs[|rs| - 1], now) - first);
    assert Base(4) == 0x1_0000_0000;
    AsIntIff(|rs| - 1, 4);
  }

  /** The bytes of the records, unpacked again. */
  lemma {:induction false} UnpackStored(env: Env, s: Settings, payload: seq<byte>)
    requires CodecWorks(env, s, payload) && Stored(env, s, payload).Ok?
    ensures var (codec, bytes) := Stored(env, s, payload).value;
            0 <= codec < 8 && Unpacked(env, codec, bytes) == Ok(payload)
  {}

  /**
   For every list of records, all settings and clock readings, and whatever base
   offset and epoch the broker stamps on the batch: the consumer gets the records
   back exactly when each of their numbers fits 29 bits, an error if one does not,
   and nothing if the records take fewer than four bytes.
   */
  lemma {:induction false} ProducedRoundTrip(env: Env, rs: seq<Record>, s: Settings, sequence: int, c: Clock,
                                             base: int, leaderEpoch: int)
    requires 0 < |rs| <= |c.ticks| && FitsInt(TimeOf(rs[0], c.first), 8) && FitsInt(s.pid, 8) && FitsInt(base, 8)
    requires CodecWorks(env, s, Payload(rs, c.now)) && PrintRecords(env, rs, s, sequence, c).Ok?
    ensures var (codec, bytes) := Stored(env, s, Payload(rs, c.now)).value;
            DecodeOne(env, Stamped(PrintRecords(env, rs, s, sequence, c).value, base, leaderEpoch)) ==
            if |bytes| < 4 then Skipped
            else if AllFit(rs, 0, c.now, TimeOf(rs[0], c.now)) then Info(Arrived(rs, s, c, base)) else Bad
  {
    hide PrintFrom, ParseFrom, AllFit, TimeOf, PrintBatch, Stamped, DecodeOne, FitsInt, AsInt, Expected, Entries, Unpacked,
      Stored, Bit;
    var payload := Payload(rs, c.now);
    var (codec, bytes) := Stored(env, s, payload).value;
    var p := PreambleOf(rs, s, sequence, c, codec);
    var q := p.(base := base, leaderEpoch := leaderEpoch);
    UnpackStored(env, s, payload);
    Attributes(s.transactional, codec);
    AsIntIff(|rs| - 1, 4);
    MinusOne();
    StampedIs(env, p, bytes, base, leaderEpoch);
    BatchRoundTrip(env, q, bytes);
    PayloadRoundTrip(rs, c.now, base, p.firstTime);
    if AllFit(rs, 0, c.now, TimeOf(rs[0], c.now)) { Few(rs, c.now, TimeOf(rs[0], c.now)); }
  }

  lemma {:induction false} MinusOne()
    ensures FitsInt(-1, 8)
  {
    assert Base(8) == 0x1_0000_0000_0000_0000;
  }

  /**
   Every time that was set on a record arrives as it was set if and only if the
   first record has one, or none has, or the clock did not move in between.
   */
  lemma {:induction false} TimesArriveIff(rs: seq<Record>, s: Settings, c: Clock, base: int)
    requires rs != []
    ensures |Arrived(rs, s, c, base).records| == |rs|
    ensures (forall j :: 0 <= j < |rs| && rs[j].time.Some? ==>
               Arrived(rs, s, c, base).records[j].record.time == rs[j].time.value)
            <==> (rs[0].time.Some? || c.first == c.now || forall j :: 0 <= j < |rs| ==> rs[j].time.None?)
  {
    hide Expected;
    ExpectedLength(rs, 0, c.now, base, Drift(rs, c));
    forall j | 0 <= j < |rs|
      ensures Arrived(rs, s, c, base).records[j] ==
              Data(Fetched(base + j, TimeOf(rs[j], c.now) + Drift(rs, c), rs[j].key, rs[j].value, rs[j].headers))
    {
      ExpectedAt(rs, 0, c.now, base, Drift(rs, c), j);
    }
  }

  /** A record without a time before one with the time 1000, the clock read at 5 and then at 7: it arrives as 998. */
  lemma {:induction false} TimeMoved(s: Settings, base: int)
    ensures var rs := [Record([], [], [], None), Record([], [], [], Some(1000))];
            var records := Arrived(rs, s, Clock(5, [5, 5], 7), base).records;
            |records| == 2 && records[1] == Data(Fetched(base + 1, 998, [], [], []))
  {
    var rs := [Record([], [], [], None), Record([], [], [], Some(1000))];
    ExpectedLength(rs, 0, 7, base, -2);
    ExpectedAt(rs, 0, 7, base, -2, 1);
  }

  /** Records that are not compressed are never skipped. */
  lemma {:induction false} PayloadLong(rs: seq<Record>, now: int)
    requires rs != []
    ensures |Payload(rs, now)| >= 7
  {
    hide Varint;
    PrintStep(rs, 0, now, TimeOf(rs[0], now));
  }
}
