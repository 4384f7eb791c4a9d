/**
 Record batches: the fixed preamble, the checksum over all that follows it, and
 the records, printed by the produce path and read by the fetch path.
 */
module RecordBatch {
  import opened Wrappers
  import opened ByteStream
  import opened BigEndian
  import opened Wire
  import opened RecordPayload
  import opened RecordCodec

  /** What a fetch hands on: a record, or a marker that only moves the cursor. */
  datatype Entry = Data(record: Fetched) | Marker(offset: int)

  datatype Batch = Batch(base: int, last: int, pid: int, control: bool, transactional: bool, records: seq<Entry>)

  /** What decoding one batch yields: an error, nothing (too short to be a batch), or a batch. */
  datatype Decoded = Bad | Skipped | Info(batch: Batch)

  /** The checksum and the codecs, which are code of other packages. */
  datatype Env = Env(crc: seq<byte> -> nat, compress: (int, seq<byte>) -> Result<seq<byte>>,
                     decompress: (int, seq<byte>) -> Result<seq<byte>>)

  datatype Preamble = Preamble(base: int, leaderEpoch: int, attributes: int, lastDelta: int, firstTime: int, maxTime: int,
                               pid: int, epoch: int, sequence: int, count: int)

  // ------------------------------------------------------------- layout

  /** The part the checksum covers, up to the records. */
  function Fields(p: Preamble): (s: seq<byte>)
    ensures |s| == 40
  {
    PutInt(p.attributes, 2) + (PutInt(p.lastDelta, 4) + (PutInt(p.firstTime, 8) + (PutInt(p.maxTime, 8)
    + (PutInt(p.pid, 8) + (PutInt(p.epoch, 2) + (PutInt(p.sequence, 4) + PutInt(p.count, 4)))))))
  }

  function Checked(env: Env, covered: seq<byte>): (s: seq<byte>)
    ensures |s| == |covered| + 4
  {
    PutInt(env.crc(covered), 4) + covered
  }

  function PrintBatch(env: Env, p: Preamble, payload: seq<byte>): (s: seq<byte>)
    ensures |s| == 61 + |payload|
  {
    PutInt(p.base, 8) + (PutInt(49 + |payload|, 4) + (PutInt(p.leaderEpoch, 4) + ([2] + Checked(env, Fields(p) + payload))))
  }

  // ------------------------------------------------------------- reading

  /** The n-byte integer at a place of a batch. */
  function Int(b: seq<byte>, i: nat, n: nat): int
    requires i + n <= |b|
  {
    GetInt(b[i..i + n])
  }

  function Entries(fs: seq<Fetched>): (r: seq<Entry>)
    ensures |r| == |fs| && forall i :: 0 <= i < |r| ==> r[i] == Data(fs[i])
  {
    seq(|fs|, i requires 0 <= i < |fs| => Data(fs[i]))
  }

  function Bit(attributes: int, place: nat): bool
    requires place > 0
  {
    attributes / place % 2 == 1
  }

  function Unpacked(env: Env, codec: int, payload: seq<byte>): Result<seq<byte>> {
    if codec == 0 then Ok(payload) else env.decompress(codec, payload)
  }

  /** The batch with the given fields and records. */
  function Contents(env: Env, base: int, attributes: int, lastDelta: int, firstTime: int, pid: int,
                    payload: seq<byte>): Decoded
  {
    var info := Batch(base, base + lastDelta, pid, Bit(attributes, 32), Bit(attributes, 16), []);
    if info.control then Info(info)
    else
      match Unpacked(env, attributes % 8, payload)
      case Err => Bad
      case Ok(bytes) =>
        match ParseFrom(bytes, 0, base, firstTime)
        case Err => Bad
        case Ok(fs) => Info(info.(records := Entries(fs)))
  }

  function DecodeOne(env: Env, b: seq<byte>): Decoded {
    if |b| < 65 then Skipped
    else if Int(b, 16, 1) != 2 then Bad
    else if AsInt(env.crc(b[21..]), 4) != Int(b, 17, 4) then Bad
    else Contents(env, Int(b, 0, 8), Int(b, 21, 2), Int(b, 23, 4), Int(b, 27, 8), Int(b, 43, 8), b[61..])
  }

  /** `decodeOneRecordBatch`: the fields read one after the other. */
  method DecodeOneRecordBatch(env: Env, batch: seq<byte>) returns (d: Decoded)
    ensures d == DecodeOne(env, batch)
  {
    hide GetInt, ParseFrom, Bit, Unpacked, AsInt, Entries;
    if |batch| < 65 { return Skipped; }
    var buf := new Buffer(batch);
    var base := buf.ReadInt64();
    var length := buf.ReadInt32();
    var leaderEpoch := buf.ReadInt32();
    var magic := buf.ReadInt8();
    if magic.value != 2 { return Bad; }
    var crc := buf.ReadInt32();
    if AsInt(env.crc(batch[21..]), 4) != crc.value { return Bad; }
    var attributes, lastDelta, firstTime, pid := ReadFields(buf);
    var control, transactional := Bit(attributes, 32), Bit(attributes, 16);
    var info := Batch(base.value, base.value + lastDelta, pid, control, transactional, []);
    if control { return Info(info); }
    var unpacked := Unpacked(env, attributes % 8, batch[buf.I..]);
    if unpacked.Err? { return Bad; }
    var records := ParseRecords(unpacked.value, base.value, firstTime);
    if records.Err? { return Bad; }
    d := Info(info.(records := Entries(records.value)));
  }

  /** The fields under the checksum; the latest time, epoch, sequence and count are not used. */
  method ReadFields(buf: Buffer) returns (attributes: int, lastDelta: int, firstTime: int, pid: int)
    requires buf.I == 21 && |buf.B| >= 61
    modifies buf
    ensures buf.B == old(buf.B) && buf.I == 61
    ensures attributes == Int(buf.B, 21, 2) && lastDelta == Int(buf.B, 23, 4)
    ensures firstTime == Int(buf.B, 27, 8) && pid == Int(buf.B, 43, 8)
  {
    hide GetInt;
    var a := buf.ReadInt16();
    var d := buf.ReadInt32();
    var f := buf.ReadInt64();
    var maxTime := buf.ReadInt64();
    var p := buf.ReadInt64();
    var epoch := buf.ReadInt16();
    var sequence := buf.ReadInt32();
    var count := buf.ReadInt32();
    attributes, lastDelta, firstTime, pid := a.value, d.value, f.value, p.value;
  }

  // ------------------------------------------------------------- round trip of the layout

  /** The numbers of the preamble that are read again are of the width they are written in. */
  ghost predicate Sized(p: Preamble) {
    && FitsInt(p.base, 8) && FitsInt(p.attributes, 2) && FitsInt(p.lastDelta, 4) && FitsInt(p.firstTime, 8)
    && FitsInt(p.pid, 8)
  }

  lemma {:induction false} IntRead(b: seq<byte>, i: nat, v: int, n: nat, rest: seq<byte>)
    requires At(b, i, PutInt(v, n) + rest) && n > 0
    ensures i + n <= |b| && Int(b, i, n) == AsInt(v, n) && (FitsInt(v, n) ==> Int(b, i, n) == v) && At(b, i + n, rest)
  {
    hide AsInt, PutInt, FitsInt, GetInt;
    AtSplit(b, i, PutInt(v, n), rest);
    IntRoundTrip(v, n);
    AsIntIff(v, n);
  }

  /** All the fields that the checksum covers, read back at their places. */
  lemma {:induction false} FieldsRead(b: seq<byte>, p: Preamble, payload: seq<byte>)
    requires At(b, 21, Fields(p) + payload) && |b| == 61 + |payload| && Sized(p)
    ensures Int(b, 21, 2) == p.attributes && Int(b, 23, 4) == p.lastDelta && Int(b, 27, 8) == p.firstTime
    ensures Int(b, 43, 8) == p.pid && b[61..] == payload
  {
    hide Fields, Sized, Int, PutInt, FitsInt;
    var tail := PutInt(p.pid, 8) + (PutInt(p.epoch, 2) + (PutInt(p.sequence, 4) + PutInt(p.count, 4)));
    FieldsSplit(p);
    AtSplit(b, 21, Fields(p), payload);
    assert b[61..61 + |payload|] == b[61..];
    var head := PutInt(p.maxTime, 8) + tail;
    IntRead(b, 21, p.attributes, 2, PutInt(p.lastDelta, 4) + (PutInt(p.firstTime, 8) + head));
    IntRead(b, 23, p.lastDelta, 4, PutInt(p.firstTime, 8) + head);
    IntRead(b, 27, p.firstTime, 8, head);
    IntRead(b, 35, p.maxTime, 8, tail);
    IntRead(b, 43, p.pid, 8, PutInt(p.epoch, 2) + (PutInt(p.sequence, 4) + PutInt(p.count, 4)));
    SizedAll(p);
  }

  lemma {:induction false} FieldsSplit(p: Preamble)
    ensures Fields(p) == PutInt(p.attributes, 2) + (PutInt(p.lastDelta, 4) + (PutInt(p.firstTime, 8) + (PutInt(p.maxTime, 8)
                         + (PutInt(p.pid, 8) + (PutInt(p.epoch, 2) + (PutInt(p.sequence, 4) + PutInt(p.count, 4)))))))
  {
    hide PutInt;
  }

  lemma {:induction false} SizedAll(p: Preamble)
    requires Sized(p)
    ensures FitsInt(p.base, 8) && FitsInt(p.attributes, 2) && FitsInt(p.lastDelta, 4) && FitsInt(p.firstTime, 8)
    ensures FitsInt(p.pid, 8)
  {}

  /** The front of the batch, and the checksum, which is always right. */
  lemma {:induction false} FrontRead(env: Env, p: Preamble, payload: seq<byte>)
    requires Sized(p)
    ensures var b := PrintBatch(env, p, payload);
            && Int(b, 0, 8) == p.base && Int(b, 16, 1) == 2
            && Int(b, 17, 4) == AsInt(env.crc(b[21..]), 4) && At(b, 21, Fields(p) + payload)
  {
    hide Fields, Int, PutInt, FitsInt, AsInt;
    var b, covered := PrintBatch(env, p, payload), Fields(p) + payload;
    var magic := [2] + Checked(env, covered);
    SizedAll(p);
    WholeAt(b);
    IntRead(b, 0, p.base, 8, PutInt(49 + |payload|, 4) + (PutInt(p.leaderEpoch, 4) + magic));
    IntRead(b, 8, 49 + |payload|, 4, PutInt(p.leaderEpoch, 4) + magic);
    IntRead(b, 12, p.leaderEpoch, 4, magic);
    AtSplit(b, 16, [2], Checked(env, covered));
    MagicRead(b);
    IntRead(b, 17, env.crc(covered), 4, covered);
    assert b[21..21 + |covered|] == b[21..];
  }

  /** The length field, read as the loop over a response reads it. */
  lemma {:induction false} LengthRead(env: Env, p: Preamble, payload: seq<byte>)
    ensures BE(PrintBatch(env, p, payload)[8..12]) == (49 + |payload|) % 0x1_0000_0000
  {
    hide PutBE, BE, Checked;
    var len := PutInt(49 + |payload|, 4);
    Slices(PutInt(p.base, 8), len, PutInt(p.leaderEpoch, 4), [2] + Checked(env, Fields(p) + payload));
    PutValue(Unsigned(49 + |payload|, 4), 4);
    assert Base(4) == 0x1_0000_0000;
  }

  lemma {:induction false} WholeAt(b: seq<byte>)
    ensures At(b, 0, b)
  {}

  lemma {:induction false} MagicRead(b: seq<byte>)
    requires At(b, 16, [2])
    ensures Int(b, 16, 1) == 2
  {
    assert b[16..17] == [2];
    assert BE([2]) == 2;
  }

  /**
   Whatever batch is printed, reading it gives its fields and its records; it is
   skipped exactly when its records take fewer than four bytes.
   */
  lemma {:induction false} BatchRoundTrip(env: Env, p: Preamble, payload: seq<byte>)
    requires Sized(p)
    ensures DecodeOne(env, PrintBatch(env, p, payload)) ==
            if |payload| < 4 then Skipped
            else Contents(env, p.base, p.attributes, p.lastDelta, p.firstTime, p.pid, payload)
  {
    hide PrintBatch, Contents, Int, Sized, Fields, AsInt;
    FrontRead(env, p, payload);
    FieldsRead(PrintBatch(env, p, payload), p, payload);
  }

  /** What the broker writes into a batch when it appends it to the log: neither field is under the checksum. */
  function Stamped(b: seq<byte>, base: int, leaderEpoch: int): seq<byte>
    requires |b| >= 16
  {
    PutInt(base, 8) + b[8..12] + PutInt(leaderEpoch, 4) + b[16..]
  }

  lemma {:induction false} StampedIs(env: Env, p: Preamble, payload: seq<byte>, base: int, leaderEpoch: int)
    ensures Stamped(PrintBatch(env, p, payload), base, leaderEpoch) ==
            PrintBatch(env, p.(base := base, leaderEpoch := leaderEpoch), payload)
  {
    hide PutInt, Checked;
    var rest := [2] + Checked(env, Fields(p) + payload);
    SameFields(p, base, leaderEpoch);
    var b, len := PrintBatch(env, p, payload), PutInt(49 + |payload|, 4);
    Slices(PutInt(p.base, 8), len, PutInt(p.leaderEpoch, 4), rest);
    Regrouped(PutInt(base, 8), len, PutInt(leaderEpoch, 4), rest);
  }

  lemma {:induction false} SameFields(p: Preamble, base: int, leaderEpoch: int)
    ensures Fields(p.(base := base, leaderEpoch := leaderEpoch)) == Fields(p)
  {}

  lemma {:induction false} Slices(a: seq<byte>, l: seq<byte>, e: seq<byte>, rest: seq<byte>)
    requires |a| == 8 && |l| == |e| == 4
    ensures var b := a + (l + (e + rest));
            |b| >= 16 && b[8..12] == l && b[16..] == rest
  {}

  lemma {:induction false} Regrouped(a: seq<byte>, l: seq<byte>, e: seq<byte>, rest: seq<byte>)
    ensures a + l + e + rest == a + (l + (e + rest))
  {}
}
