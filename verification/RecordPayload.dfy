/**
 The records of a version 2 batch: what the producer prints and what the
 consumer parses. A null byte string and an empty one are the same value here,
 as they are on this wire.
 */
module RecordPayload {
  import opened Wrappers
  import opened ByteStream
  import opened Wire

  datatype Header = Header(name: seq<byte>, value: seq<byte>)

  /** A record to produce; without a timestamp it gets the time of the call. */
  datatype Record = Record(key: seq<byte>, value: seq<byte>, headers: seq<Header>, time: Option<int>)

  datatype Fetched = Fetched(offset: int, time: int, key: seq<byte>, value: seq<byte>, headers: seq<Header>)

  // ------------------------------------------------------------- printing

  function PrintBlob(s: seq<byte>): seq<byte> { Varint(|s|) + s }

  function PrintHeaders(hs: seq<Header>): seq<byte> {
    if hs == [] then [] else PrintBlob(hs[0].name) + (PrintBlob(hs[0].value) + PrintHeaders(hs[1..]))
  }

  /** The key, the value and the headers. */
  function PrintContents(r: Record): seq<byte> {
    PrintBlob(r.key) + (PrintBlob(r.value) + (Varint(|r.headers|) + PrintHeaders(r.headers)))
  }

  function PrintBody(r: Record, offset: int, time: int): seq<byte> {
    [0] + (Varint(time) + (Varint(offset) + PrintContents(r)))
  }

  function PrintRecord(r: Record, offset: int, time: int): seq<byte> {
    var body := PrintBody(r, offset, time);
    Varint(|body|) + body
  }

  function TimeOf(r: Record, now: int): int { if r.time.Some? then r.time.value else now }

  /** Records from i on, times relative to first. */
  function PrintFrom(rs: seq<Record>, i: nat, now: int, first: int): seq<byte>
    requires i <= |rs|
    decreases |rs| - i
  {
    if i == |rs| then [] else PrintRecord(rs[i], i, TimeOf(rs[i], now) - first) + PrintFrom(rs, i + 1, now, first)
  }

  // ------------------------------------------------------------- parsing

  /** A byte string with its length in front; Cut when fewer bytes are left than it announces. */
  datatype Blob = Bytes(value: seq<byte>, at: nat) | Cut | Broken

  function ReadBlob(b: seq<byte>, i: nat): (r: Blob)
    ensures r.Bytes? ==> r.at <= |b|
  {
    match ReadV(b, i)
    case Fail => Broken
    case Got(n, at) =>
      if n <= 0 then Bytes([], at)
      else if n > |b| - at then Cut
      else Bytes(b[at..at + n], at + n)
  }

  /** Headers until the announced number is read or one is cut off. */
  function ParseHeaders(b: seq<byte>, i: nat, n: int): Result<seq<Header>>
    decreases n
  {
    if n <= 0 then Ok([])
    else
      match ReadBlob(b, i)
      case Broken => Err
      case Cut => Ok([])
      case Bytes(name, at) =>
        match ReadBlob(b, at)
        case Broken => Err
        case Cut => Ok([])
        case Bytes(value, at') =>
          match ParseHeaders(b, at', n - 1)
          case Err => Err
          case Ok(hs) => Ok([Header(name, value)] + hs)
  }

  /** One step of the parser: no more records, an error, a record cut short and skipped, a record. */
  datatype Step = Stop | Error | Skip(next: nat) | One(record: Fetched, next: nat)

  /** What the parser does from the key on. */
  function ParseContents(b: seq<byte>, i: nat, end: nat, offset: int, time: int): Step {
    match ReadBlob(b, i)
    case Broken => Error
    case Cut => Skip(end)
    case Bytes(key, at) =>
      match ReadBlob(b, at)
      case Broken => Error
      case Cut => Skip(end)
      case Bytes(value, at) =>
        match ReadV(b, at)
        case Fail => Error
        case Got(n, at) =>
          match ParseHeaders(b, at, n)
          case Err => Error
          case Ok(hs) => One(Fetched(offset, time, key, value, hs), end)
  }

  /** The fields behind the length and the attributes. */
  function ParseFields(b: seq<byte>, i: nat, end: nat, base: int, baseTime: int): (r: Step)
    ensures r.Skip? || r.One? ==> r.next == end
  {
    match ReadV(b, i)
    case Fail => Error
    case Got(time, at) =>
      match ReadV(b, at)
      case Fail => Error
      case Got(offset, at) => ParseContents(b, at, end, base + offset, baseTime + time)
  }

  function ParseRecord(b: seq<byte>, i: nat, base: int, baseTime: int): (r: Step)
    ensures r.Skip? || r.One? ==> i < r.next <= |b|
  {
    match ReadV(b, i)
    case Fail => Error
    case Got(len, at) =>
      if len <= 0 || at + len > |b| then Stop
      else ParseFields(b, at + 1, at + len, base, baseTime)
  }

  function ParseFrom(b: seq<byte>, i: nat, base: int, baseTime: int): Result<seq<Fetched>>
    decreases |b| - i
  {
    if i >= |b| then Ok([])
    else
      match ParseRecord(b, i, base, baseTime)
      case Stop => Ok([])
      case Error => Err
      case Skip(next) => ParseFrom(b, next, base, baseTime)
      case One(r, next) =>
        match ParseFrom(b, next, base, baseTime)
        case Err => Err
        case Ok(rs) => Ok([r] + rs)
  }

  // ------------------------------------------------------------- round trip

  /** The range of numbers the reader accepts. */
  predicate InRange(v: int) { -0x1000_0000 <= v < 0x1000_0000 }

  lemma BlobRoundTrip(b: seq<byte>, i: nat, s: seq<byte>)
    requires At(b, i, PrintBlob(s)) && InRange(|s|)
    ensures ReadBlob(b, i) == Bytes(s, i + |PrintBlob(s)|)
  {
    hide Varint, ReadV;
    AtSplit(b, i, Varint(|s|), s);
    VarintRoundTrip(b, i, |s|);
  }

  lemma {:induction false} HeadersRoundTrip(b: seq<byte>, i: nat, hs: seq<Header>)
    requires At(b, i, PrintHeaders(hs)) && InRange(|PrintHeaders(hs)|)
    ensures ParseHeaders(b, i, |hs|) == Ok(hs)
    decreases |hs|
  {
    hide PrintBlob, ReadBlob, At, PrintHeaders, ParseHeaders;
    HeadersUnfold(b, i, hs);
    if hs != [] {
      var name, value, rest := PrintBlob(hs[0].name), PrintBlob(hs[0].value), PrintHeaders(hs[1..]);
      AtSplit(b, i, name, value + rest);
      AtSplit(b, i + |name|, value, rest);
      BlobLonger(hs[0].name);
      BlobLonger(hs[0].value);
      BlobRoundTrip(b, i, hs[0].name);
      BlobRoundTrip(b, i + |name|, hs[0].value);
      HeadersRoundTrip(b, i + |name| + |value|, hs[1..]);
      assert hs == [hs[0]] + hs[1..];
    }
  }

  lemma {:induction false} HeadersUnfold(b: seq<byte>, i: nat, hs: seq<Header>)
    ensures hs == [] ==> PrintHeaders(hs) == [] && ParseHeaders(b, i, 0) == Ok([])
    ensures hs != [] ==>
              PrintHeaders(hs) == PrintBlob(hs[0].name) + (PrintBlob(hs[0].value) + PrintHeaders(hs[1..]))
    ensures hs != [] ==>
              var name := ReadBlob(b, i);
              name.Bytes? ==>
                var value := ReadBlob(b, name.at);
                value.Bytes? && ParseHeaders(b, value.at, |hs| - 1).Ok? ==>
                  ParseHeaders(b, i, |hs|) ==
                  Ok([Header(name.value, value.value)] + ParseHeaders(b, value.at, |hs| - 1).value)
  {
    hide PrintBlob, ReadBlob;
  }

  lemma BlobLonger(s: seq<byte>)
    ensures |PrintBlob(s)| > |s|
  {}

  /** Every header takes at least two bytes. */
  lemma {:induction false} HeadersLonger(hs: seq<Header>)
    ensures |PrintHeaders(hs)| >= 2 * |hs|
  {
    if hs != [] { HeadersLonger(hs[1..]); }
  }

  lemma ContentsRoundTrip(b: seq<byte>, i: nat, r: Record, end: nat, offset: int, time: int)
    requires At(b, i, PrintContents(r)) && InRange(|PrintContents(r)|)
    ensures ParseContents(b, i, end, offset, time) == One(Fetched(offset, time, r.key, r.value, r.headers), end)
  {
    hide PrintBlob, ReadBlob, At, Varint, ReadV, PrintHeaders, ParseHeaders;
    var key, value, n, hs := PrintBlob(r.key), PrintBlob(r.value), Varint(|r.headers|), PrintHeaders(r.headers);
    AtSplit(b, i, key, value + (n + hs));
    AtSplit(b, i + |key|, value, n + hs);
    AtSplit(b, i + |key| + |value|, n, hs);
    BlobLonger(r.key);
    BlobLonger(r.value);
    HeadersLonger(r.headers);
    BlobRoundTrip(b, i, r.key);
    BlobRoundTrip(b, i + |key|, r.value);
    VarintRoundTrip(b, i + |key| + |value|, |r.headers|);
    HeadersRoundTrip(b, i + |key| + |value| + |n|, r.headers);
  }

  /** Numbers the reader can take: the body length, the time and the offset relative to the batch. */
  predicate Fits(r: Record, offset: int, time: int) {
    InRange(|PrintBody(r, offset, time)|) && InRange(time) && InRange(offset)
  }

  lemma FieldsRoundTrip(b: seq<byte>, i: nat, r: Record, end: nat, offset: int, time: int, base: int, baseTime: int)
    requires At(b, i, Varint(time) + (Varint(offset) + PrintContents(r)))
    requires InRange(|Varint(time) + (Varint(offset) + PrintContents(r))|)
    ensures ParseFields(b, i, end, base, baseTime) ==
            if InRange(time) && InRange(offset)
            then One(Fetched(base + offset, baseTime + time, r.key, r.value, r.headers), end) else Error
  {
    hide At, Varint, ReadV, PrintContents, ReadBlob, ParseHeaders;
    var t, o := Varint(time), Varint(offset);
    AtSplit(b, i, t, o + PrintContents(r));
    AtSplit(b, i + |t|, o, PrintContents(r));
    VarintRoundTrip(b, i, time);
    if InRange(time) {
      VarintRoundTrip(b, i + |t|, offset);
      if InRange(offset) { ContentsRoundTrip(b, i + |t| + |o|, r, end, base + offset, baseTime + time); }
    }
  }

  /** One record is parsed back exactly when its numbers fit, and is an error otherwise. */
  lemma RecordRoundTrip(b: seq<byte>, i: nat, r: Record, offset: int, time: int, base: int, baseTime: int)
    requires At(b, i, PrintRecord(r, offset, time))
    ensures ParseRecord(b, i, base, baseTime) ==
            if Fits(r, offset, time)
            then One(Fetched(base + offset, baseTime + time, r.key, r.value, r.headers), i + |PrintRecord(r, offset, time)|)
            else Error
  {
    hide At, Varint, ReadV, PrintContents, ParseFields;
    var body := PrintBody(r, offset, time);
    var fields := Varint(time) + (Varint(offset) + PrintContents(r));
    AtSplit(b, i, Varint(|body|), body);
    VarintRoundTrip(b, i, |body|);
    if InRange(|body|) {
      var at := i + |Varint(|body|)|;
      AtSplit(b, at, [0], fields);
      AtInside(b, at, body);
      FieldsRoundTrip(b, at + 1, r, at + |body|, offset, time, base, baseTime);
    }
  }

  lemma AtInside(b: seq<byte>, i: nat, s: seq<byte>)
    requires At(b, i, s)
    ensures i + |s| <= |b|
  {}

  // ------------------------------------------------------------- a whole payload

  ghost predicate AllFit(rs: seq<Record>, i: nat, now: int, first: int)
    requires i <= |rs|
  {
    forall j :: i <= j < |rs| ==> Fits(rs[j], j, TimeOf(rs[j], now) - first)
  }

  /** What the consumer gets: offsets counted from the batch's, times as produced but for a shift. */
  function Expected(rs: seq<Record>, i: nat, now: int, base: int, shift: int): seq<Fetched>
    requires i <= |rs|
    decreases |rs| - i
  {
    if i == |rs| then []
    else [Fetched(base + i, TimeOf(rs[i], now) + shift, rs[i].key, rs[i].value, rs[i].headers)]
         + Expected(rs, i + 1, now, base, shift)
  }

  lemma {:induction false} ExpectedAt(rs: seq<Record>, i: nat, now: int, base: int, shift: int, j: nat)
    requires i <= j < |rs|
    ensures |Expected(rs, i, now, base, shift)| == |rs| - i
    ensures Expected(rs, i, now, base, shift)[j - i] ==
            Fetched(base + j, TimeOf(rs[j], now) + shift, rs[j].key, rs[j].value, rs[j].headers)
    decreases j - i
  {
    if i < j { ExpectedAt(rs, i + 1, now, base, shift, j); } else { ExpectedLength(rs, i, now, base, shift); }
  }

  lemma {:induction false} ExpectedLength(rs: seq<Record>, i: nat, now: int, base: int, shift: int)
    requires i <= |rs|
    ensures |Expected(rs, i, now, base, shift)| == |rs| - i
    decreases |rs| - i
  {
    if i < |rs| { ExpectedLength(rs, i + 1, now, base, shift); }
  }

  lemma AllFitStep(rs: seq<Record>, i: nat, now: int, first: int)
    requires i < |rs|
    ensures AllFit(rs, i, now, first) <==> Fits(rs[i], i, TimeOf(rs[i], now) - first) && AllFit(rs, i + 1, now, first)
  {
    hide Fits;
  }

  lemma {:induction false} PayloadFrom(b: seq<byte>, at: nat, rs: seq<Record>, i: nat, now: int, first: int, base: int,
                                       baseTime: int)
    requires i <= |rs| && At(b, at, PrintFrom(rs, i, now, first)) && at + |PrintFrom(rs, i, now, first)| == |b|
    ensures ParseFrom(b, at, base, baseTime) ==
            if AllFit(rs, i, now, first) then Ok(Expected(rs, i, now, base, baseTime - first)) else Err
    decreases |rs| - i
  {
    hide At, PrintRecord, ParseRecord, Fits, AllFit, TimeOf, ParseFrom, Expected, PrintFrom;
    if i == |rs| {
      PayloadEnd(b, rs, now, first, base, baseTime);
    } else {
      var time := TimeOf(rs[i], now) - first;
      var one := PrintRecord(rs[i], i, time);
      PrintStep(rs, i, now, first);
      AtSplit(b, at, one, PrintFrom(rs, i + 1, now, first));
      RecordRoundTrip(b, at, rs[i], i, time, base, baseTime);
      RecordNonEmpty(rs[i], i, time);
      AllFitStep(rs, i, now, first);
      ParseStep(b, at, base, baseTime);
      ExpectedStep(rs, i, now, base, baseTime - first);
      if Fits(rs[i], i, time) { PayloadFrom(b, at + |one|, rs, i + 1, now, first, base, baseTime); }
    }
  }

  lemma PayloadEnd(b: seq<byte>, rs: seq<Record>, now: int, first: int, base: int, baseTime: int)
    ensures PrintFrom(rs, |rs|, now, first) == [] && AllFit(rs, |rs|, now, first)
    ensures Expected(rs, |rs|, now, base, baseTime - first) == [] && ParseFrom(b, |b|, base, baseTime) == Ok([])
  {}

  lemma PrintStep(rs: seq<Record>, i: nat, now: int, first: int)
    requires i < |rs|
    ensures PrintFrom(rs, i, now, first) ==
            PrintRecord(rs[i], i, TimeOf(rs[i], now) - first) + PrintFrom(rs, i + 1, now, first)
  {}

  lemma ParseStep(b: seq<byte>, i: nat, base: int, baseTime: int)
    requires i < |b|
    ensures var step := ParseRecord(b, i, base, baseTime);
            && (step.Error? ==> ParseFrom(b, i, base, baseTime) == Err)
            && (step.One? && ParseFrom(b, step.next, base, baseTime) == Err ==> ParseFrom(b, i, base, baseTime) == Err)
            && (step.One? && ParseFrom(b, step.next, base, baseTime).Ok? ==>
                  ParseFrom(b, i, base, baseTime) == Ok([step.record] + ParseFrom(b, step.next, base, baseTime).value))
  {
    hide ParseRecord;
  }

  lemma ExpectedStep(rs: seq<Record>, i: nat, now: int, base: int, shift: int)
    requires i < |rs|
    ensures Expected(rs, i, now, base, shift) ==
            [Fetched(base + i, TimeOf(rs[i], now) + shift, rs[i].key, rs[i].value, rs[i].headers)]
            + Expected(rs, i + 1, now, base, shift)
  {}

  lemma RecordNonEmpty(r: Record, offset: int, time: int)
    ensures |PrintRecord(r, offset, time)| > 0
  {}

  /**
   For every list of records: parsing what was printed gives back the records
   with consecutive offsets, exactly when every number fits 29 bits. Their times
   are off by as much as the base time of the reader is off that of the writer.
   */
  lemma PayloadRoundTrip(rs: seq<Record>, now: int, base: int, baseTime: int)
    requires rs != []
    ensures var first := TimeOf(rs[0], now);
            ParseFrom(PrintFrom(rs, 0, now, first), 0, base, baseTime) ==
            if AllFit(rs, 0, now, first) then Ok(Expected(rs, 0, now, base, baseTime - first)) else Err
  {
    hide PrintFrom, ParseFrom, Expected, AllFit;
    var first := TimeOf(rs[0], now);
    PayloadFrom(PrintFrom(rs, 0, now, first), 0, rs, 0, now, first, base, baseTime);
  }
}
