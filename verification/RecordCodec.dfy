/**
 The loops that print and parse record payloads, against the grammar of
 `RecordPayload`.
 */
module RecordCodec {
  import opened Wrappers
  import opened ByteStream
  import opened Wire
  import opened RecordPayload

  // ------------------------------------------------------------- sizes

  method VarintLen(v: int) returns (n: nat)
    ensures n == |Varint(v)|
  {
    var u := ZigZag(v);
    n := 1;
    while u >= 128
      invariant n >= 1 && n - 1 + |Uvarint(u)| == |Varint(v)|
    {
      u := u / 128;
      n := n + 1;
    }
  }

  lemma {:induction false} HeadersStep(hs: seq<Header>, i: nat)
    requires i < |hs|
    ensures PrintHeaders(hs[i..]) == PrintBlob(hs[i].name) + PrintBlob(hs[i].value) + PrintHeaders(hs[i + 1..])
  {
    assert hs[i..][1..] == hs[i + 1..];
  }

  /** `recordBodyLen`: the size of a record body before it is printed. */
  method RecordBodyLen(r: Record, offset: int, time: int) returns (n: nat)
    ensures n == |PrintBody(r, offset, time)|
  {
    hide Varint;
    n := 1;
    var l := VarintLen(time);
    n := n + l;
    l := VarintLen(offset);
    n := n + l;
    l := VarintLen(|r.key|);
    n := n + l + |r.key|;
    l := VarintLen(|r.value|);
    n := n + l + |r.value|;
    l := VarintLen(|r.headers|);
    n := n + l;
    assert r.headers[0..] == r.headers;
    for i: nat := 0 to |r.headers|
      invariant n + |PrintHeaders(r.headers[i..])| == |PrintBody(r, offset, time)|
    {
      HeadersStep(r.headers, i);
      var h := r.headers[i];
      l := VarintLen(|h.name|);
      n := n + l + |h.name|;
      l := VarintLen(|h.value|);
      n := n + l + |h.value|;
    }
  }

  // ------------------------------------------------------------- printing

  method AppendBlob(buf: Buffer, s: seq<byte>)
    modifies buf
    ensures buf.B == old(buf.B) + PrintBlob(s)
  {
    buf.WriteVarint(|s|);
    buf.Append(s);
  }

  method AppendHeaders(buf: Buffer, hs: seq<Header>)
    modifies buf
    ensures buf.B == old(buf.B) + PrintHeaders(hs)
  {
    hide PrintBlob, PrintHeaders;
    assert hs[0..] == hs;
    for i: nat := 0 to |hs|
      invariant buf.B + PrintHeaders(hs[i..]) == old(buf.B) + PrintHeaders(hs)
    {
      ghost var was := buf.B;
      HeadersStep(hs, i);
      AppendBlob(buf, hs[i].name);
      AppendBlob(buf, hs[i].value);
      assert buf.B + PrintHeaders(hs[i + 1..]) == was + PrintHeaders(hs[i..]);
    }
    NoHeaders(hs);
  }

  lemma {:induction false} NoHeaders(hs: seq<Header>)
    ensures PrintHeaders(hs[|hs|..]) == []
  {}

  method AppendRecord(buf: Buffer, r: Record, offset: int, time: int)
    modifies buf
    ensures buf.B == old(buf.B) + PrintRecord(r, offset, time)
  {
    hide Varint, PrintBlob, PrintHeaders;
    var n := RecordBodyLen(r, offset, time);
    buf.WriteVarint(n);
    buf.WriteInt8(0);
    buf.WriteVarint(time);
    buf.WriteVarint(offset);
    AppendBlob(buf, r.key);
    AppendBlob(buf, r.value);
    buf.WriteVarint(|r.headers|);
    AppendHeaders(buf, r.headers);
  }

  /** The first pass: the size of the whole payload. */
  method PayloadSize(rs: seq<Record>, now: int, first: int) returns (total: nat)
    ensures total == |PrintFrom(rs, 0, now, first)|
  {
    hide PrintBody, TimeOf, Varint;
    total := 0;
    for i: nat := 0 to |rs|
      invariant total + |PrintFrom(rs, i, now, first)| == |PrintFrom(rs, 0, now, first)|
    {
      var n := RecordBodyLen(rs[i], i, TimeOf(rs[i], now) - first);
      var l := VarintLen(n);
      total := total + l + n;
    }
  }

  /** `encodeRecordsPayload`: the bytes, and the size computed for them beforehand. */
  method EncodeRecordsPayload(rs: seq<Record>, now: int) returns (bytes: seq<byte>, total: nat)
    requires rs != []
    ensures bytes == PrintFrom(rs, 0, now, TimeOf(rs[0], now))
    ensures total == |bytes|
  {
    hide PrintRecord, TimeOf, PrintFrom;
    var first := TimeOf(rs[0], now);
    total := PayloadSize(rs, now, first);
    var buf := new Buffer([]);
    for i: nat := 0 to |rs|
      invariant fresh(buf)
      invariant buf.B + PrintFrom(rs, i, now, first) == PrintFrom(rs, 0, now, first)
    {
      ghost var was := buf.B;
      PrintStep(rs, i, now, first);
      AppendRecord(buf, rs[i], i, TimeOf(rs[i], now) - first);
      assert buf.B + PrintFrom(rs, i + 1, now, first) == was + PrintFrom(rs, i, now, first);
    }
    PayloadEnd([], rs, now, first, 0, first);
    bytes := buf.B;
  }

  // ------------------------------------------------------------- parsing

  /** A byte string at the cursor; the cursor moves only behind a whole one. */
  method NextBlob(buf: Buffer) returns (r: Blob)
    modifies buf
    ensures r == ReadBlob(buf.B, old(buf.I)) && buf.B == old(buf.B)
    ensures r.Bytes? ==> buf.I == r.at
  {
    hide ReadV;
    var n := buf.ReadVarint();
    if n.Fail? { return Broken; }
    if n.value <= 0 { return Bytes([], buf.I); }
    if n.value > |buf.B| - buf.I { return Cut; }
    var s := buf.Take(n.value);
    r := Bytes(s, buf.I);
  }

  ghost predicate HeadersSoFar(b: seq<byte>, start: nat, n: int, hs: seq<Header>, at: nat, left: int) {
    match ParseHeaders(b, at, left)
    case Err => ParseHeaders(b, start, n) == Err
    case Ok(rest) => ParseHeaders(b, start, n) == Ok(hs + rest)
  }

  lemma {:induction false} NoHeadersYet(b: seq<byte>, start: nat, n: int)
    ensures HeadersSoFar(b, start, n, [], start, n)
  {
    match ParseHeaders(b, start, n)
    case Err =>
    case Ok(rest) => assert [] + rest == rest;
  }

  lemma {:induction false} NextHeader(b: seq<byte>, start: nat, n: int, hs: seq<Header>, at: nat, left: int)
    requires HeadersSoFar(b, start, n, hs, at, left) && left > 0
    ensures match ReadBlob(b, at)
            case Broken => ParseHeaders(b, start, n) == Err
            case Cut => ParseHeaders(b, start, n) == Ok(hs)
            case Bytes(name, at') =>
              match ReadBlob(b, at')
              case Broken => ParseHeaders(b, start, n) == Err
              case Cut => ParseHeaders(b, start, n) == Ok(hs)
              case Bytes(value, at'') => HeadersSoFar(b, start, n, hs + [Header(name, value)], at'', left - 1)
  {
    hide ReadBlob;
    assert hs + [] == hs;
    var name := ReadBlob(b, at);
    if name.Bytes? {
      var value := ReadBlob(b, name.at);
      if value.Bytes? && ParseHeaders(b, value.at, left - 1).Ok? {
        var rest := ParseHeaders(b, value.at, left - 1).value;
        assert hs + [Header(name.value, value.value)] + rest == hs + ([Header(name.value, value.value)] + rest);
      }
    }
  }

  lemma {:induction false} AllHeaders(b: seq<byte>, start: nat, n: int, hs: seq<Header>, at: nat, left: int)
    requires HeadersSoFar(b, start, n, hs, at, left) && left <= 0
    ensures ParseHeaders(b, start, n) == Ok(hs)
  {
    assert hs + [] == hs;
  }

  method NextHeaders(buf: Buffer, n: int) returns (r: Result<seq<Header>>)
    modifies buf
    ensures r == ParseHeaders(buf.B, old(buf.I), n) && buf.B == old(buf.B)
  {
    hide ReadBlob, ParseHeaders, HeadersSoFar;
    var hs, h := [], 0;
    NoHeadersYet(buf.B, buf.I, n);
    while h < n
      invariant buf.B == old(buf.B) && HeadersSoFar(buf.B, old(buf.I), n, hs, buf.I, n - h)
    {
      NextHeader(buf.B, old(buf.I), n, hs, buf.I, n - h);
      var name := NextBlob(buf);
      if name.Broken? { return Err; }
      if name.Cut? { return Ok(hs); }
      var value := NextBlob(buf);
      if value.Broken? { return Err; }
      if value.Cut? { return Ok(hs); }
      hs := hs + [Header(name.value, value.value)];
      h := h + 1;
    }
    AllHeaders(buf.B, old(buf.I), n, hs, buf.I, n - h);
    r := Ok(hs);
  }

  /** The body of the parser's loop. */
  method NextRecord(buf: Buffer, base: int, baseTime: int) returns (step: Step)
    modifies buf
    ensures step == ParseRecord(buf.B, old(buf.I), base, baseTime) && buf.B == old(buf.B)
    ensures step.Skip? || step.One? ==> buf.I == step.next
  {
    hide ReadV, ReadBlob, ParseHeaders;
    var length := buf.ReadVarint();
    if length.Fail? { return Error; }
    if length.value <= 0 { return Stop; }
    var recordEnd := buf.I + length.value;
    if recordEnd > |buf.B| { return Stop; }
    var attributes := buf.ReadInt8();
    var time := buf.ReadVarint();
    if time.Fail? { return Error; }
    var offset := buf.ReadVarint();
    if offset.Fail? { return Error; }
    var key := NextBlob(buf);
    if key.Broken? { return Error; }
    if key.Cut? { buf.I := recordEnd; return Skip(recordEnd); }
    var value := NextBlob(buf);
    if value.Broken? { return Error; }
    if value.Cut? { buf.I := recordEnd; return Skip(recordEnd); }
    var n := buf.ReadVarint();
    if n.Fail? { return Error; }
    var hs := NextHeaders(buf, n.value);
    if hs.Err? { return Error; }
    buf.I := recordEnd;
    step := One(Fetched(base + offset.value, baseTime + time.value, key.value, value.value, hs.value), recordEnd);
  }

  ghost predicate ParsedSoFar(b: seq<byte>, base: int, baseTime: int, out: seq<Fetched>, at: nat) {
    match ParseFrom(b, at, base, baseTime)
    case Err => ParseFrom(b, 0, base, baseTime) == Err
    case Ok(rest) => ParseFrom(b, 0, base, baseTime) == Ok(out + rest)
  }

  lemma {:induction false} NothingParsed(b: seq<byte>, base: int, baseTime: int)
    ensures ParsedSoFar(b, base, baseTime, [], 0)
  {
    match ParseFrom(b, 0, base, baseTime)
    case Err =>
    case Ok(rest) => assert [] + rest == rest;
  }

  lemma {:induction false} ParsedOne(b: seq<byte>, base: int, baseTime: int, out: seq<Fetched>, at: nat)
    requires ParsedSoFar(b, base, baseTime, out, at) && at < |b|
    ensures match ParseRecord(b, at, base, baseTime)
            case Stop => ParseFrom(b, 0, base, baseTime) == Ok(out)
            case Error => ParseFrom(b, 0, base, baseTime) == Err
            case Skip(next) => ParsedSoFar(b, base, baseTime, out, next)
            case One(r, next) => ParsedSoFar(b, base, baseTime, out + [r], next)
  {
    hide ParseRecord;
    assert out + [] == out;
    var step := ParseRecord(b, at, base, baseTime);
    if step.One? && ParseFrom(b, step.next, base, baseTime).Ok? {
      var rest := ParseFrom(b, step.next, base, baseTime).value;
      assert out + [step.record] + rest == out + ([step.record] + rest);
    }
  }

  lemma {:induction false} ParsedAll(b: seq<byte>, base: int, baseTime: int, out: seq<Fetched>, at: nat)
    requires ParsedSoFar(b, base, baseTime, out, at) && at >= |b|
    ensures ParseFrom(b, 0, base, baseTime) == Ok(out)
  {
    assert out + [] == out;
  }

  method ParseRecords(data: seq<byte>, base: int, baseTime: int) returns (r: Result<seq<Fetched>>)
    ensures r == ParseFrom(data, 0, base, baseTime)
  {
    hide ParseRecord, ParseFrom, ParsedSoFar;
    var buf := new Buffer(data);
    var out := [];
    NothingParsed(data, base, baseTime);
    while buf.I < |buf.B|
      invariant fresh(buf) && buf.B == data && ParsedSoFar(data, base, baseTime, out, buf.I)
      decreases |data| - buf.I
    {
      ParsedOne(data, base, baseTime, out, buf.I);
      var step := NextRecord(buf, base, baseTime);
      if step.Error? { return Err; }
      if step.Stop? { return Ok(out); }
      if step.One? { out := out + [step.record]; }
    }
    ParsedAll(data, base, baseTime, out, buf.I);
    r := Ok(out);
  }
}
