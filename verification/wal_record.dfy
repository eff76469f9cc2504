/** Write-ahead log records: one framed batch of puts and deletes. */
module WalRecords {
  import opened Bytes
  import opened Framing

  const TypePut: byte := 1
  const TypeDelete: byte := 2
  const RecordTypeWriteBatch: byte := 1

  datatype LogicalRecord = LogicalRecord(key: bytes, value: bytes, typ: byte)
  datatype Batch = Batch(seqStart: nat, records: seq<LogicalRecord>)

  datatype EncodeError = EmptyBatch | SequenceOverflow | EmptyKey
  datatype Encoded = Raw(raw: bytes) | Rejected(error: EncodeError)

  /** Panic marks slice expressions that a checksummed but impossible length
      makes the decoder evaluate out of range. */
  datatype Decoded = Ok(batch: Batch, n: nat) | Invalid | Panic

  // --------------------------------------------------------------- the format

  function EncodeLogical(r: LogicalRecord): bytes {
    PutU32(|r.key|) + PutU32(if r.typ == TypeDelete then 0 else |r.value|) + [r.typ]
    + r.key + (if r.typ == TypePut then r.value else [])
  }

  function Payload(rs: seq<LogicalRecord>): bytes {
    if rs == [] then [] else EncodeLogical(rs[0]) + Payload(rs[1..])
  }

  function Header(b: Batch): (h: bytes)
    ensures |h| == 16
  {
    [RecordTypeWriteBatch, 0, 0, 0] + PutU64(b.seqStart) + PutU32(|b.records|)
  }

  function Body(b: Batch): bytes { Header(b) + Payload(b.records) }

  /** The error of the first check that fails, in the source's order. */
  function Rejection(b: Batch): Option<EncodeError> {
    if |b.records| == 0 then Some(EmptyBatch)
    else if b.seqStart >= 0x100_0000_0000_0000 then Some(SequenceOverflow)
    else if exists i :: 0 <= i < |b.records| && |b.records[i].key| == 0 then Some(EmptyKey)
    else None
  }

  function Encode(crc: Checksum, b: Batch): Encoded {
    match Rejection(b)
    case Some(e) => Rejected(e)
    case None => Raw(Frame(crc, Body(b)))
  }

  /** The length of an encoded batch, whatever the checksum. */
  function RecordSize(b: Batch): nat { 8 + |Body(b)| }

  lemma EncodedSize(crc: Checksum, b: Batch)
    requires Encode(crc, b).Raw?
    ensures |Encode(crc, b).raw| == RecordSize(b)
  {
  }

  /** One logical record at an offset, and the offset after it. */
  function ReadLogical(payload: bytes, offset: nat): (r: Option<(LogicalRecord, nat)>)
    ensures r.Some? ==> offset + 9 <= r.value.1 <= |payload|
  {
    if offset + 9 > |payload| then None
    else
      var keyLen, valLen, typ := U32At(payload, offset), U32At(payload, offset + 4), payload[offset + 8];
      var at := offset + 9;
      if at + keyLen > |payload| then None
      else
        var key := payload[at..at + keyLen];
        var at' := at + keyLen;
        if typ != TypePut then Some((LogicalRecord(key, [], typ), at'))
        else if at' + valLen > |payload| then None
        else Some((LogicalRecord(key, payload[at'..at' + valLen], typ), at' + valLen))
  }

  function ReadRecords(payload: bytes, offset: nat, count: nat): Option<seq<LogicalRecord>>
    decreases count
  {
    if count == 0 then Some([])
    else
      match ReadLogical(payload, offset)
      case None => None
      case Some(r) =>
        match ReadRecords(payload, r.1, count - 1)
        case None => None
        case Some(rest) => Some([r.0] + rest)
  }

  /** The frame's total length in 32-bit arithmetic. */
  function TotalLength(data: bytes): nat
    requires |data| >= 8
  {
    (8 + U32At(data, 4)) % TwoTo32
  }

  function Decode(crc: Checksum, data: bytes): (d: Decoded)
    ensures d.Ok? ==> 24 <= d.n <= |data|
  {
    if |data| < 24 then Invalid
    else
      var total := TotalLength(data);
      if |data| < total then Invalid
      else if total < 4 then Panic
      else if crc(data[4..total]) != U32At(data, 0) then Invalid
      else if data[8] != RecordTypeWriteBatch || data[9] != 0 then Invalid
      else if total < 24 then Panic
      else
        match ReadRecords(data[24..total], 0, U32At(data, 20))
        case None => Invalid
        case Some(rs) => Ok(Batch(U64At(data, 12), rs), total)
  }

  // --------------------------------------------------------------- round trip

  /** Only puts carry their value through the log. */
  function Normal(r: LogicalRecord): LogicalRecord {
    if r.typ == TypePut then r else r.(value := [])
  }

  function Normalized(b: Batch): Batch {
    Batch(b.seqStart, NormalAll(b.records))
  }

  function NormalAll(rs: seq<LogicalRecord>): seq<LogicalRecord> {
    seq(|rs|, i requires 0 <= i < |rs| => Normal(rs[i]))
  }

  /** The sizes the 32-bit fields can hold. */
  ghost predicate Fits(b: Batch) {
    8 + |Body(b)| < TwoTo32 && |b.records| < TwoTo32
  }

  lemma ReadsBack(before: bytes, r: LogicalRecord, after: bytes)
    requires |EncodeLogical(r)| < TwoTo32
    ensures ReadLogical(before + EncodeLogical(r) + after, |before|) == Some((Normal(r), |before| + |EncodeLogical(r)|))
  {
    var p, o := before + EncodeLogical(r) + after, |before|;
    var valLen := if r.typ == TypeDelete then 0 else |r.value|;
    assert p[o..o + 4] == PutU32(|r.key|);
    assert p[o + 4..o + 8] == PutU32(valLen);
    U32RoundTrip(p, o, |r.key|);
    assert p[o + 8] == r.typ;
    assert p[o + 9..o + 9 + |r.key|] == r.key;
    if r.typ == TypePut {
      U32RoundTrip(p, o + 4, valLen);
      assert p[o + 9 + |r.key|..o + 9 + |r.key| + valLen] == r.value;
    }
  }

  lemma ReadsOn(before: bytes, r: LogicalRecord, after: bytes, count: nat, rest: seq<LogicalRecord>)
    requires |EncodeLogical(r)| < TwoTo32 && count > 0
    requires ReadRecords(before + EncodeLogical(r) + after, |before + EncodeLogical(r)|, count - 1) == Some(rest)
    ensures ReadRecords(before + EncodeLogical(r) + after, |before|, count) == Some([Normal(r)] + rest)
  {
    hide EncodeLogical, Normal;
    ReadsBack(before, r, after);
    hide ReadLogical;
  }

  lemma {:induction false} RecordsReadBack(before: bytes, rs: seq<LogicalRecord>)
    requires |Payload(rs)| < TwoTo32
    ensures ReadRecords(before + Payload(rs), |before|, |rs|) == Some(NormalAll(rs))
    decreases |rs|
  {
    if rs != [] {
      hide EncodeLogical, ReadRecords, Normal;
      var first, rest := EncodeLogical(rs[0]), Payload(rs[1..]);
      assert before + Payload(rs) == before + first + rest;
      RecordsReadBack(before + first, rs[1..]);
      ReadsOn(before, rs[0], rest, |rs|, NormalAll(rs[1..]));
      assert NormalAll(rs) == [Normal(rs[0])] + NormalAll(rs[1..]);
    } else {
      assert NormalAll(rs) == [];
    }
  }

  lemma AllRecordsReadBack(rs: seq<LogicalRecord>)
    requires |Payload(rs)| < TwoTo32
    ensures ReadRecords(Payload(rs), 0, |rs|) == Some(NormalAll(rs))
  {
    RecordsReadBack([], rs);
    assert [] + Payload(rs) == Payload(rs);
  }

  lemma HeaderReads(data: bytes, b: Batch)
    requires |data| >= 24 && data[8..24] == Header(b)
    requires b.seqStart <= MaxUint64 && |b.records| < TwoTo32
    ensures data[8] == RecordTypeWriteBatch && data[9] == 0
    ensures U64At(data, 12) == b.seqStart && U32At(data, 20) == |b.records|
  {
    var h := Header(b);
    assert data[8] == data[8..24][0] && data[9] == data[8..24][1];
    assert h[4..12] == PutU64(b.seqStart) && h[12..16] == PutU32(|b.records|);
    SubSlice(data, 8, 24, 4, 12);
    SubSlice(data, 8, 24, 12, 16);
    U64RoundTrip(data, 12, b.seqStart);
    U32RoundTrip(data, 20, |b.records|);
  }

  lemma DecodesFrame(crc: Checksum, data: bytes, total: nat, payload: bytes, count: nat, rs: seq<LogicalRecord>)
    requires 24 <= total <= |data| && total == TotalLength(data) && U32At(data, 0) == crc(data[4..total])
    requires data[8] == RecordTypeWriteBatch && data[9] == 0 && data[24..total] == payload
    requires U32At(data, 20) == count && ReadRecords(payload, 0, count) == Some(rs)
    ensures Decode(crc, data) == Ok(Batch(U64At(data, 12), rs), total)
  {
  }

  lemma BodyParts(data: bytes, b: Batch)
    requires |data| >= 8 + |Body(b)| && data[8..8 + |Body(b)|] == Body(b)
    ensures data[8..24] == Header(b) && data[24..8 + |Body(b)|] == Payload(b.records)
  {
    assert data[8..24] == data[8..8 + |Body(b)|][..16];
    assert data[24..8 + |Body(b)|] == data[8..8 + |Body(b)|][16..];
  }

  /** Decoding what was encoded gives the batch back, whatever bytes follow. */
  lemma RoundTrip(crc: Checksum, b: Batch, rest: bytes)
    requires Encode(crc, b).Raw? && Fits(b)
    ensures var raw := Encode(crc, b).raw;
            Decode(crc, raw + rest) == Ok(Normalized(b), |raw|)
  {
    hide ReadRecords, Payload, Header;
    var data := Frame(crc, Body(b)) + rest;
    FrameReads(crc, Body(b), rest);
    BodyParts(data, b);
    HeaderReads(data, b);
    AllRecordsReadBack(b.records);
    DecodesFrame(crc, data, 8 + |Body(b)|, Payload(b.records), |b.records|, NormalAll(b.records));
  }

  /** A record cut short is never taken for a record. */
  lemma TornIsInvalid(crc: Checksum, b: Batch, torn: bytes)
    requires Encode(crc, b).Raw? && Fits(b)
    requires torn < Encode(crc, b).raw
    ensures Decode(crc, torn) == Invalid
  {
    hide Frame, ReadRecords;
    TornFrameReads(crc, Body(b), torn);
  }

  /** Nothing is decoded from bytes whose checksum is wrong, and what is decoded is
      what the fields at their places say. */
  lemma DecodesIntactOnly(crc: Checksum, data: bytes)
    requires Decode(crc, data).Ok?
    ensures var d := Decode(crc, data);
            && U32At(data, 0) == crc(data[4..d.n]) && d.n == (8 + U32At(data, 4)) % 0x1_0000_0000
            && data[8] == 1 && data[9] == 0
            && U64At(data, 12) == d.batch.seqStart && U32At(data, 20) == |d.batch.records|
  {
    hide ReadLogical, GetLE;
    ReadsCount(data[24..Decode(crc, data).n], 0, U32At(data, 20));
  }

  lemma {:induction false} ReadsCount(payload: bytes, offset: nat, count: nat)
    requires ReadRecords(payload, offset, count).Some?
    ensures |ReadRecords(payload, offset, count).value| == count
    decreases count
  {
    hide ReadLogical;
    if count > 0 { ReadsCount(payload, ReadLogical(payload, offset).value.1, count - 1); }
  }

  /** A record of full length whose bytes and checksum do not go together. */
  ghost predicate Damaged(crc: Checksum, data: bytes) {
    && |data| >= 24
    && var total := (8 + U32At(data, 4)) % 0x1_0000_0000;
       4 <= total <= |data| && crc(data[4..total]) != U32At(data, 0)
  }

  lemma DamagedIsInvalid(crc: Checksum, data: bytes)
    requires Damaged(crc, data)
    ensures Decode(crc, data) == Invalid
  {
    hide ReadRecords, GetLE;
  }

  /** Where everything is, in bytes from the start of a record. */
  lemma RecordLayout(crc: Checksum, b: Batch)
    requires Encode(crc, b).Raw? && Fits(b)
    ensures var raw := Encode(crc, b).raw;
            && |raw| >= 24 && U32At(raw, 4) == |raw| - 8 && U32At(raw, 0) == crc(raw[4..])
            && raw[8..12] == [1, 0, 0, 0] && U64At(raw, 12) == b.seqStart && U32At(raw, 20) == |b.records|
  {
    hide Payload, GetLE, PutLE;
    var raw := Encode(crc, b).raw;
    FrameReads(crc, Body(b), []);
    assert raw + [] == raw && raw[4..8 + |Body(b)|] == raw[4..];
    assert raw[8..8 + |Body(b)|] == raw[8..];
    assert raw[8..24] == Body(b)[..16] == Header(b);
    HeaderReads(raw, b);
    assert raw[8..12] == raw[8..24][..4];
  }

  /** A logical record: key length, value length, type, key, and the value of a put. */
  lemma LogicalLayout(r: LogicalRecord)
    requires |r.key| < TwoTo32 && |r.value| < TwoTo32
    ensures var raw := EncodeLogical(r);
            && |raw| >= 9 + |r.key| && U32At(raw, 0) == |r.key| && U32At(raw, 4) == (if r.typ == 2 then 0 else |r.value|)
            && raw[8] == r.typ && raw[9..9 + |r.key|] == r.key && raw[9 + |r.key|..] == if r.typ == 1 then r.value else []
  {
    hide GetLE, PutLE;
    var raw := EncodeLogical(r);
    var valLen := if r.typ == TypeDelete then 0 else |r.value|;
    assert raw[0..4] == PutU32(|r.key|) && raw[4..8] == PutU32(valLen);
    U32RoundTrip(raw, 0, |r.key|);
    U32RoundTrip(raw, 4, valLen);
  }

  /** What the encoder refuses. */
  lemma RejectsExactly(crc: Checksum, b: Batch)
    ensures Encode(crc, b).Rejected? <==>
              b.records == [] || b.seqStart >= 0x100_0000_0000_0000 || exists r :: r in b.records && r.key == []
    ensures b.records == [] ==> Encode(crc, b) == Rejected(EmptyBatch)
    ensures b.records != [] && b.seqStart >= 0x100_0000_0000_0000 ==> Encode(crc, b) == Rejected(SequenceOverflow)
  {
    hide Frame, Body;
    if r :| r in b.records && r.key == [] {
      var i :| 0 <= i < |b.records| && b.records[i] == r;
      assert |b.records[i].key| == 0;
    }
  }

  // --------------------------------------------------------------- whole logs

  /** The batches of a byte log, up to the first record that does not decode. */
  function DecodeAll(crc: Checksum, data: bytes): seq<Batch>
    decreases |data|
  {
    match Decode(crc, data)
    case Ok(b, n) => [b] + DecodeAll(crc, data[n..])
    case _ => []
  }

  function EncodeAll(crc: Checksum, bs: seq<Batch>): bytes {
    if bs == [] then []
    else
      match Encode(crc, bs[0])
      case Raw(raw) => raw + EncodeAll(crc, bs[1..])
      case Rejected(_) => EncodeAll(crc, bs[1..])
  }

  ghost predicate Loggable(crc: Checksum, bs: seq<Batch>) {
    forall b :: b in bs ==> Encode(crc, b).Raw? && Fits(b)
  }

  function NormalizedAll(bs: seq<Batch>): seq<Batch> {
    seq(|bs|, i requires 0 <= i < |bs| => Normalized(bs[i]))
  }

  /** What a crash may leave after the last whole record. */
  ghost predicate TornTail(crc: Checksum, torn: bytes) {
    torn == [] || exists b :: Encode(crc, b).Raw? && Fits(b) && torn < Encode(crc, b).raw
  }

  lemma TornReadsNothing(crc: Checksum, torn: bytes)
    requires TornTail(crc, torn)
    ensures DecodeAll(crc, torn) == []
  {
    if torn != [] {
      var b :| Encode(crc, b).Raw? && Fits(b) && torn < Encode(crc, b).raw;
      TornIsInvalid(crc, b, torn);
    }
  }

  /** A log of whole records and a torn tail reads as exactly those records. */
  lemma {:induction false} LogReadsBack(crc: Checksum, bs: seq<Batch>, torn: bytes)
    requires Loggable(crc, bs) && TornTail(crc, torn)
    ensures DecodeAll(crc, EncodeAll(crc, bs) + torn) == NormalizedAll(bs)
    decreases |bs|
  {
    hide Decode, Encode, Fits;
    if bs == [] {
      assert EncodeAll(crc, bs) + torn == torn;
      TornReadsNothing(crc, torn);
    } else {
      assert bs[0] in bs;
      var raw, rest := Encode(crc, bs[0]).raw, EncodeAll(crc, bs[1..]) + torn;
      RoundTrip(crc, bs[0], rest);
      LogReadsBack(crc, bs[1..], torn);
      assert EncodeAll(crc, bs) + torn == raw + rest;
      DecodeAllStep(crc, raw, rest, Normalized(bs[0]));
      assert NormalizedAll(bs) == [Normalized(bs[0])] + NormalizedAll(bs[1..]);
    }
  }

  /** A log reads as its records up to the first damaged one, and nothing after it. */
  lemma {:induction false} DamageEndsLog(crc: Checksum, bs: seq<Batch>, damaged: bytes)
    requires Loggable(crc, bs) && Damaged(crc, damaged)
    ensures DecodeAll(crc, EncodeAll(crc, bs) + damaged) == NormalizedAll(bs)
    decreases |bs|
  {
    hide Decode, Encode, Fits, Damaged;
    if bs == [] {
      assert EncodeAll(crc, bs) + damaged == damaged;
      DamagedIsInvalid(crc, damaged);
    } else {
      assert bs[0] in bs;
      var raw, rest := Encode(crc, bs[0]).raw, EncodeAll(crc, bs[1..]) + damaged;
      RoundTrip(crc, bs[0], rest);
      DamageEndsLog(crc, bs[1..], damaged);
      assert EncodeAll(crc, bs) + damaged == raw + rest;
      DecodeAllStep(crc, raw, rest, Normalized(bs[0]));
      assert NormalizedAll(bs) == [Normalized(bs[0])] + NormalizedAll(bs[1..]);
    }
  }

  lemma DecodeAllStep(crc: Checksum, raw: bytes, rest: bytes, b: Batch)
    requires Decode(crc, raw + rest) == Ok(b, |raw|)
    ensures DecodeAll(crc, raw + rest) == [b] + DecodeAll(crc, rest)
  {
    assert (raw + rest)[|raw|..] == rest;
  }

  // ------------------------------------------------------------- the encoders

  method EncodeRecord(crc: Checksum, batch: Batch) returns (r: Encoded)
    ensures r == Encode(crc, batch)
  {
    hide EncodeLogical, Header, Frame;
    var rs := batch.records;
    if |rs| == 0 { return Rejected(EmptyBatch); }
    if batch.seqStart >= 0x100_0000_0000_0000 { return Rejected(SequenceOverflow); }
    var payload := [];
    assert rs[0..] == rs;
    for i := 0 to |rs|
      invariant payload + Payload(rs[i..]) == Payload(rs)
      invariant forall j :: 0 <= j < i ==> |rs[j].key| > 0
    {
      if |rs[i].key| == 0 { return Rejected(EmptyKey); }
      assert rs[i..][1..] == rs[i + 1..];
      payload := AppendLogical(payload, rs[i]);
    }
    assert rs[|rs|..] == [] && payload + [] == payload;
    var raw := Seal(crc, Header(batch) + payload);
    return Raw(raw);
  }

  method AppendLogical(buf: bytes, r: LogicalRecord) returns (payload: bytes)
    ensures payload == buf + EncodeLogical(r)
  {
    payload := buf + PutU32(|r.key|);
    if r.typ == TypeDelete {
      payload := payload + PutU32(0);
    } else {
      payload := payload + PutU32(|r.value|);
    }
    payload := payload + [r.typ];
    payload := payload + r.key;
    if r.typ == TypePut {
      payload := payload + r.value;
    }
    assert payload == buf + EncodeLogical(r);
  }

  function After(done: seq<LogicalRecord>, more: Option<seq<LogicalRecord>>): Option<seq<LogicalRecord>> {
    match more
    case None => None
    case Some(rest) => Some(done + rest)
  }

  lemma AfterNothing(more: Option<seq<LogicalRecord>>)
    ensures After([], more) == more
  {
    if more.Some? { assert [] + more.value == more.value; }
  }

  lemma AfterMore(done: seq<LogicalRecord>, r: LogicalRecord, more: Option<seq<LogicalRecord>>)
    ensures After(done, After([r], more)) == After(done + [r], more)
  {
    if more.Some? { assert done + ([r] + more.value) == done + [r] + more.value; }
  }

  method DecodeRecord(crc: Checksum, data: bytes) returns (d: Decoded)
    ensures d == Decode(crc, data)
    ensures d.Ok? ==> U32At(data, 0) == crc(data[4..d.n])
  {
    hide ReadLogical, GetLE;
    if |data| < 24 { return Invalid; }
    var total := TotalLength(data);
    if |data| < total { return Invalid; }
    if total < 4 { return Panic; }
    if crc(data[4..total]) != U32At(data, 0) { return Invalid; }
    if data[8] != RecordTypeWriteBatch || data[9] != 0 { return Invalid; }
    if total < 24 { return Panic; }
    var count := U32At(data, 20);
    var payload := data[24..total];
    var records := [];
    var offset := 0;
    AfterNothing(ReadRecords(payload, 0, count));
    for i := 0 to count
      invariant ReadRecords(payload, 0, count) == After(records, ReadRecords(payload, offset, count - i))
    {
      match ReadLogical(payload, offset) {
        case None => return Invalid;
        case Some(r) =>
          AfterMore(records, r.0, ReadRecords(payload, r.1, count - i - 1));
          records := records + [r.0];
          offset := r.1;
      }
    }
    assert records + [] == records;
    return Ok(Batch(U64At(data, 12), records), total);
  }
}
