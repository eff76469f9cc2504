/** Manifest records: one framed edit of the version set. */
module ManifestRecords {
  import opened Bytes
  import opened Framing
  import opened VersionSets

  const TypeAddSSTable: byte := 1
  const TypeRemoveSSTable: byte := 2
  const TypeSetWALCutoff: byte := 3

  datatype Decoded = Ok(edit: Edit, n: nat) | Invalid | Panic

  // --------------------------------------------------------------- the format

  function TypeOf(e: Edit): byte {
    match e
    case AddSSTable(_) => TypeAddSSTable
    case RemoveSSTable(_) => TypeRemoveSSTable
    case SetWALCutoff(_) => TypeSetWALCutoff
  }

  /** Two's complement in 64 bits, and back. */
  function ToUnsigned(x: int): nat { x % (MaxUint64 + 1) }
  function ToSigned(x: nat): int { if x <= MaxUint64 / 2 then x else x - (MaxUint64 + 1) }

  function Payload(e: Edit): bytes {
    match e
    case AddSSTable(m) =>
      PutU64(m.fileNum) + PutU32(m.level) + PutU64(m.smallestSeq) + PutU64(m.largestSeq)
      + (PutU32(|m.smallestKey|) + m.smallestKey)
      + (PutU32(|m.largestKey|) + m.largestKey)
      + PutU64(ToUnsigned(m.fileSize))
    case RemoveSSTable(n) => PutU64(n)
    case SetWALCutoff(c) => PutU64(c)
  }

  function Body(e: Edit): bytes { [TypeOf(e), 0, 0, 0] + Payload(e) }

  function Encode(crc: Checksum, e: Edit): bytes { Frame(crc, Body(e)) }

  /** A fixed-width read: too few bytes left leaves the variable as it was and
      exhausts the reader. */
  function ReadFixed(rd: bytes, n: nat, previous: nat): (nat, bytes) {
    if |rd| >= n then (GetLE(rd[..n]), rd[n..]) else (previous, [])
  }

  /** Fills a zeroed buffer of n bytes with what is left, if anything. */
  function ReadInto(rd: bytes, n: nat): (r: (bytes, bytes))
    ensures |r.0| == n
  {
    if |rd| >= n then (rd[..n], rd[n..]) else (rd + seq(n - |rd|, _ => 0), [])
  }

  function ParseAdd(payload: bytes): TableMeta {
    var (fileNum, r1) := ReadFixed(payload, 8, 0);
    var (level, r2) := ReadFixed(r1, 4, 0);
    var (smallestSeq, r3) := ReadFixed(r2, 8, 0);
    var (largestSeq, r4) := ReadFixed(r3, 8, 0);
    var (n, r5) := ReadFixed(r4, 4, 0);
    var (smallestKey, r6) := ReadInto(r5, n);
    var (n', r7) := ReadFixed(r6, 4, n);
    var (largestKey, r8) := ReadInto(r7, n');
    var (fileSize, _) := ReadFixed(r8, 8, 0);
    TableMeta(fileNum, level, smallestSeq, largestSeq, smallestKey, largestKey, ToSigned(fileSize))
  }

  function Parse(typ: byte, payload: bytes): Option<Edit> {
    if typ == TypeAddSSTable then Some(AddSSTable(ParseAdd(payload)))
    else if typ == TypeRemoveSSTable then Some(RemoveSSTable(ReadFixed(payload, 8, 0).0))
    else if typ == TypeSetWALCutoff then Some(SetWALCutoff(ReadFixed(payload, 8, 0).0))
    else None
  }

  function TotalLength(data: bytes): nat
    requires |data| >= 8
  {
    (8 + U32At(data, 4)) % TwoTo32
  }

  function Decode(crc: Checksum, data: bytes): (d: Decoded)
    ensures d.Ok? ==> 12 <= d.n <= |data|
  {
    if |data| < 12 then Invalid
    else
      var total := TotalLength(data);
      if |data| < total then Invalid
      else if total < 4 then Panic
      else if crc(data[4..total]) != U32At(data, 0) then Invalid
      else if data[9] != 0 then Invalid
      else if total < 12 then Panic
      else
        match Parse(data[8], data[12..total])
        case None => Invalid
        case Some(e) => Ok(e, total)
  }

  // --------------------------------------------------------------- round trip

  /** Every field within the width it is stored in. */
  ghost predicate InRange(e: Edit) {
    && 8 + |Body(e)| < TwoTo32
    && match e
       case AddSSTable(m) =>
         && m.fileNum <= MaxUint64 && m.level <= MaxUint32 && m.smallestSeq <= MaxUint64 && m.largestSeq <= MaxUint64
         && -(MaxUint64 / 2) - 1 <= m.fileSize <= MaxUint64 / 2
       case RemoveSSTable(n) => n <= MaxUint64
       case SetWALCutoff(c) => c <= MaxUint64
  }

  lemma SignRoundTrip(x: int)
    requires -(MaxUint64 / 2) - 1 <= x <= MaxUint64 / 2
    ensures ToUnsigned(x) <= MaxUint64 && ToSigned(ToUnsigned(x)) == x
  {
  }

  lemma Fixed64(x: nat, rest: bytes, previous: nat)
    requires x <= MaxUint64
    ensures ReadFixed(PutU64(x) + rest, 8, previous) == (x, rest)
  {
    Widths(); PutGetLE(x, 8);
    assert (PutU64(x) + rest)[..8] == PutU64(x) && (PutU64(x) + rest)[8..] == rest;
  }

  lemma Fixed32(x: nat, rest: bytes, previous: nat)
    requires x <= MaxUint32
    ensures ReadFixed(PutU32(x) + rest, 4, previous) == (x, rest)
  {
    Widths(); PutGetLE(x, 4);
    assert (PutU32(x) + rest)[..4] == PutU32(x) && (PutU32(x) + rest)[4..] == rest;
  }

  lemma Blob(k: bytes, rest: bytes)
    ensures ReadInto(k + rest, |k|) == (k, rest)
  {
  }

  lemma AddReadsBack(m: TableMeta)
    requires InRange(AddSSTable(m))
    ensures ParseAdd(Payload(AddSSTable(m))) == m
  {
    hide ReadFixed, ReadInto, GetLE, PutLE;
    SignRoundTrip(m.fileSize);
    var size := ToUnsigned(m.fileSize);
    var r8 := PutU64(size);
    var r7 := m.largestKey + r8;
    var r6 := PutU32(|m.largestKey|) + r7;
    var r5 := m.smallestKey + r6;
    var r4 := PutU32(|m.smallestKey|) + r5;
    var r3 := PutU64(m.largestSeq) + r4;
    var r2 := PutU64(m.smallestSeq) + r3;
    var r1 := PutU32(m.level) + r2;
    assert Payload(AddSSTable(m)) == PutU64(m.fileNum) + r1;
    Fixed64(m.fileNum, r1, 0);
    Fixed32(m.level, r2, 0);
    Fixed64(m.smallestSeq, r3, 0);
    Fixed64(m.largestSeq, r4, 0);
    Fixed32(|m.smallestKey|, r5, 0);
    Blob(m.smallestKey, r6);
    Fixed32(|m.largestKey|, r7, |m.smallestKey|);
    Blob(m.largestKey, r8);
    assert r8 + [] == r8;
    Fixed64(size, [], 0);
  }

  lemma ParseReadsBack(e: Edit)
    requires InRange(e)
    ensures Parse(TypeOf(e), Payload(e)) == Some(e)
  {
    match e {
      case AddSSTable(m) => AddReadsBack(m);
      case RemoveSSTable(n) => Fixed64(n, [], 0); assert PutU64(n) + [] == PutU64(n);
      case SetWALCutoff(c) => Fixed64(c, [], 0); assert PutU64(c) + [] == PutU64(c);
    }
  }

  lemma DecodesFrame(crc: Checksum, typ: byte, payload: bytes, e: Edit, rest: bytes)
    requires 12 + |payload| < TwoTo32 && Parse(typ, payload) == Some(e)
    ensures Decode(crc, Frame(crc, [typ, 0, 0, 0] + payload) + rest) == Ok(e, 12 + |payload|)
  {
    hide Parse, Frame;
    var body := [typ, 0, 0, 0] + payload;
    var data := Frame(crc, body) + rest;
    FrameReads(crc, body, rest);
    assert data[8] == data[8..8 + |body|][0] && data[9] == data[8..8 + |body|][1];
    SubSlice(data, 8, 8 + |body|, 4, |body|);
    assert body[4..] == payload;
  }

  /** Decoding what was encoded gives the edit back, whatever bytes follow. */
  lemma RoundTrip(crc: Checksum, e: Edit, rest: bytes)
    requires InRange(e)
    ensures Decode(crc, Encode(crc, e) + rest) == Ok(e, |Encode(crc, e)|)
  {
    hide Parse, Payload, Decode, Frame;
    ParseReadsBack(e);
    DecodesFrame(crc, TypeOf(e), Payload(e), e, rest);
  }

  lemma ShortIsInvalid(crc: Checksum, data: bytes)
    requires |data| < 12 || |data| < TotalLength(data)
    ensures Decode(crc, data) == Invalid
  {
    hide Parse, U32At;
  }

  /** A record cut short is never taken for a record. */
  lemma TornIsInvalid(crc: Checksum, e: Edit, torn: bytes)
    requires InRange(e) && torn < Encode(crc, e)
    ensures Decode(crc, torn) == Invalid
  {
    assert 8 + |Body(e)| < TwoTo32;
    hide Parse, Frame, Body, InRange, U32At, Decode;
    TornFrameReads(crc, Body(e), torn);
    ShortIsInvalid(crc, torn);
  }

  /** Nothing is decoded from bytes whose checksum is wrong. */
  lemma DecodesIntactOnly(crc: Checksum, data: bytes)
    requires Decode(crc, data).Ok?
    ensures var d := Decode(crc, data);
            && U32At(data, 0) == crc(data[4..d.n]) && d.n == (8 + U32At(data, 4)) % 0x1_0000_0000
            && data[9] == 0
            && (data[8] == 1 <==> d.edit.AddSSTable?) && (data[8] == 2 <==> d.edit.RemoveSSTable?) && (data[8] == 3 <==> d.edit.SetWALCutoff?)
  {
    hide ParseAdd, ReadFixed, GetLE;
  }

  /** A record of full length whose bytes and checksum do not go together. */
  ghost predicate Damaged(crc: Checksum, data: bytes) {
    && |data| >= 12
    && var total := (8 + U32At(data, 4)) % 0x1_0000_0000;
       4 <= total <= |data| && crc(data[4..total]) != U32At(data, 0)
  }

  lemma DamagedIsInvalid(crc: Checksum, data: bytes)
    requires Damaged(crc, data)
    ensures Decode(crc, data) == Invalid
  {
    hide Parse, GetLE;
  }

  /** Where everything is, in bytes from the start of a record. */
  lemma RecordLayout(crc: Checksum, e: Edit)
    requires InRange(e)
    ensures var raw := Encode(crc, e);
            && |raw| >= 20 && U32At(raw, 4) == |raw| - 8 && U32At(raw, 0) == crc(raw[4..])
            && raw[8] == (match e case AddSSTable(_) => 1 case RemoveSSTable(_) => 2 case SetWALCutoff(_) => 3)
            && raw[9..12] == [0, 0, 0]
            && U64At(raw, 12) == (match e case AddSSTable(m) => m.fileNum case RemoveSSTable(n) => n case SetWALCutoff(c) => c)
  {
    hide GetLE, PutLE;
    var raw := Encode(crc, e);
    FrameReads(crc, Body(e), []);
    assert raw + [] == raw && raw[4..8 + |Body(e)|] == raw[4..];
    assert raw[8..8 + |Body(e)|] == raw[8..] == Body(e);
    assert raw[12..] == Payload(e) && raw[9..12] == raw[8..][1..4];
    var first := match e case AddSSTable(m) => m.fileNum case RemoveSSTable(n) => n case SetWALCutoff(c) => c;
    assert raw[12..20] == raw[12..][..8] == PutU64(first);
    U64RoundTrip(raw, 12, first);
  }

  /** The other fields of an added table, counted from the end of its number. */
  lemma AddLayout(m: TableMeta)
    requires InRange(AddSSTable(m))
    ensures var raw, s, l := Payload(AddSSTable(m)), |m.smallestKey|, |m.largestKey|;
            && |raw| == 44 + s + l
            && U64At(raw, 0) == m.fileNum && U32At(raw, 8) == m.level && U64At(raw, 12) == m.smallestSeq && U64At(raw, 20) == m.largestSeq
            && U32At(raw, 28) == s && raw[32..32 + s] == m.smallestKey
            && U32At(raw, 32 + s) == l && raw[36 + s..36 + s + l] == m.largestKey
            && U64At(raw, 36 + s + l) == ToUnsigned(m.fileSize)
  {
    hide GetLE, PutLE;
    var raw, s, l := Payload(AddSSTable(m)), |m.smallestKey|, |m.largestKey|;
    SignRoundTrip(m.fileSize);
    AddSlices(PutU64(m.fileNum), PutU32(m.level), PutU64(m.smallestSeq), PutU64(m.largestSeq), PutU32(s), m.smallestKey,
              PutU32(l), m.largestKey, PutU64(ToUnsigned(m.fileSize)));
    U64RoundTrip(raw, 0, m.fileNum);
    U32RoundTrip(raw, 8, m.level);
    U64RoundTrip(raw, 12, m.smallestSeq);
    U64RoundTrip(raw, 20, m.largestSeq);
    U32RoundTrip(raw, 28, s);
    U32RoundTrip(raw, 32 + s, l);
    U64RoundTrip(raw, 36 + s + l, ToUnsigned(m.fileSize));
  }

  lemma AddSlices(a: bytes, b: bytes, c: bytes, d: bytes, e: bytes, f: bytes, g: bytes, h: bytes, i: bytes)
    requires |a| == |c| == |d| == |i| == 8 && |b| == |e| == |g| == 4
    ensures var raw, s, l := a + b + c + d + (e + f) + (g + h) + i, |f|, |h|;
            && |raw| == 44 + s + l && raw[0..8] == a && raw[8..12] == b && raw[12..20] == c && raw[20..28] == d && raw[28..32] == e
            && raw[32..32 + s] == f && raw[32 + s..36 + s] == g && raw[36 + s..36 + s + l] == h && raw[36 + s + l..44 + s + l] == i
  {
  }

  // --------------------------------------------------------------- whole logs

  function DecodeAll(crc: Checksum, data: bytes): seq<Edit>
    decreases |data|
  {
    match Decode(crc, data)
    case Ok(e, n) => [e] + DecodeAll(crc, data[n..])
    case _ => []
  }

  function EncodeAll(crc: Checksum, es: seq<Edit>): bytes {
    if es == [] then [] else Encode(crc, es[0]) + EncodeAll(crc, es[1..])
  }

  ghost predicate TornTail(crc: Checksum, torn: bytes) {
    torn == [] || exists e :: InRange(e) && torn < Encode(crc, e)
  }

  lemma DecodeAllStep(crc: Checksum, raw: bytes, rest: bytes, e: Edit)
    requires Decode(crc, raw + rest) == Ok(e, |raw|)
    ensures DecodeAll(crc, raw + rest) == [e] + DecodeAll(crc, rest)
  {
    assert (raw + rest)[|raw|..] == rest;
  }

  lemma TornReadsNothing(crc: Checksum, torn: bytes)
    requires TornTail(crc, torn)
    ensures DecodeAll(crc, torn) == []
  {
    if torn != [] {
      var e :| InRange(e) && torn < Encode(crc, e);
      TornIsInvalid(crc, e, torn);
    }
  }

  /** A log of whole edits and a torn tail reads as exactly those edits. */
  lemma {:induction false} LogReadsBack(crc: Checksum, es: seq<Edit>, torn: bytes)
    requires (forall e :: e in es ==> InRange(e)) && TornTail(crc, torn)
    ensures DecodeAll(crc, EncodeAll(crc, es) + torn) == es
    decreases |es|
  {
    hide Decode, Encode, InRange;
    if es == [] {
      assert EncodeAll(crc, es) + torn == torn;
      TornReadsNothing(crc, torn);
    } else {
      assert es[0] in es;
      var raw, rest := Encode(crc, es[0]), EncodeAll(crc, es[1..]) + torn;
      RoundTrip(crc, es[0], rest);
      LogReadsBack(crc, es[1..], torn);
      assert EncodeAll(crc, es) + torn == raw + rest;
      DecodeAllStep(crc, raw, rest, es[0]);
    }
  }

  /** A manifest reads as its records up to the first damaged one, and nothing after
      it. */
  lemma {:induction false} DamageEndsLog(crc: Checksum, es: seq<Edit>, damaged: bytes)
    requires (forall e :: e in es ==> InRange(e)) && Damaged(crc, damaged)
    ensures DecodeAll(crc, EncodeAll(crc, es) + damaged) == es
    decreases |es|
  {
    hide Decode, Encode, InRange, Damaged;
    if es == [] {
      assert EncodeAll(crc, es) + damaged == damaged;
      DamagedIsInvalid(crc, damaged);
    } else {
      assert es[0] in es;
      var raw, rest := Encode(crc, es[0]), EncodeAll(crc, es[1..]) + damaged;
      RoundTrip(crc, es[0], rest);
      DamageEndsLog(crc, es[1..], damaged);
      assert EncodeAll(crc, es) + damaged == raw + rest;
      DecodeAllStep(crc, raw, rest, es[0]);
    }
  }

  // ---------------------------------------------------------------- the coder

  method EncodeRecord(crc: Checksum, e: Edit) returns (raw: bytes)
    ensures raw == Encode(crc, e)
  {
    var payload := [];
    match e {
      case AddSSTable(m) =>
        payload := payload + PutU64(m.fileNum);
        payload := payload + PutU32(m.level);
        payload := payload + PutU64(m.smallestSeq);
        payload := payload + PutU64(m.largestSeq);
        payload := payload + (PutU32(|m.smallestKey|) + m.smallestKey);
        payload := payload + (PutU32(|m.largestKey|) + m.largestKey);
        payload := payload + PutU64(ToUnsigned(m.fileSize));
        assert payload == Payload(e);
      case RemoveSSTable(n) => payload := payload + PutU64(n);
      case SetWALCutoff(c) => payload := payload + PutU64(c);
    }
    assert payload == Payload(e);
    raw := Seal(crc, [TypeOf(e), 0, 0, 0] + payload);
  }

  method ReadAdd(payload: bytes) returns (m: TableMeta)
    ensures m == ParseAdd(payload)
  {
    var fileNum, level, smallestSeq, largestSeq, n, fileSize := 0, 0, 0, 0, 0, 0;
    var smallestKey, largestKey := [], [];
    var r := ReadFixed(payload, 8, fileNum);
    fileNum := r.0;
    r := ReadFixed(r.1, 4, level);
    level := r.0;
    r := ReadFixed(r.1, 8, smallestSeq);
    smallestSeq := r.0;
    r := ReadFixed(r.1, 8, largestSeq);
    largestSeq := r.0;
    r := ReadFixed(r.1, 4, n);
    n := r.0;
    var k := ReadInto(r.1, n);
    smallestKey := k.0;
    r := ReadFixed(k.1, 4, n);
    n := r.0;
    k := ReadInto(r.1, n);
    largestKey := k.0;
    r := ReadFixed(k.1, 8, fileSize);
    fileSize := r.0;
    m := TableMeta(fileNum, level, smallestSeq, largestSeq, smallestKey, largestKey, ToSigned(fileSize));
  }

  method DecodeRecord(crc: Checksum, data: bytes) returns (d: Decoded)
    ensures d == Decode(crc, data)
    ensures d.Ok? ==> U32At(data, 0) == crc(data[4..d.n])
  {
    if |data| < 12 { return Invalid; }
    var total := TotalLength(data);
    if |data| < total { return Invalid; }
    if total < 4 { return Panic; }
    if crc(data[4..total]) != U32At(data, 0) { return Invalid; }
    if data[9] != 0 { return Invalid; }
    if total < 12 { return Panic; }
    var typ, payload := data[8], data[12..total];
    if typ == TypeAddSSTable {
      var m := ReadAdd(payload);
      return Ok(AddSSTable(m), total);
    }
    if typ == TypeRemoveSSTable { return Ok(RemoveSSTable(ReadFixed(payload, 8, 0).0), total); }
    if typ == TypeSetWALCutoff { return Ok(SetWALCutoff(ReadFixed(payload, 8, 0).0), total); }
    return Invalid;
  }
}
