/** Recovery: the manifest replayed, the log replayed past the cutoff, and the
    memtable paged out to level 0 whenever it grows past its limit. */
module Recoveries {
  import opened Bytes
  import opened Framing
  import InternalKeys
  import opened Versions
  import opened VersionSets
  import opened Skiplists
  import opened TableMetas
  import opened WalRecords
  import opened WalLogs
  import opened Histories
  import ManifestRecords
  import ManifestReplay

  /** What recovery has at hand: the version, the manifest it has appended to, the
      table files, and the memtable being filled. */
  datatype Rec = Rec(version: Version, log: seq<Edit>, files: map<nat, seq<Entry>>,
                     mem: seq<Entry>, size: nat, maxSeq: nat, maxFileNum: nat)

  type Sizer = seq<Entry> -> int

  function Max(a: nat, b: nat): nat { if a > b then a else b }

  function MaxLargest(ts: seq<TableMeta>): nat {
    if ts == [] then 0 else Max(MaxLargest(ts[..|ts| - 1]), ts[|ts| - 1].largestSeq)
  }

  function MaxNum(ts: seq<TableMeta>): nat {
    if ts == [] then 0 else Max(MaxNum(ts[..|ts| - 1]), ts[|ts| - 1].fileNum)
  }

  lemma {:induction false} Maxima(ts: seq<TableMeta>)
    ensures forall t :: t in ts ==> t.largestSeq <= MaxLargest(ts) && t.fileNum <= MaxNum(ts)
    ensures MaxLargest(ts) == 0 || exists t :: t in ts && t.largestSeq == MaxLargest(ts)
    ensures MaxNum(ts) == 0 || exists t :: t in ts && t.fileNum == MaxNum(ts)
    decreases |ts|
  {
    if ts != [] {
      var front, last := ts[..|ts| - 1], ts[|ts| - 1];
      Maxima(front);
      assert ts == front + [last];
    }
  }

  /** After the manifest, before the log. */
  function Start(log: seq<Edit>, files: map<nat, seq<Entry>>): Rec {
    var v := Replay(EmptyVersion, log);
    Rec(v, log, files, [], 0, Max(MaxLargest(All(v.levels)), v.walCutoff), MaxNum(All(v.levels)))
  }

  /** The memtable's estimate: encoded key, value and sixteen bytes per insert. */
  function BatchSize(rs: seq<LogicalRecord>): nat {
    if rs == [] then 0 else BatchSize(rs[..|rs| - 1]) + |rs[|rs| - 1].key| + 8 + |Normal(rs[|rs| - 1]).value| + 16
  }

  function InsertBatch(rec: Rec, b: Batch): Rec
    requires Known(b)
  {
    rec.(mem := WithBatch(rec.mem, b), size := rec.size + BatchSize(b.records), maxSeq := Max(rec.maxSeq, b.seqStart + |b.records| - 1))
  }

  /** Writes the memtable out under the next number and logs the new table. */
  function Page(rec: Rec, sizeOf: Sizer): (r: Rec)
    requires Encodable(rec.mem) && |rec.version.levels| == NumLevels
    ensures |r.version.levels| == NumLevels
  {
    var n := rec.maxFileNum + 1;
    MetaDescribes(n, 0, rec.mem, 0);
    var meta := MetaOf(n, 0, rec.mem, sizeOf(rec.mem));
    Rec(Add(rec.version, meta), rec.log + [AddSSTable(meta)], rec.files[n := rec.mem], [], 0, rec.maxSeq, n)
  }

  /** One batch: skipped when the cutoff covers it, paged out after it when the
      memtable has grown past the limit. */
  function RecoverBatch(rec: Rec, b: Batch, limit: int, sizeOf: Sizer): (r: Rec)
    requires Storable(b) && Encodable(rec.mem) && |rec.version.levels| == NumLevels
    ensures Encodable(r.mem) && |r.version.levels| == NumLevels
  {
    if BatchMax(b) <= rec.version.walCutoff then rec
    else
      WithBatchAmong(rec.mem, b);
      var r := InsertBatch(rec, b);
      if r.size > limit then Page(r, sizeOf) else r
  }

  ghost predicate AllStorable(bs: seq<Batch>) {
    forall i :: 0 <= i < |bs| ==> Storable(bs[i])
  }

  function RecoverAll(rec: Rec, bs: seq<Batch>, limit: int, sizeOf: Sizer): (r: Rec)
    requires AllStorable(bs) && Encodable(rec.mem) && |rec.version.levels| == NumLevels
    ensures |r.version.levels| == NumLevels
    decreases |bs|
  {
    if bs == [] then rec else RecoverAll(RecoverBatch(rec, bs[0], limit, sizeOf), bs[1..], limit, sizeOf)
  }

  // ------------------------------------------------------------ the procedure

  /** The two loops over tables. */
  method Scan(vs: VersionSet) returns (maxSeq: nat, maxFileNum: nat)
    requires vs.Valid()
    ensures maxSeq == Max(MaxLargest(All(vs.Abs().levels)), vs.walCutoff)
    ensures maxFileNum == MaxNum(All(vs.Abs().levels))
  {
    hide WellFormed;
    var all := vs.GetAllTables();
    maxSeq, maxFileNum := 0, 0;
    for i := 0 to |all|
      invariant maxSeq == MaxLargest(all[..i]) && maxFileNum == MaxNum(all[..i])
    {
      assert all[..i + 1][..i] == all[..i];
      if all[i].largestSeq > maxSeq { maxSeq := all[i].largestSeq; }
      if all[i].fileNum > maxFileNum { maxFileNum := all[i].fileNum; }
    }
    assert all[..|all|] == all;
    if vs.walCutoff > maxSeq { maxSeq := vs.walCutoff; }
  }

  /** A batch's records, one insert at a time. */
  method ApplyBatch(mem: seq<Entry>, size: nat, maxSeq: nat, b: Batch)
    returns (mem': seq<Entry>, size': nat, maxSeq': nat)
    requires Known(b)
    ensures mem' == WithBatch(mem, b) && size' == size + BatchSize(b.records)
    ensures maxSeq' == Max(maxSeq, b.seqStart + |b.records| - 1)
  {
    hide InsertSorted;
    mem', size', maxSeq' := mem, size, maxSeq;
    var seqNum := b.seqStart;
    for i := 0 to |b.records|
      invariant seqNum == b.seqStart + i
      invariant WithRecords(mem', b, i) == WithBatch(mem, b)
      invariant size' == size + BatchSize(b.records[..i])
      invariant maxSeq' == if i == 0 then maxSeq else Max(maxSeq, b.seqStart + i - 1)
    {
      var r := b.records[i];
      assert b.records[..i + 1][..i] == b.records[..i];
      mem' := InsertSorted(mem', Entry(InternalKeys.InternalKey(r.key, seqNum, ConvertLogicalType(r.typ)), Normal(r).value));
      size' := size' + |r.key| + 8 + |Normal(r).value| + 16;
      if seqNum > maxSeq' { maxSeq' := seqNum; }
      seqNum := seqNum + 1;
    }
    assert b.records[..|b.records|] == b.records;
  }

  lemma {:induction false} RecoverConcat(rec: Rec, a: seq<Batch>, b: seq<Batch>, limit: int, sizeOf: Sizer)
    requires AllStorable(a) && AllStorable(b) && Encodable(rec.mem) && |rec.version.levels| == NumLevels
    ensures AllStorable(a + b) && Encodable(RecoverAll(rec, a, limit, sizeOf).mem)
    ensures RecoverAll(rec, a + b, limit, sizeOf) == RecoverAll(RecoverAll(rec, a, limit, sizeOf), b, limit, sizeOf)
    decreases |a|
  {
    hide RecoverBatch, Storable, Encodable;
    if a == [] {
      assert a + b == b;
    } else {
      assert (a + b)[1..] == a[1..] + b;
      RecoverConcat(RecoverBatch(rec, a[0], limit, sizeOf), a[1..], b, limit, sizeOf);
    }
  }

  /** Replays the manifest bytes, then every segment up to its first bad record. */
  method Recover(crc: Checksum, manifest: bytes, segments: seq<bytes>, files: map<nat, seq<Entry>>,
                 memtableLimit: int, sizeOf: Sizer)
    returns (rec: Rec, nextSeq: nat)
    requires AllStorable(DecodeSegments(crc, segments))
    ensures rec == RecoverAll(Start(ManifestRecords.DecodeAll(crc, manifest), files), DecodeSegments(crc, segments), memtableLimit, sizeOf)
    ensures nextSeq == rec.maxSeq + 1
  {
    hide Replay, Decode, ManifestRecords.DecodeAll, RecoverBatch, Storable, WellFormed;
    var vs := ManifestReplay.ReplayManifest(crc, manifest);
    var maxSeq, maxFileNum := Scan(vs);
    rec := Rec(Version(vs.levels[..], vs.obsolete, vs.walCutoff), ManifestRecords.DecodeAll(crc, manifest), files, [], 0, maxSeq, maxFileNum);
    ghost var start := rec;
    ghost var all := DecodeSegments(crc, segments);
    assert segments[0..] == segments;
    for i := 0 to |segments|
      invariant Encodable(rec.mem) && |rec.version.levels| == NumLevels && AllStorable(DecodeSegments(crc, segments[i..]))
      invariant RecoverAll(rec, DecodeSegments(crc, segments[i..]), memtableLimit, sizeOf) == RecoverAll(start, all, memtableLimit, sizeOf)
    {
      assert segments[i..][1..] == segments[i + 1..];
      rec := RecoverSegment(crc, segments[i], rec, memtableLimit, sizeOf, DecodeSegments(crc, segments[i + 1..]));
    }
    nextSeq := rec.maxSeq + 1;
  }

  method RecoverSegment(crc: Checksum, data: bytes, from: Rec, limit: int, sizeOf: Sizer, ghost later: seq<Batch>)
    returns (rec: Rec)
    requires AllStorable(DecodeAll(crc, data) + later) && Encodable(from.mem) && |from.version.levels| == NumLevels
    ensures Encodable(rec.mem) && |rec.version.levels| == NumLevels && AllStorable(later)
    ensures RecoverAll(rec, later, limit, sizeOf) == RecoverAll(from, DecodeAll(crc, data) + later, limit, sizeOf)
  {
    hide Decode, Storable, Encodable, RecoverBatch;
    rec := from;
    var offset := 0;
    assert data[0..] == data;
    while offset < |data|
      invariant offset <= |data| && Encodable(rec.mem) && |rec.version.levels| == NumLevels
      invariant AllStorable(DecodeAll(crc, data[offset..]) + later)
      invariant RecoverAll(rec, DecodeAll(crc, data[offset..]) + later, limit, sizeOf) == RecoverAll(from, DecodeAll(crc, data) + later, limit, sizeOf)
      decreases |data| - offset
    {
      var d := DecodeRecord(crc, data[offset..]);
      if !d.Ok? { break; }
      assert data[offset..][d.n..] == data[offset + d.n..];
      NextBatch(d.batch, DecodeAll(crc, data[offset + d.n..]), later);
      rec := RecoverOne(rec, d.batch, limit, sizeOf);
      offset := offset + d.n;
    }
    assert DecodeAll(crc, data[offset..]) == [] && [] + later == later;
  }

  lemma NextBatch(b: Batch, more: seq<Batch>, later: seq<Batch>)
    requires AllStorable([b] + more + later)
    ensures Storable(b) && AllStorable(more + later)
    ensures ([b] + more + later)[0] == b && ([b] + more + later)[1..] == more + later
  {
    var all := [b] + more + later;
    assert all[1..] == more + later && all[0] == b;
  }

  method RecoverOne(from: Rec, batch: Batch, limit: int, sizeOf: Sizer) returns (rec: Rec)
    requires Storable(batch) && Encodable(from.mem) && |from.version.levels| == NumLevels
    ensures rec == RecoverBatch(from, batch, limit, sizeOf)
  {
    hide BatchSize, Page, WithBatch, BatchMax, Known;
    rec := from;
    if BatchMax(batch) <= rec.version.walCutoff { return; }
    var mem, size, maxSeq := ApplyBatch(rec.mem, rec.size, rec.maxSeq, batch);
    WithBatchAmong(rec.mem, batch);
    rec := rec.(mem := mem, size := size, maxSeq := maxSeq);
    if rec.size > limit { rec := PageOut(rec, sizeOf); }
  }

  /** The table file, the version, the manifest record, and a new memtable. */
  method PageOut(from: Rec, sizeOf: Sizer) returns (rec: Rec)
    requires Encodable(from.mem) && |from.version.levels| == NumLevels
    ensures rec == Page(from, sizeOf)
  {
    hide Add, LowSeq, HighSeq;
    var fileNum := from.maxFileNum + 1;
    MetaDescribes(fileNum, 0, from.mem, 0);
    var meta := MetaOf(fileNum, 0, from.mem, sizeOf(from.mem));
    rec := from.(files := from.files[fileNum := from.mem], maxFileNum := fileNum);
    rec := rec.(version := Add(rec.version, meta));
    rec := rec.(log := rec.log + [AddSSTable(meta)]);
    rec := rec.(mem := [], size := 0);
  }
}
