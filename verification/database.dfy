/** The database object: its methods move the fields exactly as the engine's steps
    move the state, so everything proved of every run holds of it. */
module Databases {
  import opened Bytes
  import opened InternalKeys
  import opened Versions
  import opened Merging
  import opened VersionSets
  import opened Reads
  import opened Skiplists
  import opened TableMetas
  import opened WalRecords
  import opened Histories
  import opened Recoveries
  import opened Compactions
  import opened CompactionCommits
  import opened Engine
  import opened EngineInvariant
  import opened EngineFlush
  import opened EngineRuns
  import opened EngineTheorems
  import opened CrashRecovery
  import opened RecoveryPages
  import opened Framing
  import Flushes
  import Snapshots
  import opened WalLogs

  // ---------------------------------------------------------- what readers open

  /** The tables a reader opens: every live one, in any order, with its file. */
  ghost predicate Opened(tables: seq<Table>, live: seq<TableMeta>, files: map<nat, seq<Entry>>) {
    && (forall t :: t in tables ==> t.meta in live && FileHolds(files, t.meta.fileNum, t.entries))
    && forall m :: m in live ==> exists t :: t in tables && t.meta == m
  }

  /** The sources of a read of a reachable state meet the reader's contract, and
      together they are everything live. */
  lemma ReaderSources(disk: Disk, db: Db, p: Past, tables: seq<Table>)
    requires ServingOk(disk, db, p) && Opened(tables, All(db.version.levels), disk.files)
    ensures forall t :: t in tables ==> Describes(t.meta, t.entries)
    ensures Sources(AllSources([db.mem] + db.imms, tables))
    ensures Union(AllSources([db.mem] + db.imms, tables)) == TableEntries(All(db.version.levels), disk.files) + MemEntries(db.imms, db.mem)
  {
    hide HistoryOk, ManifestOk, WalOk, JobOk, FlushOk, Answer, Healthy, Retired, MaxNum, Describes, Boundary;
    TablesGood(tables, All(db.version.levels), disk.files);
    MemsSorted(db.mem, db.imms, db.cuts, p.history, p.covered);
    SourcesUnion(db.mem, db.imms, tables, All(db.version.levels), disk.files);
    TablesAmongSources([db.mem] + db.imms, tables);
    HistoryIsNumbered(p.history);
    HistoryFacts(p.history);
    CoherentSubset(Entire(p.history), Union(AllSources([db.mem] + db.imms, tables)));
  }

  lemma HistoryIsNumbered(h: seq<Batch>)
    requires HistoryOk(h)
    ensures Numbered(h)
  {
  }

  lemma TablesGood(tables: seq<Table>, live: seq<TableMeta>, files: map<nat, seq<Entry>>)
    requires Opened(tables, live, files) && Present(live, files)
    ensures forall t :: t in tables ==> Describes(t.meta, t.entries) && Sorted(t.entries)
  {
    hide Describes, Sorted;
  }

  lemma MemsSorted(mem: seq<Entry>, imms: seq<seq<Entry>>, cuts: seq<nat>, h: seq<Batch>, covered: nat)
    requires HistoryOk(h) && MemsOk(mem, imms, cuts, h, covered)
    ensures forall s :: s in [mem] + imms ==> Sorted(s)
  {
    hide Sorted, HistoryOk, Written;
    forall s | s in [mem] + imms ensures Sorted(s) {
      if s != mem { var i :| 0 <= i < |imms| && imms[i] == s; }
    }
  }

  lemma SourcesUnion(mem: seq<Entry>, imms: seq<seq<Entry>>, tables: seq<Table>, live: seq<TableMeta>,
                     files: map<nat, seq<Entry>>)
    requires Opened(tables, live, files)
    ensures Union(AllSources([mem] + imms, tables)) == TableEntries(live, files) + MemEntries(imms, mem)
  {
    var mems := [mem] + imms;
    var all := AllSources(mems, tables);
    TablesAmongSources(mems, tables);
    forall e | e in Union(all) ensures e in TableEntries(live, files) + MemEntries(imms, mem) {
      var s: seq<Entry> :| s in all && e in s;
      if s in mems {
        assert s == mem || s in imms;
      } else {
        var t :| t in tables && t.entries == s;
        assert t.meta in live;
      }
    }
    forall e | e in TableEntries(live, files) ensures e in Union(all) {
      var m :| m in live && m.fileNum in files && e in files[m.fileNum];
      var t :| t in tables && t.meta == m;
      assert t.entries in all;
    }
    forall e | e in MemEntries(imms, mem) ensures e in Union(all) {
      if e in mem {
        assert mem in mems;
      } else {
        var s: seq<Entry> :| s in imms && e in s;
        assert s in mems;
      }
    }
  }

  // -------------------------------------------------------------- the database

  /** The segment size every database is opened with. */
  const MaxSegmentSize: nat := 64 * 1024 * 1024

  /** The log without its longest prefix of segments the cutoff covers, never
      without its last. */
  ghost predicate LeftBy(wal: seq<seq<Batch>>, before: seq<seq<Batch>>, cutoff: nat) {
    && |wal| <= |before| && wal == before[|before| - |wal|..]
    && (forall i :: 0 <= i < |before| - |wal| ==> Covers(before[i], cutoff))
    && (wal == [] || |wal| == 1 || !Covers(wal[0], cutoff))
    && (before != [] ==> wal != [])
  }

  /** Tables by number, the newest first. */
  function InsertDescending(ts: seq<TableMeta>, m: TableMeta): seq<TableMeta> {
    if ts == [] || ts[0].fileNum <= m.fileNum then [m] + ts else [ts[0]] + InsertDescending(ts[1..], m)
  }

  function SortDescending(ts: seq<TableMeta>): seq<TableMeta> {
    if ts == [] then [] else InsertDescending(SortDescending(ts[1..]), ts[0])
  }

  ghost predicate Descending(ts: seq<TableMeta>) {
    forall i, j :: 0 <= i < j < |ts| ==> ts[i].fileNum >= ts[j].fileNum
  }

  lemma {:induction false} InsertDescendingMembers(ts: seq<TableMeta>, m: TableMeta)
    ensures forall t :: t in InsertDescending(ts, m) <==> t in ts || t == m
    ensures Descending(ts) ==> Descending(InsertDescending(ts, m))
  {
    if ts != [] {
      assert ts == [ts[0]] + ts[1..];
      if ts[0].fileNum > m.fileNum {
        InsertDescendingMembers(ts[1..], m);
        var r := InsertDescending(ts[1..], m);
        if Descending(ts) {
          forall j | 0 <= j < |r| ensures ts[0].fileNum >= r[j].fileNum { assert r[j] in r; }
        }
      }
    }
  }

  lemma {:induction false} SortedDescending(ts: seq<TableMeta>)
    ensures forall t :: t in SortDescending(ts) <==> t in ts
    ensures Descending(SortDescending(ts))
  {
    if ts != [] {
      SortedDescending(ts[1..]);
      InsertDescendingMembers(SortDescending(ts[1..]), ts[0]);
      assert ts == [ts[0]] + ts[1..];
    }
  }

  ghost predicate KnownTypes(records: seq<LogicalRecord>) {
    forall i :: 0 <= i < |records| ==> records[i].typ == TypePut || records[i].typ == TypeDelete
  }

  /** The memtable's estimate of what the records add. */
  function RawSize(records: seq<LogicalRecord>): nat {
    if records == [] then 0
    else
      var r := records[|records| - 1];
      RawSize(records[..|records| - 1]) + |r.key| + 8 + |r.value| + 16
  }

  /** Every record counts, wherever it stands in the batch. */
  lemma {:induction false} RawSizeAdds(a: seq<LogicalRecord>, b: seq<LogicalRecord>)
    ensures RawSize(a + b) == RawSize(a) + RawSize(b)
    decreases |b|
  {
    if b == [] {
      assert a + b == a;
    } else {
      assert (a + b)[..|a + b| - 1] == a + b[..|b| - 1];
      RawSizeAdds(a, b[..|b| - 1]);
    }
  }

  lemma OneRawSize(r: LogicalRecord)
    ensures RawSize([r]) == |r.key| + |r.value| + 24
  {
    assert [r][..0] == [];
  }

  lemma WriteEnabled(s: State, records: seq<LogicalRecord>, newSegment: bool)
    requires Reachable(s) && s.Serving? && s.db.nextSeq + |records| < MaxSeq && KnownTypes(records)
    requires Rejection(Batch(s.db.nextSeq, records)).None?
    ensures Enabled(s, Op.Write(records, newSegment))
  {
    hide Reachable, VersionOk, ManifestOk, MemsOk, JobOk, FlushOk, Faithful, HistoryOk;
    ReachableOk(s);
  }

  lemma WriteIs(s: State, records: seq<LogicalRecord>, newSegment: bool)
    requires s.Serving? && Enabled(s, Op.Write(records, newSegment))
    ensures var b := NewBatch(s.db, records);
            && Known(b) && s.disk.wal != [] && records != []
            && Next(s, Op.Write(records, newSegment))
                 == Serving(s.disk.(wal := AppendedTo(s.disk.wal, b, newSegment)),
                            s.db.(mem := WithBatch(s.db.mem, b), nextSeq := s.db.nextSeq + |records|),
                            s.past.(history := s.past.history + [b]))
  {
  }

  lemma RotateIs(s: State)
    requires s.Serving?
    ensures Enabled(s, Op.Rotate)
    ensures Next(s, Op.Rotate) == s.(db := s.db.(imms := s.db.imms + [s.db.mem], mem := [], cuts := s.db.cuts + [|s.past.history|]))
  {
  }

  /** Reading a reachable state's sources is reading its history. */
  lemma ReadIs(s: State, tables: seq<Table>, k: bytes, r: nat)
    requires s.Serving? && Reachable(s) && Opened(tables, All(s.db.version.levels), s.disk.files)
    ensures Sources(AllSources([s.db.mem] + s.db.imms, tables)) && (forall t :: t in tables ==> Describes(t.meta, t.entries))
    ensures Numbered(s.past.history) && s.db.nextSeq == Count(s.past.history) + 1
    ensures forall e :: e in Union(AllSources([s.db.mem] + s.db.imms, tables)) ==> e.key.num <= Count(s.past.history)
    ensures r >= Floor(s.db) ==>
              Answer(Union(AllSources([s.db.mem] + s.db.imms, tables)), k, r) == Answer(Entire(s.past.history), k, r)
  {
    hide Reachable, Answer, AllSources, Opened, Floor, Count, Entire, Describes, Sources, VersionOk, ManifestOk,
         MemsOk, JobOk, FlushOk, WalOk, TableEntries, MemEntries, Numbered;
    ReachableOk(s);
    ReaderSources(s.disk, s.db, s.past, tables);
    ReadsTheHistory(s, k, if r >= Floor(s.db) then r else Floor(s.db));
    HistoryFacts(s.past.history);
  }

  /** A scan of a reachable state's sources is a scan of its history. */
  lemma ScanIs(s: State, tables: seq<Table>, snapshot: Option<nat>, r: nat)
    requires s.Serving? && Reachable(s) && Opened(tables, All(s.db.version.levels), s.disk.files)
    requires r >= Floor(s.db)
    requires Numbered(s.past.history) && if snapshot.Some? then r == snapshot.value else r == Count(s.past.history)
    ensures var all := AllSources([s.db.mem] + s.db.imms, tables);
            && Coherent(Union(FilterAll(all, snapshot)))
            && Scans(Live(Emission(Union(FilterAll(all, snapshot)), true)), Entire(s.past.history), r, None, None, None)
  {
    hide Reachable, Answer, AllSources, Opened, Floor, Count, Entire, Describes, Sources, Emission, Live, FilterAll,
         Numbered, Union, Ascends, InScan, Coherent;
    ReadIs(s, tables, [], r);
    ScanAgreesWithGet(AllSources([s.db.mem] + s.db.imms, tables), snapshot, r, None, None, None);
    forall k ensures Answer(Union(AllSources([s.db.mem] + s.db.imms, tables)), k, r) == Answer(Entire(s.past.history), k, r) {
      ReadIs(s, tables, k, r);
    }
  }

  lemma VersionIsWellFormed(s: State)
    requires s.Serving? && Reachable(s)
    ensures WellFormed(s.db.version)
  {
    hide Reachable, ManifestOk, MemsOk, JobOk, FlushOk, WalOk, Faithful, HistoryOk, TableEntries, Retired, Present;
    ReachableOk(s);
  }

  lemma SomeSegment(s: State, crc: Checksum, bss: seq<seq<Batch>>, segments: seq<bytes>, es: seq<Edit>, log: bytes)
    requires OnDisk(s, crc, bss, segments, es, log)
    ensures segments != []
  {
  }

  lemma TablesPresent(s: State)
    requires s.Serving? && Reachable(s)
    ensures forall m :: m in All(s.db.version.levels) ==> m.fileNum in s.disk.files
  {
    hide Reachable, ManifestOk, MemsOk, JobOk, FlushOk, WalOk, Faithful, HistoryOk, Healthy, GoodTable, TableEntries,
         Retired;
    ReachableOk(s);
  }

  lemma AcquireIs(s: State)
    requires s.Serving? && s.db.nextSeq >= 1
    ensures Enabled(s, Acquire)
    ensures Next(s, Acquire) == s.(db := s.db.(snapshots := [s.db.nextSeq - 1] + s.db.snapshots))
  {
  }

  lemma ReleaseIs(s: State, i: nat)
    requires s.Serving? && i < |s.db.snapshots|
    ensures Enabled(s, Release(i))
    ensures Next(s, Release(i)) == s.(db := s.db.(snapshots := s.db.snapshots[..i] + s.db.snapshots[i + 1..]))
  {
  }

  lemma RewriteIs(s: State)
    requires s.Serving?
    ensures Enabled(s, CompactManifest)
    ensures Next(s, CompactManifest)
              == s.(disk := s.disk.(log := Rewritten(s.db.version)), past := s.past.(leaked := s.past.leaked + s.db.version.obsolete))
  {
  }

  lemma CleanupIs(s: State, n: nat)
    requires s.Serving? && n in s.db.version.obsolete
    ensures Enabled(s, Cleanup(n))
    ensures Next(s, Cleanup(n))
              == s.(disk := s.disk.(files := s.disk.files - {n}),
                    db := s.db.(version := s.db.version.(obsolete := s.db.version.obsolete - {n})))
  {
  }

  lemma NextNumber(s: State)
    requires s.Serving? && Reachable(s)
    ensures s.db.nextSeq >= 1
  {
    hide Reachable, ManifestOk, MemsOk, JobOk, FlushOk, WalOk, Faithful, HistoryOk, VersionOk;
    ReachableOk(s);
  }

  // ------------------------------------------------------------ a whole flush

  /** A reachable state's memtables can be encoded, and each has its place. */
  lemma OldestImmutable(s: State)
    requires s.Serving? && Reachable(s) && s.db.imms != []
    ensures Encodable(s.db.imms[0]) && |s.db.cuts| > 1 && |s.db.version.levels| == NumLevels
  {
    hide Reachable, ManifestOk, JobOk, FlushOk, WalOk, Faithful, TableEntries, Retired, Present, MaxNum, Count;
    ReachableOk(s);
    FirstImmutable(s.db.mem, s.db.imms, s.db.cuts, s.past.history, s.past.covered);
    HistoryFacts(s.past.history);
    assert forall e :: e in s.db.imms[0] ==> e in Elements(s.db.imms[0]);
  }

  lemma ImmutableSorted(s: State)
    requires s.Serving? && Reachable(s) && s.db.imms != []
    ensures Sorted(s.db.imms[0])
  {
    hide Reachable, ManifestOk, JobOk, FlushOk, WalOk, Faithful, VersionOk, HistoryOk, MemsOk;
    ReachableOk(s);
    FirstTable(s.disk, s.db, s.past);
  }

  /** The state after a flush's four durable steps. */
  function Flushed(s: State, m: TableMeta): State
    requires s.Serving? && s.db.imms != [] && |s.db.cuts| > 1 && |s.db.version.levels| == NumLevels
  {
    Serving(Disk(s.disk.wal, s.disk.log + [AddSSTable(m)] + [SetWALCutoff(m.largestSeq)], s.disk.files[s.db.nextFileNum := s.db.imms[0]]),
            s.db.(version := Cutoff(Add(s.db.version, m), m.largestSeq), imms := s.db.imms[1..], cuts := s.db.cuts[1..],
                  nextFileNum := s.db.nextFileNum + 1),
            s.past.(covered := if s.db.imms[0] == [] then s.past.covered else s.db.cuts[1]))
  }

  ghost function FlushSteps(size: int): seq<Op> { [FlushBegin, FlushWrite(size), FlushLog, FlushCutoff] }

  lemma RunsFour(s: State, a: Op, b: Op, c: Op, d: Op)
    requires Enabled(s, a) && Enabled(Next(s, a), b) && Enabled(Next(Next(s, a), b), c) && Enabled(Next(Next(Next(s, a), b), c), d)
    ensures Runs(s, [a, b, c, d], Next(Next(Next(Next(s, a), b), c), d))
  {
    hide Enabled, Next;
    assert [a, b, c, d][1..] == [b, c, d] && [b, c, d][1..] == [c, d] && [c, d][1..] == [d] && [d][1..] == [];
    var s1 := Next(s, a);
    var s2 := Next(s1, b);
    var s3 := Next(s2, c);
    var s4 := Next(s3, d);
    assert Runs(s4, [], s4);
    assert Runs(s3, [d], s4);
    assert Runs(s2, [c, d], s4);
    assert Runs(s1, [b, c, d], s4);
  }

  lemma FlushRuns(s: State, size: int, m: TableMeta)
    requires s.Serving? && s.db.flush.Idle? && s.db.imms != [] && |s.db.cuts| > 1 && |s.db.version.levels| == NumLevels
    requires Encodable(s.db.imms[0])
    requires s.db.imms[0] != [] ==> s.db.imms[0][0].key.num < MaxSeq && s.db.imms[0][|s.db.imms[0]| - 1].key.num < MaxSeq
    requires m == Flushes.FlushMeta(s.db.nextFileNum, s.db.imms[0], size)
    ensures Runs(s, FlushSteps(size), Flushed(s, m))
  {
    hide Add, Cutoff, Flushes.FlushMeta, Encodable, Runs;
    var s1 := s.(db := s.db.(flush := Building(s.db.nextFileNum), nextFileNum := s.db.nextFileNum + 1));
    var s2 := s1.(disk := s.disk.(files := s.disk.files[s.db.nextFileNum := s.db.imms[0]]), db := s1.db.(flush := Built(m)));
    var s3 := s2.(disk := s2.disk.(log := s.disk.log + [AddSSTable(m)]), db := s2.db.(version := Add(s.db.version, m), flush := Logged(m)));
    assert Enabled(s, FlushBegin) && Next(s, FlushBegin) == s1;
    assert Enabled(s1, FlushWrite(size)) && Next(s1, FlushWrite(size)) == s2;
    assert Enabled(s2, FlushLog) && Next(s2, FlushLog) == s3;
    assert Enabled(s3, FlushCutoff) && Next(s3, FlushCutoff) == Flushed(s, m);
    hide Enabled, Next, Flushed;
    RunsFour(s, FlushBegin, FlushWrite(size), FlushLog, FlushCutoff);
  }

  lemma DropIs(s: State, cutoff: nat)
    requires s.Serving? && |s.disk.wal| > 1 && cutoff <= s.db.version.walCutoff && Kept(s.disk.wal[0], cutoff) == []
    ensures Enabled(s, DropSegment)
    ensures Next(s, DropSegment)
              == s.(disk := s.disk.(wal := s.disk.wal[1..]), past := s.past.(dropped := s.past.dropped + |s.disk.wal[0]|))
  {
    KeptLess(s.disk.wal[0], cutoff, s.db.version.walCutoff);
  }

  lemma {:induction false} KeptLess(bs: seq<Batch>, a: nat, b: nat)
    requires a <= b && Kept(bs, a) == []
    ensures Kept(bs, b) == []
  {
    if bs != [] { KeptLess(bs[1..], a, b); }
  }

  lemma RunsOne(s: State, ops: seq<Op>, t: State, op: Op)
    requires Runs(s, ops, t) && Enabled(t, op)
    ensures Runs(s, ops + [op], Next(t, op))
  {
    hide Enabled, Next;
    assert [op][1..] == [];
    assert Runs(Next(t, op), [], Next(t, op));
    assert Runs(t, [op], Next(t, op));
    RunsJoin(s, ops, t, [op], Next(t, op));
  }

  class DB {
    var wal: seq<seq<Batch>>
    var manifest: seq<Edit>
    var files: map<nat, seq<Entry>>
    var memtable: seq<Entry>
    var memtableSize: nat
    /** The length of the active log segment. */
    var activeSize: nat
    var immutables: seq<seq<Entry>>
    var nextSeq: nat
    var nextFileNum: nat
    const version: VersionSet
    const snapshots: Snapshots.SnapshotList
    const memtableLimit: int
    ghost var cuts: seq<nat>
    ghost var past: Past

    /** The state between operations: no flush and no compaction under way. */
    ghost function Now(): State
      reads this, version, version.levels, snapshots, snapshots.spine
    {
      Serving(Disk(wal, manifest, files),
              Db(version.Abs(), memtable, immutables, cuts, nextSeq, nextFileNum, Snapshots.ReadSeqs(snapshots.spine), Idle, None),
              past)
    }

    ghost predicate Valid()
      reads this, version, version.levels, snapshots, snapshots.spine
    {
      version.Valid() && snapshots.Valid() && Reachable(Now())
    }

    /** A brand new database. */
    constructor (memtableLimit: int)
      ensures Valid() && Now() == Initial && this.memtableLimit == memtableLimit && activeSize == 0
      ensures fresh(version) && fresh(version.levels) && fresh(snapshots)
    {
      this.memtableLimit := memtableLimit;
      version := new VersionSet();
      snapshots := new Snapshots.SnapshotList();
      wal, manifest, files, memtable, memtableSize, immutables := [[]], [], map[], [], 0, [];
      nextSeq, nextFileNum, cuts, past, activeSize := 1, 1, [0], Past([], 0, 0, {}), 0;
      new;
      assert Now() == Initial;
      assert Runs(Initial, [], Initial);
    }

    /** Opens what a crash has left on disk: the engine serves again, from the same
        history, under a run that crashes, recovers and reopens. */
    constructor Open(ghost s: State, crc: Checksum, ghost bss: seq<seq<Batch>>, segments: seq<bytes>,
                     ghost es: seq<Edit>, log: bytes,
                     tables: map<nat, seq<Entry>>, ghost junk: map<nat, seq<Entry>>, memtableLimit: int, sizeOf: Sizer)
      requires Reachable(s) && Enabled(s, Crash(junk)) && tables == FilesOf(s) + junk
      requires OnDisk(s, crc, bss, segments, es, log)
      ensures Valid() && past == s.past && snapshots.spine == [] && this.memtableLimit == memtableLimit
      ensures segments != [] && activeSize == |segments[|segments| - 1]|
      ensures exists ops :: Runs(s, ops, Now())
      ensures Numbered(past.history) && nextSeq == Count(past.history) + 1
      ensures memtableSize == MemSize(memtable) && (memtable == [] || memtableSize <= memtableLimit)
    {
      hide Reachable, Runs, OnDisk, RecoverAll, Start, Recovered, Count, Numbered, Answer, WellFormed, Enabled,
           Concat, AllStorable;
      SomeSegment(s, crc, bss, segments, es, log);
      var rec, next := RecoverFromBytes(s, crc, bss, segments, es, log, tables, junk, memtableLimit, sizeOf);
      BytesReadBack(s, crc, bss, segments, es, log);
      RecoveredWithin(s, junk, memtableLimit, sizeOf);
      ghost var ops, t := ReopenRuns(s, junk, memtableLimit, sizeOf);
      ReachesOn(s, ops, t);
      VersionIsWellFormed(t);
      this.memtableLimit := memtableLimit;
      version := new VersionSet.Replayed(rec.version);
      snapshots := new Snapshots.SnapshotList();
      wal, manifest, files, memtable, memtableSize, immutables := DecodeEach(crc, segments), rec.log, rec.files, rec.mem, rec.size, [];
      nextSeq, nextFileNum, cuts, past := next, rec.maxFileNum + 1, t.db.cuts, s.past;
      activeSize := |segments[|segments| - 1]|;
      new;
      assert Now() == t;
    }

    // ---------------------------------------------------------------- writing

    /** Logging these records next: in a new segment exactly when the active one has
        no room for them. */
    ghost function Logging(records: seq<LogicalRecord>): Op
      reads this`activeSize, this`nextSeq
    {
      Op.Write(records, activeSize + RecordSize(Batch(nextSeq, records)) > MaxSegmentSize)
    }

    ghost function SizeAfter(records: seq<LogicalRecord>): nat
      reads this`activeSize, this`nextSeq
    {
      var size := RecordSize(Batch(nextSeq, records));
      if activeSize + size > MaxSegmentSize then size else activeSize + size
    }

    /** Logs a batch, applies it, and rotates when the memtable has grown to its
        limit. A batch the log rejects changes nothing. */
    method Write(records: seq<LogicalRecord>) returns (error: Option<EncodeError>)
      requires Valid() && nextSeq + |records| < MaxSeq && KnownTypes(records)
      modifies this
      ensures Valid() && error == Rejection(Batch(old(nextSeq), records))
      ensures error.Some? ==> Now() == old(Now()) && activeSize == old(activeSize)
      ensures error.None? ==> Enabled(old(Now()), old(Logging(records)))
      ensures error.None? ==> var s := Next(old(Now()), old(Logging(records)));
                              Now() == if old(memtableSize) + RawSize(records) >= memtableLimit then Next(s, Op.Rotate) else s
      ensures error.None? ==> activeSize == old(SizeAfter(records))
      ensures error.None? ==> var size := old(memtableSize) + RawSize(records);
                              memtableSize == if size >= memtableLimit then 0 else size
      ensures error.None? ==> && Numbered(past.history) && Numbered(old(past.history))
                              && TakesEffect(records, old(past.history), past.history)
    {
      hide TakesEffect, Numbered, Next, Enabled, Reachable, RawSize, Rejection, VersionSet.Valid, VersionSet.Abs,
           Snapshots.SnapshotList.Valid, Snapshots.ReadSeqs;
      error := Rejection(Batch(nextSeq, records));
      if error.Some? { return; }
      ghost var s := Now();
      LogAndApply(records, s);
      if memtableSize >= memtableLimit {
        RotateMemtableLocked();
      }
    }

    method Put(key: bytes, value: bytes) returns (error: Option<EncodeError>)
      requires Valid() && nextSeq + 1 < MaxSeq
      modifies this
      ensures Valid() && error == (if key == [] then Some(EmptyKey) else None)
      ensures error.Some? ==> Now() == old(Now())
      ensures error.None? ==> var op := old(Logging([LogicalRecord(key, value, TypePut)]));
                              && Enabled(old(Now()), op)
                              && Now() == if old(memtableSize) + |key| + |value| + 24 >= memtableLimit
                                          then Next(Next(old(Now()), op), Op.Rotate) else Next(old(Now()), op)
      ensures error.None? ==> && Numbered(past.history) && Numbered(old(past.history))
                              && TakesEffect([LogicalRecord(key, value, TypePut)], old(past.history), past.history)
    {
      hide TakesEffect, Numbered, Next, Enabled, Reachable, VersionSet.Valid, VersionSet.Abs,
           Snapshots.SnapshotList.Valid, Snapshots.ReadSeqs;
      OneRawSize(LogicalRecord(key, value, TypePut));
      error := Write([LogicalRecord(key, value, TypePut)]);
    }

    /** Unlike the other writes, a delete never rotates. */
    method Delete(key: bytes) returns (error: Option<EncodeError>)
      requires Valid() && nextSeq + 1 < MaxSeq
      modifies this
      ensures Valid() && error == (if key == [] then Some(EmptyKey) else None)
      ensures error.Some? ==> Now() == old(Now())
      ensures error.None? ==> var op := old(Logging([LogicalRecord(key, [], TypeDelete)]));
                              Enabled(old(Now()), op) && Now() == Next(old(Now()), op)
      ensures error.None? ==> && Numbered(past.history) && Numbered(old(past.history))
                              && TakesEffect([LogicalRecord(key, [], TypeDelete)], old(past.history), past.history)
    {
      hide TakesEffect, Numbered, Next, Enabled, Reachable, VersionSet.Valid, VersionSet.Abs,
           Snapshots.SnapshotList.Valid, Snapshots.ReadSeqs;
      var records := [LogicalRecord(key, [], TypeDelete)];
      error := Rejection(Batch(nextSeq, records));
      if error.Some? { return; }
      ghost var s := Now();
      LogAndApply(records, s);
    }

    method LogAndApply(records: seq<LogicalRecord>, ghost s: State)
      requires Valid() && s == Now() && nextSeq + |records| < MaxSeq && KnownTypes(records)
      requires Rejection(Batch(nextSeq, records)).None?
      modifies this`wal, this`activeSize, this`memtable, this`memtableSize, this`nextSeq, this`past
      ensures Valid() && Enabled(s, old(Logging(records))) && Now() == Next(s, old(Logging(records)))
      ensures memtableSize == old(memtableSize) + RawSize(records) && activeSize == old(SizeAfter(records))
      ensures Numbered(past.history) && Numbered(old(past.history)) && TakesEffect(records, old(past.history), past.history)
    {
      hide TakesEffect, Numbered, Known, Normalized, KnownTypes, VersionSet.Valid, Reachable, RawSize, RecordSize,
           Rejection, AppendedTo, WithBatch, Next, Enabled, VersionSet.Abs, Snapshots.SnapshotList.Valid, Snapshots.ReadSeqs;
      ghost var op := Logging(records);
      WriteEnabled(s, records, op.newSegment);
      WriteIs(s, records, op.newSegment);
      LogBatch(records);
      memtable, memtableSize := InsertRecords(memtable, memtableSize, nextSeq, records);
      past := past.(history := past.history + [NewBatch(s.db, records)]);
      nextSeq := nextSeq + |records|;
      OneStep(s, op);
      WriteTakesEffect(s, records, op.newSegment, Now());
    }

    /** The batch at the end of the log. */
    method LogBatch(records: seq<LogicalRecord>)
      requires wal != []
      modifies this`wal, this`activeSize
      ensures wal == AppendedTo(old(wal), Normalized(Batch(nextSeq, records)), old(Logging(records)).newSegment)
      ensures activeSize == old(SizeAfter(records))
    {
      hide RecordSize, AppendedTo;
      var batch := Batch(nextSeq, records);
      var newSegment := activeSize + RecordSize(batch) > MaxSegmentSize;
      wal := AppendedTo(wal, Normalized(batch), newSegment);
      activeSize := if newSegment then RecordSize(batch) else activeSize + RecordSize(batch);
    }

    /** One insert per record, numbered on from seqNum. */
    static method InsertRecords(mem: seq<Entry>, size: nat, seqNum: nat, records: seq<LogicalRecord>)
      returns (mem': seq<Entry>, size': nat)
      requires KnownTypes(records) && records != []
      ensures Known(Normalized(Batch(seqNum, records))) && mem' == WithBatch(mem, Normalized(Batch(seqNum, records)))
      ensures size' == size + RawSize(records)
    {
      hide InsertSorted;
      ghost var b := Normalized(Batch(seqNum, records));
      mem', size' := mem, size;
      for i := 0 to |records|
        invariant WithRecords(mem', b, i) == WithBatch(mem, b)
        invariant size' == size + RawSize(records[..i])
      {
        var r := records[i];
        assert records[..i + 1][..i] == records[..i];
        var typ := if r.typ == TypeDelete then Tombstone else Value;
        mem' := InsertSorted(mem', Entry(InternalKey(r.key, seqNum + i, typ), Normal(r).value));
        size' := size' + |r.key| + 8 + |r.value| + 16;
      }
      assert records[..|records|] == records;
    }

    method RotateMemtableLocked()
      requires Valid()
      modifies this`immutables, this`memtable, this`memtableSize, this`cuts
      ensures Valid() && Now() == Next(old(Now()), Op.Rotate)
      ensures memtableSize == 0 && past == old(past)
    {
      hide Reachable, Next, Enabled, VersionSet.Valid, VersionSet.Abs, Snapshots.SnapshotList.Valid, Snapshots.ReadSeqs;
      ghost var s := Now();
      RotateIs(s);
      immutables := immutables + [memtable];
      memtable, memtableSize := [], 0;
      cuts := cuts + [|past.history|];
      OneStep(s, Op.Rotate);
    }

    // ---------------------------------------------------------------- reading

    /** A read returns what the history says at the snapshot's number, or at the
        last write when there is no snapshot. */
    method GetWithOptions(key: bytes, snapshot: Snapshots.Snapshot?) returns (value: Option<bytes>)
      requires Valid() && (snapshot != null ==> snapshot in snapshots.spine)
      ensures Numbered(past.history)
      ensures value == Answer(Entire(past.history), key, if snapshot == null then Count(past.history) else snapshot.readSeq)
    {
      hide Reachable, AllSources, Opened, Floor, Count, Entire, Describes, Sources, Answer, Numbered,
           VersionSet.Valid, Snapshots.SnapshotList.Valid;
      ghost var s := Now();
      var metas := version.GetAllTables();
      var tables := OpenTables(metas);
      ghost var r := if snapshot == null then Count(past.history) else snapshot.readSeq;
      ReadIs(s, tables, key, r);
      if snapshot == null { LatestAboveFloor(s); } else { HeldAboveFloor(snapshot); }
      value := Reads.GetWithOptions([memtable] + immutables, tables, key, if snapshot == null then None else Some(snapshot.readSeq));
    }

    /** A full scan: in ascending order, exactly the pairs that point reads under the
        same snapshot return, by the history as it is when the iterator is made. */
    method NewIterator(snapshot: Snapshots.Snapshot?) returns (it: DbIterator)
      requires Valid() && (snapshot != null ==> snapshot in snapshots.spine)
      ensures fresh(it) && fresh(it.inner) && fresh(it.inner.rest) && fresh(it.inner.valid)
      ensures it.Valid() && !it.inner.initialized && Coherent(Union(it.inner.sources)) && Numbered(past.history)
      ensures Scans(it.Full(), Entire(past.history), if snapshot == null then Count(past.history) else snapshot.readSeq, None, None, None)
    {
      hide Reachable, AllSources, Opened, Floor, Count, Entire, Describes, Sources, Answer, Numbered,
           VersionSet.Valid, Snapshots.SnapshotList.Valid, Scans, Emission, Live, FilterAll, DbIterator.Valid;
      ghost var s := Now();
      var metas := version.GetAllTables();
      var tables := OpenTables(metas);
      ghost var r := if snapshot == null then Count(past.history) else snapshot.readSeq;
      if snapshot == null { LatestAboveFloor(s); } else { HeldAboveFloor(snapshot); }
      ReadIs(s, tables, [], r);
      var bound := if snapshot == null then None else Some(snapshot.readSeq);
      it := Reads.NewIterator([memtable] + immutables, tables, bound);
      ScanIs(s, tables, bound, r);
    }

    method NewRangeIterator(start: Option<bytes>, end: Option<bytes>, snapshot: Snapshots.Snapshot?)
      returns (it: ScanIterator)
      requires Valid() && (snapshot != null ==> snapshot in snapshots.spine)
      ensures fresh(it) && fresh(it.inner) && fresh(it.inner.inner) && fresh(it.inner.inner.rest) && fresh(it.inner.inner.valid)
      ensures it.Valid() && Numbered(past.history)
      ensures Scans(it.Full(), Entire(past.history), if snapshot == null then Count(past.history) else snapshot.readSeq, start, end, None)
    {
      it := NewScan(start, end, None, snapshot);
    }

    method NewPrefixIterator(prefix: Option<bytes>, snapshot: Snapshots.Snapshot?) returns (it: ScanIterator)
      requires Valid() && (snapshot != null ==> snapshot in snapshots.spine)
      ensures fresh(it) && fresh(it.inner) && fresh(it.inner.inner) && fresh(it.inner.inner.rest) && fresh(it.inner.inner.valid)
      ensures it.Valid() && Numbered(past.history)
      ensures Scans(it.Full(), Entire(past.history), if snapshot == null then Count(past.history) else snapshot.readSeq, None, None, prefix)
    {
      it := NewScan(None, None, prefix, snapshot);
    }

    method NewScan(start: Option<bytes>, end: Option<bytes>, prefix: Option<bytes>, snapshot: Snapshots.Snapshot?)
      returns (it: ScanIterator)
      requires Valid() && (snapshot != null ==> snapshot in snapshots.spine)
      ensures fresh(it) && fresh(it.inner) && fresh(it.inner.inner) && fresh(it.inner.inner.rest) && fresh(it.inner.inner.valid)
      ensures it.Valid() && Numbered(past.history)
      ensures Scans(it.Full(), Entire(past.history), if snapshot == null then Count(past.history) else snapshot.readSeq, start, end, prefix)
    {
      hide Reachable, Count, Entire, Numbered, VersionSet.Valid, Snapshots.SnapshotList.Valid, Scans, Emission, Live,
           Clip, Now, ScanIterator.Valid;
      var base := NewIterator(snapshot);
      ClipScans(base.Full(), Entire(past.history), if snapshot == null then Count(past.history) else snapshot.readSeq, start, end, prefix);
      it := new ScanIterator(base, start, end, prefix);
    }

    lemma HeldAboveFloor(snapshot: Snapshots.Snapshot)
      requires snapshot in snapshots.spine
      ensures snapshot.readSeq >= Floor(Now().db)
    {
      var i :| 0 <= i < |snapshots.spine| && snapshots.spine[i] == snapshot;
      assert Snapshots.ReadSeqs(snapshots.spine)[i] == snapshot.readSeq;
      SnapshotsAboveFloor(Now(), snapshot.readSeq);
    }

    /** Opens the file of every table, newest number first. */
    method OpenTables(metas: seq<TableMeta>) returns (tables: seq<Table>)
      requires Valid() && metas == All(Now().db.version.levels)
      ensures Opened(tables, metas, files)
      ensures Descending(seq(|tables|, i requires 0 <= i < |tables| => tables[i].meta))
    {
      hide Reachable, SortDescending, Descending, VersionSet.Valid, Snapshots.SnapshotList.Valid;
      TablesPresent(Now());
      var sorted := SortDescending(metas);
      SortedDescending(metas);
      var fs := files;
      tables := seq(|sorted|, i requires 0 <= i < |sorted| && sorted[i] in metas && sorted[i].fileNum in fs => Table(sorted[i], fs[sorted[i].fileNum]));
      assert seq(|tables|, i requires 0 <= i < |tables| => tables[i].meta) == sorted;
      forall m | m in metas ensures exists t :: t in tables && t.meta == m {
        var i :| 0 <= i < |sorted| && sorted[i] == m;
        assert tables[i].meta == m && tables[i] in tables;
      }
    }

    method Get(key: bytes) returns (value: Option<bytes>)
      requires Valid()
      ensures Numbered(past.history) && value == Answer(Entire(past.history), key, Count(past.history))
    {
      value := GetWithOptions(key, null);
    }

    // -------------------------------------------------------------- snapshots

    method GetSnapshot() returns (s: Snapshots.Snapshot)
      requires Valid()
      modifies snapshots, snapshots.spine
      ensures Valid() && Enabled(old(Now()), Acquire) && Now() == Next(old(Now()), Acquire)
      ensures fresh(s) && snapshots.spine == [s] + old(snapshots.spine) && s.readSeq == nextSeq - 1
    {
      hide Reachable, Next, Enabled, VersionSet.Valid, VersionSet.Abs, Snapshots.SnapshotList.Valid;
      ghost var before := Now();
      NextNumber(before);
      AcquireIs(before);
      s := snapshots.GetSnapshot(nextSeq);
      assert Snapshots.ReadSeqs(snapshots.spine) == [nextSeq - 1] + before.db.snapshots;
      OneStep(before, Acquire);
    }

    method ReleaseSnapshot(s: Snapshots.Snapshot, ghost i: nat)
      requires Valid() && i < |snapshots.spine| && snapshots.spine[i] == s
      modifies snapshots, snapshots.spine
      ensures Valid() && i < |old(Now()).db.snapshots| && Now() == Next(old(Now()), Release(i))
    {
      hide Reachable, Next, Enabled, VersionSet.Valid, VersionSet.Abs, Snapshots.SnapshotList.Valid;
      ghost var before := Now();
      ReleaseIs(before, i);
      snapshots.ReleaseSnapshot(s, i);
      assert Snapshots.ReadSeqs(snapshots.spine) == before.db.snapshots[..i] + before.db.snapshots[i + 1..];
      OneStep(before, Release(i));
    }

    // --------------------------------------------------------------- manifest

    /** Rewrites the manifest as the live tables and the cutoff. */
    method CompactManifest()
      requires Valid()
      modifies this`manifest, this`past
      ensures Valid() && Now() == Next(old(Now()), Op.CompactManifest)
    {
      hide Reachable, Next, Enabled, VersionSet.Valid, Snapshots.SnapshotList.Valid, Snapshots.ReadSeqs;
      ghost var before := Now();
      RewriteIs(before);
      var metas := version.GetAllTables();
      manifest := AddAll(metas) + [SetWALCutoff(version.walCutoff)];
      past := past.(leaked := past.leaked + version.obsolete);
      OneStep(before, Op.CompactManifest);
    }

    /** Deletes the files of removed tables and forgets their numbers. */
    method CleanupObsoleteFiles()
      requires Valid()
      modifies this`files, version`obsolete
      ensures Valid() && version.obsolete == {} && files == old(files) - old(version.obsolete)
    {
      hide Reachable, Next, Enabled, Snapshots.SnapshotList.Valid, Snapshots.ReadSeqs, WellFormed;
      while version.obsolete != {}
        invariant Valid() && version.obsolete <= old(version.obsolete)
        invariant files == old(files) - (old(version.obsolete) - version.obsolete)
        decreases |version.obsolete|
      {
        ghost var before := Now();
        var n :| n in version.obsolete;
        CleanupIs(before, n);
        files := files - {n};
        version.Forget(n);
        OneStep(before, Cleanup(n));
      }
    }

    // ----------------------------------------------------------------- flushing

    /** One turn of the background flush: the oldest immutable memtable becomes a
        level-0 table, the cutoff moves to its greatest number, and with it go the
        leading log segments that number covers, all of them but the last. */
    method FlushOldest(size: int) returns (ghost ops: seq<Op>)
      requires Valid() && immutables != []
      modifies this`manifest, this`files, this`immutables, this`nextFileNum, this`cuts, this`past, this`wal, version`walCutoff, version.levels
      ensures Valid() && Runs(old(Now()), ops, Now()) && FlushSteps(size) <= ops
      ensures forall i :: 4 <= i < |ops| ==> ops[i] == DropSegment
      ensures immutables == old(immutables)[1..] && past.history == old(past.history)
      ensures var cutoff := HighSeq(old(immutables)[0]);
              if cutoff > 0 then LeftBy(wal, old(wal), cutoff) else wal == old(wal)
    {
      hide Reachable, Runs, Next, Enabled, VersionSet.Valid, VersionSet.Abs, Snapshots.SnapshotList.Valid,
           Snapshots.ReadSeqs, Now, LeftBy;
      ghost var before := Now();
      var cutoff := CommitFlush(size);
      ghost var middle := Now();
      ops := FlushSteps(size);
      if cutoff > 0 {
        ghost var drops := Truncate(cutoff);
        RunsJoin(before, ops, middle, drops, Now());
        ops := ops + drops;
      }
    }

    method CommitFlush(size: int) returns (cutoff: nat)
      requires Valid() && immutables != []
      modifies this`manifest, this`files, this`immutables, this`nextFileNum, this`cuts, this`past, version`walCutoff, version.levels
      ensures Valid() && Runs(old(Now()), FlushSteps(size), Now()) && cutoff <= version.walCutoff
      ensures immutables == old(immutables)[1..] && past.history == old(past.history)
      ensures cutoff == HighSeq(old(immutables)[0])
    {
      hide Reachable, Runs, Next, Enabled, Encodable, Flushes.FlushMeta, Flushed, Snapshots.SnapshotList.Valid,
           Snapshots.ReadSeqs, VersionSet.Valid, VersionSet.Abs;
      ghost var before := Now();
      OldestImmutable(before);
      ImmutableSorted(before);
      FlushedTable(nextFileNum, immutables[0], size);
      var meta := Flushes.FlushMeta(nextFileNum, immutables[0], size);
      FlushRuns(before, size, meta);
      ReachesOn(before, FlushSteps(size), Flushed(before, meta));
      cutoff := meta.largestSeq;
      StoreFlush(meta);
    }

    /** The file, the two manifest records, the version and the list of immutable
        memtables. */
    method StoreFlush(meta: TableMeta)
      requires version.Valid() && immutables != [] && |cuts| > 1
      modifies this`manifest, this`files, this`immutables, this`nextFileNum, this`cuts, this`past, version`walCutoff, version.levels
      ensures version.Valid() && |old(Now()).db.version.levels| == NumLevels && Now() == Flushed(old(Now()), meta)
      ensures immutables == old(immutables)[1..] && past.history == old(past.history) && meta.largestSeq <= version.walCutoff
    {
      hide Add, Snapshots.SnapshotList.Valid, Snapshots.ReadSeqs, WellFormed;
      files := files[nextFileNum := immutables[0]];
      nextFileNum := nextFileNum + 1;
      LogFlush(meta);
      past := past.(covered := if immutables[0] == [] then past.covered else cuts[1]);
      immutables := immutables[1..];
      cuts := cuts[1..];
    }

    /** The table first, then the cutoff, in the version and in the manifest. */
    method LogFlush(meta: TableMeta)
      requires version.Valid()
      modifies this`manifest, version`walCutoff, version.levels
      ensures version.Valid() && |old(version.Abs()).levels| == NumLevels
      ensures version.Abs() == Cutoff(Add(old(version.Abs()), meta), meta.largestSeq)
      ensures manifest == old(manifest) + [AddSSTable(meta)] + [SetWALCutoff(meta.largestSeq)]
      ensures meta.largestSeq <= version.walCutoff
    {
      hide Add, WellFormed;
      var _ := version.AddTable(meta);
      manifest := manifest + [AddSSTable(meta)];
      manifest := manifest + [SetWALCutoff(meta.largestSeq)];
      version.SetWALCutoff(meta.largestSeq);
    }

    /** Deletes log segments from the front, never the last, while the cutoff covers
        all of them. */
    method Truncate(cutoff: nat) returns (ghost ops: seq<Op>)
      requires Valid() && cutoff <= version.walCutoff
      modifies this`wal, this`past
      ensures Valid() && Runs(old(Now()), ops, Now()) && forall i :: 0 <= i < |ops| ==> ops[i] == DropSegment
      ensures LeftBy(wal, old(wal), cutoff)
      ensures past.history == old(past.history)
    {
      hide Covers, Kept, Reachable, Runs, Next, Enabled, Snapshots.SnapshotList.Valid, Snapshots.ReadSeqs, VersionSet.Valid,
           VersionSet.Abs;
      ghost var before := Now();
      ops := [];
      NoSteps(before);
      while |wal| > 1 && Kept(wal[0], cutoff) == []
        invariant Valid() && Runs(before, ops, Now()) && forall i :: 0 <= i < |ops| ==> ops[i] == DropSegment
        invariant past.history == old(past.history)
        invariant (old(wal) != [] ==> wal != []) && |wal| <= |old(wal)|
        invariant wal == old(wal)[|old(wal)| - |wal|..]
        invariant forall i :: 0 <= i < |old(wal)| - |wal| ==> Covers(old(wal)[i], cutoff)
        decreases |wal|
      {
        ghost var s := Now();
        KeptNone(wal[0], cutoff);
        DropIs(s, cutoff) by { CutoffOf(); }
        past := past.(dropped := past.dropped + |wal[0]|);
        wal := wal[1..];
        OneStep(s, DropSegment);
        RunsOne(before, ops, s, DropSegment);
        ops := ops + [DropSegment];
      }
      if wal != [] { KeptNone(wal[0], cutoff); }
    }

    lemma CutoffOf()
      ensures Now().db.version.walCutoff == version.walCutoff
    {
    }
  }

  lemma NoSteps(s: State)
    ensures Runs(s, [], s)
  {
  }
}
