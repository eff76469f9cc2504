/** The invariant holds of every reachable state. */
module EngineRuns {
  import opened Versions
  import opened VersionSets
  import opened Reads
  import opened TableMetas
  import opened WalRecords
  import opened WalLogs
  import opened Histories
  import opened Recoveries
  import opened Compactions
  import opened CompactionCommits
  import opened Engine
  import opened EngineInvariant
  import opened EngineSteps
  import opened EngineFlush
  import opened EngineWrite
  import opened EngineCompaction
  import opened EngineRecovery
  import Flushes

  // ------------------------------------------------------------ the invariant

  lemma InitialTables()
    ensures Healthy(EmptyVersion) && All(EmptyVersion.levels) == []
    ensures VersionOk(EmptyVersion, map[], [], 0)
    ensures ManifestOk([], EmptyVersion, {}) && MaxNum([]) == 0
  {
    EmptyIsHealthy();
    NoTables(EmptyVersion.levels);
    assert Replay(EmptyVersion, []) == EmptyVersion;
    hide Healthy, All;
  }

  lemma InitialMems()
    ensures HistoryOk([]) && MemsOk([], [], [0], [], 0) && WalOk([[]], [], 0)
    ensures forall floor :: Faithful(TableEntries([], map[]) + MemEntries([], []), floor, [])
  {
    assert Concat([[]]) == [];
    assert TableEntries([], map[]) + MemEntries([], []) == Entire([]);
  }

  lemma InitialOk()
    ensures Inv(Initial)
  {
    InitialTables();
    InitialMems();
    hide Healthy, VersionOk, ManifestOk, HistoryOk, MemsOk, WalOk, Entire, TableEntries, MemEntries, MaxNum, All,
         JobOk, Faithful;
  }

  lemma FirstTable(disk: Disk, db: Db, p: Past)
    requires ServingOk(disk, db, p) && db.imms != []
    ensures Sorted(db.imms[0])
  {
    FirstImmutable(db.mem, db.imms, db.cuts, p.history, p.covered);
  }

  /** Steps of a serving engine. */
  lemma ServesOn(s: State, op: Op)
    requires s.Serving? && !op.Crash? && Enabled(s, op) && ServingOk(s.disk, s.db, s.past)
    ensures Inv(Next(s, op))
  {
    hide ServingOk, RecoveringOk, BeginJob, Survivors, InputEntries, OutputEntries, Normalized, Rejection, Storable,
         Encodable, Replay, Rewritten, CommitEdits, Add, Cutoff, GoodTable, Resurrects, Kept, AppendedTo, WithBatch,
         MetaOf, Flushes.FlushMeta;
    var disk, db, p := s.disk, s.db, s.past;
    match op {
      case Write(records, newSegment) =>
        NewBatchSize(db, records);
        WriteKeeps(disk, db, p, NewBatch(db, records), newSegment);
      case Rotate => RotateKeeps(disk, db, p);
      case FlushBegin => FlushBeginKeeps(disk, db, p);
      case FlushWrite(size) =>
        FirstTable(disk, db, p);
        FlushedTable(db.flush.fileNum, db.imms[0], size);
        assert [db.imms[0]] <= db.imms;
        FlushWriteKeeps(disk, db, p, db.flush.fileNum, db.imms[0], Flushes.FlushMeta(db.flush.fileNum, db.imms[0], size));
      case FlushLog => FlushLogKeeps(disk, db, p, db.flush.meta);
      case FlushCutoff => FlushCutoffKeeps(disk, db, p, db.flush.meta);
      case DropSegment => DropSegmentKeeps(disk, db, p);
      case Acquire => AcquireKeeps(disk, db, p);
      case Release(i) => ReleaseKeeps(disk, db, p, i);
      case CompactBegin(level) => CompactBeginKeeps(disk, db, p, level, BeginJob(s, level));
      case CompactOutput(entries, size) =>
        var job, n := db.job.value, db.nextFileNum;
        OutputTable(n, job.targetLevel, entries, size);
        CompactOutputKeeps(disk, db, p, job, n, Table(MetaOf(n, job.targetLevel, entries, size), entries));
      case CompactCommit =>
        CompactCommitKeeps(disk, db, p, db.job.value, CommitEdits(db.job.value.inputs, Metas(db.job.value.outputs)));
      case CompactManifest => CompactManifestKeeps(disk, db, p);
      case Cleanup(n) => CleanupKeeps(disk, db, p, n);
      case _ =>
    }
  }

  lemma NewBatchSize(db: Db, records: seq<LogicalRecord>)
    ensures NewBatch(db, records).seqStart == db.nextSeq && |NewBatch(db, records).records| == |records|
  {
  }

  lemma CrashOk(s: State, junk: map<nat, seq<Entry>>)
    requires Inv(s) && Enabled(s, Crash(junk))
    ensures Inv(Next(s, Crash(junk)))
  {
    hide ServingOk, RecoveringOk, Replay, Start;
    match s {
      case Serving(disk, db, p) => CrashKeeps(disk, db, p, junk);
      case Recovering(wal, rec, todo, read, begin, p) => CrashAgainKeeps(wal, rec, todo, read, begin, p, junk);
    }
  }

  lemma RecoversOn(s: State, op: Op)
    requires s.Recovering? && !op.Crash? && Enabled(s, op) && Inv(s)
    ensures Inv(Next(s, op))
  {
    hide ServingOk, RecoveringOk, Replay, RecoverBatch, Encodable, Storable;
    match op {
      case RecoverNext(limit, sizeOf) => RecoverNextKeeps(s.wal, s.rec, s.todo, s.read, s.begin, s.past, limit, sizeOf);
      case Reopen => ReopenKeeps(s.wal, s.rec, s.todo, s.read, s.begin, s.past);
      case _ =>
    }
  }

  lemma NextKeeps(s: State, op: Op)
    requires Inv(s) && Enabled(s, op)
    ensures Inv(Next(s, op))
  {
    hide ServingOk, RecoveringOk, Enabled, Next;
    if op.Crash? {
      CrashOk(s, op.junk);
    } else if s.Serving? {
      ServesOn(s, op);
    } else {
      RecoversOn(s, op);
    }
  }

  lemma {:induction false} RunKeeps(s: State, ops: seq<Op>, t: State)
    requires Inv(s) && Runs(s, ops, t)
    ensures Inv(t)
    decreases |ops|
  {
    hide Inv, Enabled, Next;
    if ops != [] {
      NextKeeps(s, ops[0]);
      RunKeeps(Next(s, ops[0]), ops[1..], t);
    }
  }

  lemma ReachableOk(s: State)
    requires Reachable(s)
    ensures Inv(s)
  {
    hide Inv, Runs;
    InitialOk();
    var ops :| Runs(Initial, ops, s);
    RunKeeps(Initial, ops, s);
  }
}
