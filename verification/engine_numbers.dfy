/** File numbers over whole runs: the largest live number never goes down, so no
    number that was ever logged is given out again, and what a rewritten manifest
    has forgotten stays apart from all it goes on to name. */
module EngineNumbers {
  import opened InternalKeys
  import opened Versions
  import opened VersionSets
  import opened Reads
  import opened TableMetas
  import opened WalRecords
  import opened WalLogs
  import opened Histories
  import opened Recoveries
  import opened Compactions
  import opened CompactionCommits
  import opened Engine
  import opened EngineInvariant
  import opened EngineSteps
  import opened EngineFlush
  import opened EngineCompaction
  import opened EngineRuns
  import Flushes

  ghost function VersionOf(s: State): Version {
    match s
    case Serving(_, db, _) => db.version
    case Recovering(_, rec, _, _, _, _) => rec.version
  }

  ghost function LiveTables(s: State): seq<TableMeta> { All(VersionOf(s).levels) }

  /** The number the next file gets. */
  ghost function NextNumber(s: State): nat {
    match s
    case Serving(_, db, _) => db.nextFileNum
    case Recovering(_, rec, _, _, _, _) => rec.maxFileNum + 1
  }

  /** Numbers taken and not yet logged. */
  ghost function Pending(s: State): set<nat> {
    if s.Serving? then FlushNum(s.db.flush) + (if s.db.job.Some? then Nums(Metas(s.db.job.value.outputs)) else {})
    else {}
  }

  /** Nothing a rewrite has forgotten is live, named by the manifest since, or
      about to be. */
  ghost predicate Unleaked(v: Version, log: seq<Edit>, pending: set<nat>, leaked: set<nat>) {
    && Retired(leaked, All(v.levels))
    && Replay(EmptyVersion, log).obsolete !! leaked && pending !! leaked
  }

  ghost predicate Forgotten(s: State) {
    Unleaked(VersionOf(s), LogOf(s), Pending(s), s.past.leaked)
  }

  // ---------------------------------------------------------------- one step

  /** What the invariant says of numbers. */
  lemma Numbers(s: State)
    requires Inv(s)
    ensures Healthy(VersionOf(s)) && ManifestOk(LogOf(s), VersionOf(s), s.past.leaked)
    ensures Retired(VersionOf(s).obsolete, LiveTables(s)) && MaxNum(LiveTables(s)) < NextNumber(s)
    ensures s.Serving? ==> forall n :: n in Pending(s) ==> Fresh(n, s.disk.log, s.db.version, s.db.nextFileNum)
  {
    hide Healthy, ManifestOk, Retired, Fresh, HistoryOk, MemsOk, Faithful, WalOk, MaxNum, GoodTable, CapturedOk,
         OthersOk, TableEntries, Present, Replay, Distinct, FileHolds, All;
    if s.Serving? && s.db.job.Some? {
      var job := s.db.job.value;
      forall n | n in Nums(Metas(job.outputs)) ensures Fresh(n, s.disk.log, s.db.version, s.db.nextFileNum) {
        var t :| t in Metas(job.outputs) && t.fileNum == n;
        var i :| 0 <= i < |job.outputs| && Metas(job.outputs)[i] == t;
        assert OutputOk(job.outputs[i], job, s.disk.log, s.disk.files, s.db.version, s.db.nextFileNum, s.db.flush);
      }
    }
  }

  /** The levels stay, the manifest names no new obsolete number, and a number
      taken is the next one. */
  lemma SameTables(v: Version, w: Version, log: seq<Edit>, log': seq<Edit>, pending: set<nat>, pending': set<nat>,
                   leaked: set<nat>, n: nat)
    requires Unleaked(v, log, pending, leaked) && v.levels == w.levels && MaxNum(All(v.levels)) < n
    requires Replay(EmptyVersion, log').obsolete == Replay(EmptyVersion, log).obsolete
    requires forall k :: k in pending' ==> k in pending || k == n
    ensures Unleaked(w, log', pending', leaked)
  {
    hide Replay, MaxNum;
  }

  lemma OneTableMore(v: Version, m: TableMeta, log: seq<Edit>, pending: set<nat>, pending': set<nat>, leaked: set<nat>)
    requires Healthy(v) && m.level < NumLevels
    ensures MaxNum(All(v.levels)) <= MaxNum(All(Add(v, m).levels))
    ensures (Unleaked(v, log, pending, leaked) && m.fileNum !in leaked && pending' <= pending) ==>
              Unleaked(Add(v, m), log + [AddSSTable(m)], pending', leaked)
  {
    hide OrderedBySmallest, Distinct, Add, Replay, MaxNum, All;
    AddTables(v, m);
    var ts, us := All(v.levels), All(Add(v, m).levels);
    MaxNumGrows(ts, us);
    AddedLog(m, log);
    AddObsolete(Replay(EmptyVersion, log), m);
    if Retired(leaked, ts) && m.fileNum !in leaked { RetiredGrows(leaked, ts, us, m); }
  }

  lemma AddObsolete(v: Version, m: TableMeta)
    requires |v.levels| == NumLevels
    ensures Add(v, m).obsolete == v.obsolete
  {
  }

  lemma SwappedRetired(leaked: set<nat>, v: Version, w: Version, inputs: seq<TableMeta>, outs: seq<TableMeta>)
    requires Retired(leaked, All(v.levels)) && (forall t :: t in inputs ==> t in All(v.levels)) && Nums(outs) !! leaked
    requires Committed(v, w, inputs, outs) && MaxNum(All(v.levels)) <= MaxNum(All(w.levels))
    ensures Retired(leaked, All(w.levels)) && Nums(inputs) !! leaked
  {
    hide Healthy, MaxNum, All;
    forall n, t | n in leaked && t in All(w.levels) ensures t.fileNum != n {
      if t in outs { assert t.fileNum in Nums(outs); }
    }
  }

  /** Inputs leave, outputs join. */
  lemma TablesSwapped(v: Version, w: Version, inputs: seq<TableMeta>, outs: seq<TableMeta>, log: seq<Edit>,
                      leaked: set<nat>,
                      pending: set<nat>, pending': set<nat>)
    requires Healthy(v) && Addable(v, outs) && (forall t :: t in inputs ==> t in All(v.levels)) && ManifestOk(log, v, leaked)
    requires Committed(v, w, inputs, outs) && MaxNum(All(v.levels)) <= MaxNum(All(w.levels))
    requires Unleaked(v, log, pending, leaked) && Nums(outs) <= pending && pending' <= pending
    ensures Unleaked(w, log + CommitEdits(inputs, outs), pending', leaked)
  {
    hide Healthy, Addable, ManifestOk, MaxNum, Replay, CommitEdits, All, Nums, Retired, Committed;
    CommitReplay(v, log, leaked, inputs, outs);
    SwappedRetired(leaked, v, w, inputs, outs);
  }

  lemma CommitStep(s: State)
    requires Inv(s) && s.Serving? && Enabled(s, CompactCommit)
    ensures MaxNum(LiveTables(s)) <= MaxNum(LiveTables(Next(s, CompactCommit)))
    ensures Forgotten(s) ==> Forgotten(Next(s, CompactCommit))
  {
    hide HistoryOk, MemsOk, Faithful, WalOk, MaxNum, VersionOk, ManifestOk, OutputsOk, CapturedOk, OthersOk, FlushOk,
         Unleaked, CommitEdits, Replay, Survivors, OutputEntries, InputEntries, Committed, Healthy, Addable, All;
    var job, v, n := s.db.job.value, s.db.version, s.db.nextFileNum;
    var outs := Metas(job.outputs);
    var w := Replay(v, CommitEdits(job.inputs, outs));
    CommitLevels(s.disk, v, n, s.db.flush, job, s.past.history, s.past.covered, s.past.leaked, w, outs,
                 s.disk.log + CommitEdits(job.inputs, outs));
    OutputTables(job, s.disk.log, s.disk.files, v, n, s.db.flush);
    LiveInputs(job, s.disk.files, v);
    forall t | t in outs ensures t.fileNum < n { FreshFacts(t.fileNum, s.disk.log, v, n); }
    CommitMaxNum(v, w, job.inputs, outs, n);
    if Forgotten(s) {
      TablesSwapped(v, w, job.inputs, outs, s.disk.log, s.past.leaked, Pending(s), FlushNum(s.db.flush));
      assert Pending(Next(s, CompactCommit)) == FlushNum(s.db.flush);
    }
  }

  lemma LiveInputs(job: Job, files: map<nat, seq<Entry>>, v: Version)
    requires CapturedOk(job, files, v)
    ensures forall t :: t in job.inputs ==> t in All(v.levels)
  {
  }

  /** Steps of a serving engine that leave the levels as they are. */
  lemma QuietStep(s: State, op: Op)
    requires Inv(s) && s.Serving? && Enabled(s, op)
    requires !op.FlushLog? && !op.CompactCommit? && !op.CompactManifest? && !op.Crash?
    ensures Next(s, op).Serving? && Next(s, op).db.version.levels == s.db.version.levels && Next(s, op).past.leaked == s.past.leaked
    ensures Replay(EmptyVersion, Next(s, op).disk.log).obsolete == Replay(EmptyVersion, s.disk.log).obsolete
    ensures forall k :: k in Pending(Next(s, op)) ==> k in Pending(s) || k == s.db.nextFileNum
  {
    hide Inv, Replay, WithBatch, AppendedTo, Rewritten, BeginJob, Survivors, Normalized, Storable, Encodable,
         Rejection, Resurrects, Kept, MetaOf, Flushes.FlushMeta, Floor;
    match op {
      case FlushCutoff => CutLog(s.db.flush.meta.largestSeq, s.disk.log);
      case CompactBegin(level) => NoOutputs(s, level);
      case CompactOutput(entries, size) => MoreOutputs(s.db.job.value, entries, s.db.nextFileNum, size);
      case FlushWrite(size) => SameNumber(s.db.flush.fileNum, s.db.imms[0], size);
      case _ =>
    }
  }

  lemma NoOutputs(s: State, level: nat)
    requires s.Serving? && |s.db.version.levels| == NumLevels && level < NumLevels - 1
    ensures forall n :: n !in Nums(Metas(BeginJob(s, level).outputs))
  {
  }

  lemma MoreOutputs(job: Job, entries: seq<Entry>, n: nat, size: int)
    requires Encodable(entries)
    ensures entries != [] ==> entries[0].key.num < MaxSeq && entries[|entries| - 1].key.num < MaxSeq
    ensures var t := Table(MetaOf(n, job.targetLevel, entries, size), entries);
            Nums(Metas(job.outputs + [t])) == Nums(Metas(job.outputs)) + {n}
  {
    MetaDescribes(n, job.targetLevel, entries, size);
    var t := Table(MetaOf(n, job.targetLevel, entries, size), entries);
    assert Metas(job.outputs + [t]) == Metas(job.outputs) + [t.meta];
    NumsAppend(Metas(job.outputs), t.meta);
  }

  lemma SameNumber(n: nat, im: seq<Entry>, size: int)
    requires Encodable(im)
    ensures im != [] ==> im[0].key.num < MaxSeq && im[|im| - 1].key.num < MaxSeq
    ensures Flushes.FlushMeta(n, im, size).fileNum == n
  {
    MetaDescribes(n, 0, im, size);
  }

  lemma RewriteStep(s: State)
    requires Inv(s) && s.Serving? && Enabled(s, CompactManifest)
    ensures LiveTables(Next(s, CompactManifest)) == LiveTables(s)
    ensures Forgotten(s) ==> Forgotten(Next(s, CompactManifest))
  {
    hide Inv, Rewritten, Replay, Healthy, All, MaxNum, ManifestOk;
    Numbers(s);
    Rewrites(s.db.version);
  }

  lemma Rewrites(v: Version)
    requires Healthy(v)
    ensures forall n :: n !in Replay(EmptyVersion, Rewritten(v)).obsolete
  {
    hide Rewritten, Replay;
    RewriteReplays(v);
  }

  lemma CrashStep(s: State, junk: map<nat, seq<Entry>>)
    requires Inv(s) && Enabled(s, Crash(junk))
    ensures LiveTables(Next(s, Crash(junk))) == LiveTables(s)
    ensures Forgotten(s) ==> Forgotten(Next(s, Crash(junk)))
  {
    hide Inv, Replay, Healthy, All, MaxNum, MaxLargest, Retired;
    Numbers(s);
  }

  /** A page is one more table, under the number after the largest. */
  lemma PageIs(rec: Rec, b: Batch, limit: int, sizeOf: Sizer)
    requires Storable(b) && Encodable(rec.mem) && |rec.version.levels| == NumLevels
    ensures var r := RecoverBatch(rec, b, limit, sizeOf);
            || (r.version == rec.version && r.log == rec.log)
            || exists m :: && r.version == Add(rec.version, m) && r.log == rec.log + [AddSSTable(m)]
                           && m.level == 0 && m.fileNum == rec.maxFileNum + 1
  {
    hide WithBatch, BatchMax, BatchSize, Add, LowSeq, HighSeq;
    if BatchMax(b) > rec.version.walCutoff {
      WithBatchAmong(rec.mem, b);
      var r := InsertBatch(rec, b);
      if r.size > limit {
        MetaDescribes(r.maxFileNum + 1, 0, r.mem, 0);
        var m := MetaOf(r.maxFileNum + 1, 0, r.mem, sizeOf(r.mem));
        assert Page(r, sizeOf).version == Add(rec.version, m);
      }
    }
  }

  lemma RecoverIs(s: State, limit: int, sizeOf: Sizer)
    requires Enabled(s, RecoverNext(limit, sizeOf))
    ensures s.Recovering? && s.todo != [] && Storable(s.todo[0]) && Encodable(s.rec.mem) && |s.rec.version.levels| == NumLevels
    ensures var t := Next(s, RecoverNext(limit, sizeOf));
            t.Recovering? && t.rec == RecoverBatch(s.rec, s.todo[0], limit, sizeOf) && t.past == s.past
  {
    hide RecoverBatch, Storable, Encodable;
  }

  lemma RecoverStep(s: State, limit: int, sizeOf: Sizer)
    requires Inv(s) && Enabled(s, RecoverNext(limit, sizeOf))
    ensures MaxNum(LiveTables(s)) <= MaxNum(LiveTables(Next(s, RecoverNext(limit, sizeOf))))
    ensures Forgotten(s) ==> Forgotten(Next(s, RecoverNext(limit, sizeOf)))
  {
    hide Inv, Replay, All, MaxNum, ManifestOk, WellFormed, Distinct, Unleaked, Add, Next, Enabled, Storable,
         Encodable, RecoverBatch, Retired;
    RecoverIs(s, limit, sizeOf);
    Numbers(s);
    NumberOf(s);
    PageIs(s.rec, s.todo[0], limit, sizeOf);
    var r := Next(s, RecoverNext(limit, sizeOf)).rec;
    if m :| && r.version == Add(s.rec.version, m) && r.log == s.rec.log + [AddSSTable(m)]
            && m.level == 0 && m.fileNum == s.rec.maxFileNum + 1 {
      OneTableMore(s.rec.version, m, s.rec.log, {}, {}, s.past.leaked);
      if Forgotten(s) { AboveIsNew(s.past.leaked, s.rec.version, s.rec.log, m.fileNum); }
    }
  }

  lemma NumberOf(s: State)
    requires Inv(s) && s.Recovering?
    ensures s.rec.maxFileNum == MaxNum(LiveTables(s))
  {
    hide HistoryOk, WalOk, VersionOk, ManifestOk, Faithful, Written, MaxNum, Replay;
  }

  lemma AboveIsNew(leaked: set<nat>, v: Version, log: seq<Edit>, n: nat)
    requires Unleaked(v, log, {}, leaked) && n > MaxNum(All(v.levels))
    ensures n !in leaked
  {
    hide Replay, MaxNum;
  }

  lemma LogIs(s: State)
    requires s.Serving? && Enabled(s, FlushLog)
    ensures s.db.flush.Built? && |s.db.version.levels| == NumLevels
    ensures var m, t := s.db.flush.meta, Next(s, FlushLog);
            && t.Serving? && t.db.version == Add(s.db.version, m) && t.disk.log == s.disk.log + [AddSSTable(m)] && t.past == s.past
            && m.fileNum in Pending(s) && Pending(t) <= Pending(s)
  {
    hide Add, Nums, Metas;
  }

  lemma FlushLogStep(s: State)
    requires Inv(s) && s.Serving? && Enabled(s, FlushLog)
    ensures MaxNum(LiveTables(s)) <= MaxNum(LiveTables(Next(s, FlushLog)))
    ensures Forgotten(s) ==> Forgotten(Next(s, FlushLog))
  {
    hide Inv, Replay, All, MaxNum, ManifestOk, Unleaked, Fresh, Retired, Pending, Next, Enabled, Healthy, Add;
    LogIs(s);
    Numbers(s);
    FlushedLevel(s);
    if Forgotten(s) { PendingIsNew(Pending(s), VersionOf(s), LogOf(s), s.past.leaked); }
    OneTableMore(s.db.version, s.db.flush.meta, s.disk.log, Pending(s), Pending(Next(s, FlushLog)), s.past.leaked);
  }

  lemma PendingIsNew(pending: set<nat>, v: Version, log: seq<Edit>, leaked: set<nat>)
    requires Unleaked(v, log, pending, leaked)
    ensures forall n :: n in pending ==> n !in leaked
  {
  }

  lemma FlushedLevel(s: State)
    requires Inv(s) && s.Serving? && s.db.flush.Built?
    ensures s.db.flush.meta.level == 0
  {
    hide HistoryOk, WalOk, VersionOk, ManifestOk, Faithful, MemsOk, JobOk, Fresh, GoodTable;
  }

  lemma ReopenStep(s: State)
    requires Inv(s) && Enabled(s, Reopen)
    ensures LiveTables(Next(s, Reopen)) == LiveTables(s)
    ensures Forgotten(s) ==> Forgotten(Next(s, Reopen))
  {
    hide Inv, Replay, Retired, All;
  }

  /** No step lowers the largest live number or lets a forgotten one back in. */
  lemma NumbersStep(s: State, op: Op)
    requires Inv(s) && Enabled(s, op)
    ensures MaxNum(LiveTables(s)) <= MaxNum(LiveTables(Next(s, op)))
    ensures Forgotten(s) ==> Forgotten(Next(s, op))
  {
    hide Inv, Next, Enabled, MaxNum, Unleaked, Replay, All, Pending, Retired;
    match op {
      case FlushLog => FlushLogStep(s) by { ServesIt(s, op); }
      case CompactCommit => CommitStep(s) by { ServesIt(s, op); }
      case CompactManifest => RewriteStep(s) by { ServesIt(s, op); }
      case Crash(junk) => CrashStep(s, junk);
      case RecoverNext(limit, sizeOf) => RecoverStep(s, limit, sizeOf);
      case Reopen => ReopenStep(s);
      case _ =>
        ServesIt(s, op);
        Numbers(s);
        QuietStep(s, op);
        var t := Next(s, op);
        if Forgotten(s) {
          SameTables(s.db.version, t.db.version, s.disk.log, t.disk.log, Pending(s), Pending(t), s.past.leaked, s.db.nextFileNum);
        }
    }
  }

  lemma ServesIt(s: State, op: Op)
    requires Enabled(s, op) && !op.Crash? && !op.RecoverNext? && !op.Reopen?
    ensures s.Serving?
  {
    hide BeginJob, Survivors, Storable, Encodable, Rejection, Resurrects, Kept;
  }

  // ---------------------------------------------------------------- whole runs

  lemma {:induction false} NumbersAlong(s: State, ops: seq<Op>, t: State)
    requires Inv(s) && Runs(s, ops, t)
    ensures Inv(t) && MaxNum(LiveTables(s)) <= MaxNum(LiveTables(t))
    ensures Forgotten(s) ==> Forgotten(t)
    decreases |ops|
  {
    hide Inv, Next, Enabled, MaxNum, Forgotten, LiveTables;
    if ops != [] {
      NumbersStep(s, ops[0]);
      NextKeeps(s, ops[0]);
      NumbersAlong(Next(s, ops[0]), ops[1..], t);
    }
  }

  lemma ReachableForgotten(s: State)
    requires Reachable(s)
    ensures Inv(s) && Forgotten(s)
  {
    hide Inv, Runs, MaxNum;
    InitialOk();
    NoTables(EmptyVersion.levels);
    assert Forgotten(Initial) by { assert Replay(EmptyVersion, []) == EmptyVersion; }
    var ops :| Runs(Initial, ops, s);
    NumbersAlong(Initial, ops, s);
  }

  lemma LoggedIsSmall(s: State, n: nat)
    requires ManifestOk(LogOf(s), VersionOf(s), s.past.leaked) && n in LoggedNums(LogOf(s))
    ensures n <= MaxNum(LiveTables(s))
    ensures Retired(Replay(EmptyVersion, LogOf(s)).obsolete, LiveTables(s))
  {
    hide Replay, LoggedNums, MaxNum, All, Retired;
  }

  /** Whatever number the manifest has ever named is at or below the largest live
      one from then on, and so below every number still to be given out: over any
      run, through compactions, rewritten manifests, clean-ups, crashes and
      recoveries. */
  lemma FreshNumbers(s: State, ops: seq<Op>, t: State, n: nat)
    requires Reachable(s) && Runs(s, ops, t) && n in LoggedNums(LogOf(s))
    ensures n <= MaxNum(LiveTables(t)) < NextNumber(t)
    ensures n > 0 ==> exists m :: m in LiveTables(t) && n <= m.fileNum
  {
    hide Reachable, Runs, Inv, MaxNum, LiveTables, NextNumber, LogOf, LoggedNums;
    ReachableOk(s);
    Numbers(s);
    LoggedIsSmall(s, n);
    NumbersAlong(s, ops, t);
    Numbers(t);
    Maxima(LiveTables(t));
  }

  /** No live table is among the obsolete, as they are or as the manifest replays
      them. */
  lemma ObsoleteIsNotLive(s: State, n: nat)
    requires Reachable(s) && (n in VersionOf(s).obsolete || n in Replay(EmptyVersion, LogOf(s)).obsolete)
    ensures n <= MaxNum(LiveTables(s)) && Unused(LiveTables(s), n)
  {
    hide Reachable, Inv, MaxNum, Replay, Unused, Healthy, LoggedNums;
    ReachableOk(s);
    Numbers(s);
  }

  // ------------------------------------------------------ obsolete, as replayed

  /** What the rewrites along a run found obsolete. */
  ghost function RewrittenAway(s: State, ops: seq<Op>): set<nat>
    decreases |ops|
  {
    if ops == [] || !Enabled(s, ops[0]) then {}
    else (if ops[0].CompactManifest? then s.db.version.obsolete else {}) + RewrittenAway(Next(s, ops[0]), ops[1..])
  }

  lemma LeakedStep(s: State, op: Op)
    requires Enabled(s, op)
    ensures Next(s, op).past.leaked == if op.CompactManifest? then s.past.leaked + s.db.version.obsolete else s.past.leaked
  {
    hide Replay, RecoverBatch, WithBatch, AppendedTo, Rewritten, BeginJob, Survivors, Start, Add, Cutoff,
         CommitEdits, Storable, Encodable, Rejection, Resurrects, Kept;
  }

  lemma {:induction false} LeakedAlong(s: State, ops: seq<Op>, t: State)
    requires Runs(s, ops, t)
    ensures t.past.leaked == s.past.leaked + RewrittenAway(s, ops)
    decreases |ops|
  {
    hide Enabled, Next;
    if ops != [] {
      LeakedStep(s, ops[0]);
      LeakedAlong(Next(s, ops[0]), ops[1..], t);
    }
  }

  /** Replaying the log gives the live levels and cutoff at every point, and
      obsolete numbers that cover the live ones exactly when every number a rewrite
      found obsolete has since been cleaned up. */
  lemma ManifestRefinesVersion(s: State)
    requires Reachable(s)
    ensures var v, w := VersionOf(s), Replay(EmptyVersion, LogOf(s));
            && w.levels == v.levels && w.walCutoff == v.walCutoff
            && (v.obsolete <= w.obsolete <==> v.obsolete !! s.past.leaked)
  {
    hide Reachable, Inv, MaxNum, Replay, Healthy, LoggedNums, Retired, LiveTables, Pending;
    ReachableForgotten(s);
    Numbers(s);
  }

  /** The same in terms of the run alone. */
  lemma ObsoleteSuperset(ops: seq<Op>, s: State)
    requires Runs(Initial, ops, s)
    ensures (forall op :: op in ops ==> !op.CompactManifest?) ==> RewrittenAway(Initial, ops) == {}
    ensures var v, w := VersionOf(s), Replay(EmptyVersion, LogOf(s));
            v.obsolete <= w.obsolete <==> v.obsolete !! RewrittenAway(Initial, ops)
  {
    hide Runs, Replay, RewrittenAway;
    assert Reachable(s);
    hide Reachable;
    ManifestRefinesVersion(s);
    LeakedAlong(Initial, ops, s);
    if forall op :: op in ops ==> !op.CompactManifest? { NoRewrites(Initial, ops); }
  }

  lemma {:induction false} NoRewrites(s: State, ops: seq<Op>)
    requires forall op :: op in ops ==> !op.CompactManifest?
    ensures forall n :: n !in RewrittenAway(s, ops)
    decreases |ops|
  {
    hide Enabled, Next;
    if ops != [] && Enabled(s, ops[0]) {
      assert ops[0] in ops && forall op :: op in ops[1..] ==> op in ops;
      NoRewrites(Next(s, ops[0]), ops[1..]);
    }
  }
}
