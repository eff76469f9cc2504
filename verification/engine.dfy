/** The engine as a step machine: what is on disk, what is in memory, and every
    step that moves either, down to the single durable steps of a flush and of
    recovery. A crash may fall between any two steps. */
module Engine {
  import opened Bytes
  import opened InternalKeys
  import opened Versions
  import opened VersionSets
  import opened Reads
  import opened TableMetas
  import opened WalRecords
  import opened WalLogs
  import opened Histories
  import opened Recoveries
  import opened Compactions
  import opened CompactionCommits
  import Flushes
  import Snapshots

  // ------------------------------------------------------------------- states

  /** Log segments (the last one active) as the batches they read back as, the
      manifest records, and the table files by number. */
  datatype Disk = Disk(wal: seq<seq<Batch>>, log: seq<Edit>, files: map<nat, seq<Entry>>)

  /** The flush of the oldest immutable memtable: its number taken, its table
      written, its table logged. */
  datatype Flush = Idle | Building(fileNum: nat) | Built(meta: TableMeta) | Logged(meta: TableMeta)

  /** A compaction under way: what it captured when it started, and the files it
      has written. others is everything outside the inputs at that moment. */
  datatype Job = Job(inputs: seq<TableMeta>, targetLevel: nat, oldest: nat, bottom: bool,
                     outputs: seq<Table>, others: set<Entry>, floor: nat, next: nat)

  /** cuts[i] is the batch with which the i-th memtable begins, the immutable ones
      first and the active one last. */
  datatype Db = Db(version: Version, mem: seq<Entry>, imms: seq<seq<Entry>>, cuts: seq<nat>,
                   nextSeq: nat, nextFileNum: nat, snapshots: seq<nat>, flush: Flush, job: Option<Job>)

  /** What has happened, for stating properties: every batch written, how many of
      them log truncation has dropped, how many the logged cutoff covers, and the
      obsolete numbers a rewritten manifest no longer names. */
  datatype Past = Past(history: seq<Batch>, dropped: nat, covered: nat, leaked: set<nat>)

  /** While recovering, todo is what is left of the log, read is how many batches
      of the history have been passed, and begin is where the memtable begins. */
  datatype State =
    | Serving(disk: Disk, db: Db, past: Past)
    | Recovering(wal: seq<seq<Batch>>, rec: Rec, todo: seq<Batch>, read: nat, begin: nat, past: Past)

  datatype Op =
    | Write(records: seq<LogicalRecord>, newSegment: bool)
    | Rotate
    | FlushBegin
    | FlushWrite(size: int)
    | FlushLog
    | FlushCutoff
    | DropSegment
    | Acquire
    | Release(index: nat)
    | CompactBegin(level: nat)
    | CompactOutput(entries: seq<Entry>, size: int)
    | CompactCommit
    | CompactManifest
    | Cleanup(fileNum: nat)
    | Crash(junk: map<nat, seq<Entry>>)
    | RecoverNext(limit: int, sizeOf: Sizer)
    | Reopen

  const NewDisk := Disk([[]], [], map[])
  const NewDb := Db(EmptyVersion, [], [], [0], 1, 1, [], Idle, None)
  const Initial := Serving(NewDisk, NewDb, Past([], 0, 0, {}))

  // --------------------------------------------------------------- live entries

  ghost function TableEntries(ts: seq<TableMeta>, files: map<nat, seq<Entry>>): set<Entry> {
    set t, e | t in ts && t.fileNum in files && e in files[t.fileNum] :: e
  }

  ghost function MemEntries(imms: seq<seq<Entry>>, mem: seq<Entry>): set<Entry> {
    Union(imms) + Elements(mem)
  }

  /** Everything a reader of a serving state merges. */
  ghost function LiveEntries(s: State): set<Entry>
    requires s.Serving?
  {
    TableEntries(All(s.db.version.levels), s.disk.files) + MemEntries(s.db.imms, s.db.mem)
  }

  /** The number of the last write. */
  function Latest(db: Db): nat {
    if db.nextSeq == 0 then 0 else db.nextSeq - 1
  }

  /** No live snapshot is below the floor, and no later one will be. */
  function Floor(db: Db): nat {
    Snapshots.OldestOf(db.snapshots, Latest(db))
  }

  // -------------------------------------------------------------------- steps

  function NewBatch(db: Db, records: seq<LogicalRecord>): Batch {
    Normalized(Batch(db.nextSeq, records))
  }

  function AppendedTo(wal: seq<seq<Batch>>, b: Batch, newSegment: bool): seq<seq<Batch>>
    requires wal != []
  {
    if newSegment then wal + [[b]] else wal[|wal| - 1 := wal[|wal| - 1] + [b]]
  }

  /** Live tables that a compaction does not take. */
  function Outside(ts: seq<TableMeta>, inputs: seq<TableMeta>): seq<TableMeta> {
    if ts == [] then []
    else
      var front, last := Outside(ts[..|ts| - 1], inputs), ts[|ts| - 1];
      if last in inputs then front else front + [last]
  }

  ghost function BeginJob(s: State, level: nat): Job
    requires s.Serving? && |s.db.version.levels| == NumLevels && level < NumLevels - 1
  {
    var inputs := Inputs(s.db.version, level).value;
    Job(inputs, level + 1, Snapshots.OldestOf(s.db.snapshots, s.db.nextSeq), Bottom(s.db.version.levels, level + 1), [],
        TableEntries(Outside(All(s.db.version.levels), inputs), s.disk.files) + MemEntries(s.db.imms, s.db.mem),
        Floor(s.db), s.db.nextSeq)
  }

  ghost function InputEntries(job: Job, files: map<nat, seq<Entry>>): set<Entry> {
    TableEntries(job.inputs, files)
  }

  ghost function OutputEntries(job: Job): set<Entry> {
    set t, e | t in job.outputs && e in t.entries :: e
  }

  /** When a step can be taken. CompactBegin needs the lock, which a flush holds
      from logging its table to logging its cutoff, and it carries the closure
      hypothesis: with nothing below the target level, no key may be one the
      compaction would resurrect. */
  ghost predicate Enabled(s: State, op: Op) {
    match op
    case Write(records, _) =>
      && s.Serving? && s.disk.wal != []
      && Rejection(Batch(s.db.nextSeq, records)).None? && Storable(NewBatch(s.db, records))
      && s.db.nextSeq + |records| < MaxSeq
    case Rotate => s.Serving?
    case FlushBegin => s.Serving? && s.db.flush.Idle? && s.db.imms != []
    case FlushWrite(_) => s.Serving? && s.db.flush.Building? && s.db.imms != [] && Encodable(s.db.imms[0])
    case FlushLog => s.Serving? && s.db.flush.Built? && |s.db.version.levels| == NumLevels
    case FlushCutoff => s.Serving? && s.db.flush.Logged? && s.db.imms != [] && |s.db.cuts| > 1
    case DropSegment => s.Serving? && |s.disk.wal| > 1 && Kept(s.disk.wal[0], s.db.version.walCutoff) == []
    case Acquire => s.Serving? && s.db.nextSeq >= 1
    case Release(i) => s.Serving? && i < |s.db.snapshots|
    case CompactBegin(level) =>
      && s.Serving? && s.db.job.None? && !s.db.flush.Logged?
      && |s.db.version.levels| == NumLevels && level < NumLevels - 1 && s.db.version.levels[level] != []
      && var job := BeginJob(s, level);
         job.bottom ==> forall k :: !Resurrects(InputEntries(job, s.disk.files), job.others, job.oldest, k)
    case CompactOutput(entries, _) => s.Serving? && s.db.job.Some? && Sorted(entries) && Encodable(entries)
    case CompactCommit =>
      && s.Serving? && s.db.job.Some? && |s.db.version.levels| == NumLevels
      && s.db.job.value.outputs != []
      && OutputEntries(s.db.job.value)
           == Survivors(InputEntries(s.db.job.value, s.disk.files), s.db.job.value.oldest, s.db.job.value.bottom)
    case CompactManifest => s.Serving?
    case Cleanup(n) => s.Serving? && n in s.db.version.obsolete
    case Crash(junk) =>
      forall t :: t in All(Replay(EmptyVersion, LogOf(s)).levels) ==> t.fileNum !in junk
    case RecoverNext(_, _) =>
      && s.Recovering? && s.todo != [] && Storable(s.todo[0]) && Encodable(s.rec.mem) && |s.rec.version.levels| == NumLevels
    case Reopen => s.Recovering? && s.todo == []
  }

  function LogOf(s: State): seq<Edit> {
    match s
    case Serving(disk, _, _) => disk.log
    case Recovering(_, rec, _, _, _, _) => rec.log
  }

  function FilesOf(s: State): map<nat, seq<Entry>> {
    match s
    case Serving(disk, _, _) => disk.files
    case Recovering(_, rec, _, _, _, _) => rec.files
  }

  function WalOf(s: State): seq<seq<Batch>> {
    match s
    case Serving(disk, _, _) => disk.wal
    case Recovering(wal, _, _, _, _, _) => wal
  }

  ghost function Next(s: State, op: Op): State
    requires Enabled(s, op)
  {
    match op
    case Write(records, newSegment) =>
      var b := NewBatch(s.db, records);
      Serving(s.disk.(wal := AppendedTo(s.disk.wal, b, newSegment)),
              s.db.(mem := WithBatch(s.db.mem, b), nextSeq := s.db.nextSeq + |records|),
              s.past.(history := s.past.history + [b]))
    case Rotate =>
      s.(db := s.db.(imms := s.db.imms + [s.db.mem], mem := [], cuts := s.db.cuts + [|s.past.history|]))
    case FlushBegin =>
      s.(db := s.db.(flush := Building(s.db.nextFileNum), nextFileNum := s.db.nextFileNum + 1))
    case FlushWrite(size) =>
      var im := s.db.imms[0];
      MetaDescribes(s.db.flush.fileNum, 0, im, size);
      s.(disk := s.disk.(files := s.disk.files[s.db.flush.fileNum := im]),
         db := s.db.(flush := Built(Flushes.FlushMeta(s.db.flush.fileNum, im, size))))
    case FlushLog =>
      var meta := s.db.flush.meta;
      s.(disk := s.disk.(log := s.disk.log + [AddSSTable(meta)]),
         db := s.db.(version := Add(s.db.version, meta), flush := Logged(meta)))
    case FlushCutoff =>
      var seqNum := s.db.flush.meta.largestSeq;
      s.(disk := s.disk.(log := s.disk.log + [SetWALCutoff(seqNum)]),
         db := s.db.(version := Cutoff(s.db.version, seqNum), imms := s.db.imms[1..], cuts := s.db.cuts[1..], flush := Idle),
         past := s.past.(covered := if s.db.imms[0] == [] then s.past.covered else s.db.cuts[1]))
    case DropSegment =>
      s.(disk := s.disk.(wal := s.disk.wal[1..]), past := s.past.(dropped := s.past.dropped + |s.disk.wal[0]|))
    case Acquire =>
      s.(db := s.db.(snapshots := [s.db.nextSeq - 1] + s.db.snapshots))
    case Release(i) =>
      s.(db := s.db.(snapshots := s.db.snapshots[..i] + s.db.snapshots[i + 1..]))
    case CompactBegin(level) =>
      s.(db := s.db.(job := Some(BeginJob(s, level))))
    case CompactOutput(entries, size) =>
      var job, n := s.db.job.value, s.db.nextFileNum;
      MetaDescribes(n, job.targetLevel, entries, size);
      var t := Table(MetaOf(n, job.targetLevel, entries, size), entries);
      s.(disk := s.disk.(files := s.disk.files[n := entries]),
         db := s.db.(job := Some(job.(outputs := job.outputs + [t])), nextFileNum := n + 1))
    case CompactCommit =>
      var edits := CommitEdits(s.db.job.value.inputs, Metas(s.db.job.value.outputs));
      s.(disk := s.disk.(log := s.disk.log + edits),
         db := s.db.(version := Replay(s.db.version, edits), job := None))
    case CompactManifest =>
      s.(disk := s.disk.(log := Rewritten(s.db.version)), past := s.past.(leaked := s.past.leaked + s.db.version.obsolete))
    case Cleanup(n) =>
      s.(disk := s.disk.(files := s.disk.files - {n}),
         db := s.db.(version := s.db.version.(obsolete := s.db.version.obsolete - {n})))
    case Crash(junk) =>
      Recovering(WalOf(s), Start(LogOf(s), FilesOf(s) + junk), Concat(WalOf(s)), s.past.dropped, s.past.covered, s.past)
    case RecoverNext(limit, sizeOf) =>
      var rec := RecoverBatch(s.rec, s.todo[0], limit, sizeOf);
      var paged := rec.maxFileNum != s.rec.maxFileNum;
      Recovering(s.wal, rec, s.todo[1..], s.read + 1, if paged then s.read + 1 else s.begin, s.past)
    case Reopen =>
      Serving(Disk(s.wal, s.rec.log, s.rec.files),
              Db(s.rec.version, s.rec.mem, [], [s.begin], s.rec.maxSeq + 1, s.rec.maxFileNum + 1, [], Idle, None),
              s.past)
  }

  function Metas(ts: seq<Table>): (ms: seq<TableMeta>)
    ensures |ms| == |ts|
  {
    seq(|ts|, i requires 0 <= i < |ts| => ts[i].meta)
  }

  /** A run: every step enabled where it is taken. */
  ghost predicate Runs(s: State, ops: seq<Op>, t: State)
    decreases |ops|
  {
    if ops == [] then s == t else Enabled(s, ops[0]) && Runs(Next(s, ops[0]), ops[1..], t)
  }

  ghost predicate Reachable(s: State) { exists ops :: Runs(Initial, ops, s) }
}
