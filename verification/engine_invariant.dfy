/** What every step of the engine keeps. */
module EngineInvariant {
  import opened InternalKeys
  import opened Versions
  import opened VersionSets
  import opened Reads
  import opened TableMetas
  import opened WalRecords
  import opened WalLogs
  import opened Histories
  import opened Recoveries
  import opened Compactions
  import opened CompactionCommits
  import opened Engine

  // ------------------------------------------------------------ the invariant

  ghost predicate HistoryOk(h: seq<Batch>) {
    Numbered(h) && AllStorable(h) && Count(h) < MaxSeq
  }

  /** The log is a whole suffix of the history. */
  ghost predicate WalOk(wal: seq<seq<Batch>>, h: seq<Batch>, dropped: nat) {
    wal != [] && dropped <= |h| && Concat(wal) == h[dropped..]
  }

  ghost predicate GoodTable(m: TableMeta, s: seq<Entry>) {
    Sorted(s) && Encodable(s) && Describes(m, s) && m.largestSeq == HighSeq(s)
  }

  ghost predicate Present(ts: seq<TableMeta>, files: map<nat, seq<Entry>>) {
    forall t :: t in ts ==> t.fileNum in files && GoodTable(t, files[t.fileNum])
  }

  /** No live table bears this number. */
  ghost predicate Unused(ts: seq<TableMeta>, n: nat) {
    forall t :: t in ts ==> t.fileNum != n
  }

  /** Obsolete numbers are below the largest live one, and none is live. */
  ghost predicate Retired(nums: set<nat>, ts: seq<TableMeta>) {
    forall n :: n in nums ==> n <= MaxNum(ts) && Unused(ts, n)
  }

  ghost predicate VersionOk(v: Version, files: map<nat, seq<Entry>>, h: seq<Batch>, covered: nat)
    requires HistoryOk(h)
  {
    && Healthy(v) && covered <= |h| && v.walCutoff == Count(h[..covered])
    && Present(All(v.levels), files)
    && TableEntries(All(v.levels), files) <= Entire(h)
    && Retired(v.obsolete, All(v.levels))
  }

  ghost function LoggedNums(log: seq<Edit>): set<nat> {
    set e | e in log && e.AddSSTable? :: e.meta.fileNum
  }

  /** Replaying the manifest gives the live levels and cutoff, and the largest
      number it names is live. */
  ghost predicate ManifestOk(log: seq<Edit>, v: Version, leaked: set<nat>) {
    var w := Replay(EmptyVersion, log);
    && w.levels == v.levels && w.walCutoff == v.walCutoff && v.obsolete <= w.obsolete + leaked
    && (forall n :: n in LoggedNums(log) ==> n <= MaxNum(All(v.levels)))
    && Retired(w.obsolete, All(v.levels))
  }

  ghost predicate MemsOk(mem: seq<Entry>, imms: seq<seq<Entry>>, cuts: seq<nat>, h: seq<Batch>, covered: nat)
    requires HistoryOk(h)
  {
    && |cuts| == |imms| + 1 && covered <= cuts[0] && cuts[|imms|] <= |h|
    && (forall i, j :: 0 <= i <= j < |cuts| ==> cuts[i] <= cuts[j])
    && (forall i :: 0 <= i < |imms| ==> Sorted(imms[i]) && Elements(imms[i]) == Written(h, cuts[i], cuts[i + 1]))
    && Sorted(mem) && Elements(mem) == Written(h, cuts[|imms|], |h|)
  }

  /** At or above the floor, reading S is reading the whole history. */
  ghost predicate Faithful(S: set<Entry>, floor: nat, h: seq<Batch>)
    requires HistoryOk(h)
  {
    S <= Entire(h) && forall k, r :: r >= floor ==> Answer(S, k, r) == Answer(Entire(h), k, r)
  }

  /** A number at which no batch is cut in two. */
  ghost predicate Boundary(h: seq<Batch>, r: nat) {
    exists j :: 0 <= j <= |h| && r == Count(h[..j])
  }

  /** A number taken but not yet in any manifest record. */
  ghost predicate Fresh(n: nat, log: seq<Edit>, v: Version, nextFileNum: nat) {
    && n < nextFileNum && Unused(All(v.levels), n)
    && n !in v.obsolete && n !in LoggedNums(log) && n !in Replay(EmptyVersion, log).obsolete
  }

  ghost predicate FileHolds(files: map<nat, seq<Entry>>, n: nat, s: seq<Entry>) {
    n in files && files[n] == s
  }

  ghost predicate FlushOk(flush: Flush, imms: seq<seq<Entry>>, log: seq<Edit>, files: map<nat, seq<Entry>>,
                          v: Version, nextFileNum: nat) {
    match flush
    case Idle => true
    case Building(n) => imms != [] && Fresh(n, log, v, nextFileNum)
    case Built(m) =>
      && imms != [] && Fresh(m.fileNum, log, v, nextFileNum) && m.level == 0
      && FileHolds(files, m.fileNum, imms[0]) && GoodTable(m, imms[0])
    case Logged(m) => imms != [] && m in All(v.levels) && FileHolds(files, m.fileNum, imms[0])
  }

  function FlushNum(flush: Flush): set<nat> {
    match flush
    case Building(n) => {n}
    case Built(m) => {m.fileNum}
    case _ => {}
  }

  ghost predicate OutputOk(t: Table, job: Job, log: seq<Edit>, files: map<nat, seq<Entry>>, v: Version,
                           nextFileNum: nat, flush: Flush) {
    && Fresh(t.meta.fileNum, log, v, nextFileNum) && t.meta.fileNum !in FlushNum(flush) && t.meta.level == job.targetLevel
    && FileHolds(files, t.meta.fileNum, t.entries) && GoodTable(t.meta, t.entries)
    && forall m :: m in job.inputs ==> m.fileNum < t.meta.fileNum
  }

  ghost predicate OutputsOk(job: Job, log: seq<Edit>, files: map<nat, seq<Entry>>, v: Version, nextFileNum: nat,
                            flush: Flush) {
    && Distinct(Metas(job.outputs)) && job.targetLevel < NumLevels
    && forall i :: 0 <= i < |job.outputs| ==> OutputOk(job.outputs[i], job, log, files, v, nextFileNum, flush)
  }

  ghost function Since(h: seq<Batch>, n: nat): set<Entry>
    requires HistoryOk(h)
  {
    set e | e in Entire(h) && e.key.num >= n
  }

  /** What the job captured: inputs that are still live, numbers below which
      everything it knows lies, and the closure it was allowed to start under. */
  ghost predicate CapturedOk(job: Job, files: map<nat, seq<Entry>>, v: Version) {
    var ins := InputEntries(job, files);
    && (forall t :: t in job.inputs ==> t in All(v.levels))
    && job.floor < job.next
    && (forall e :: e in ins || e in job.others ==> e.key.num < job.next && (e.key.num <= job.oldest <==> e.key.num <= job.floor))
    && (job.bottom ==> forall k :: !Resurrects(ins, job.others, job.floor, k))
  }

  /** Everything live outside a job's inputs is what was there when it started and
      what has been written since. */
  ghost predicate OthersOk(job: Job, files: map<nat, seq<Entry>>, v: Version, mems: set<Entry>, h: seq<Batch>)
    requires HistoryOk(h)
  {
    && job.next <= Count(h) + 1
    && TableEntries(Outside(All(v.levels), job.inputs), files) + mems == job.others + Since(h, job.next)
  }

  ghost predicate JobOk(job: Job, disk: Disk, db: Db, h: seq<Batch>)
    requires HistoryOk(h)
  {
    && OutputsOk(job, disk.log, disk.files, db.version, db.nextFileNum, db.flush)
    && CapturedOk(job, disk.files, db.version)
    && OthersOk(job, disk.files, db.version, MemEntries(db.imms, db.mem), h)
    && job.floor <= Floor(db)
    && (db.flush.Logged? ==> db.flush.meta !in job.inputs)
  }

  ghost predicate ServingOk(disk: Disk, db: Db, p: Past) {
    && HistoryOk(p.history) && p.dropped <= p.covered && WalOk(disk.wal, p.history, p.dropped)
    && VersionOk(db.version, disk.files, p.history, p.covered) && ManifestOk(disk.log, db.version, p.leaked)
    && MemsOk(db.mem, db.imms, db.cuts, p.history, p.covered) && db.nextSeq == Count(p.history) + 1
    && MaxNum(All(db.version.levels)) < db.nextFileNum
    && (forall r :: r in db.snapshots ==> Boundary(p.history, r))
    && FlushOk(db.flush, db.imms, disk.log, disk.files, db.version, db.nextFileNum)
    && (db.job.Some? ==> JobOk(db.job.value, disk, db, p.history))
    && Faithful(TableEntries(All(db.version.levels), disk.files) + MemEntries(db.imms, db.mem), Floor(db), p.history)
  }

  /** The memtable holds the batches from begin to read, the tables those the
      cutoff does not cover before that, and with the whole log they read as the
      history. */
  ghost predicate RecoveredOk(rec: Rec, read: nat, begin: nat, h: seq<Batch>, covered: nat)
    requires HistoryOk(h) && read <= |h| && covered <= begin <= |h|
  {
    var tables := TableEntries(All(rec.version.levels), rec.files);
    && Sorted(rec.mem) && Elements(rec.mem) == Written(h, begin, Max(read, begin))
    && Written(h, covered, begin) <= tables
    && Faithful(tables + Written(h, covered, |h|), Count(h), h)
    && Count(h[..Max(read, covered)]) <= rec.maxSeq <= Count(h)
    && rec.maxFileNum == MaxNum(All(rec.version.levels))
  }

  ghost predicate RecoveringOk(wal: seq<seq<Batch>>, rec: Rec, todo: seq<Batch>, read: nat, begin: nat, p: Past) {
    && HistoryOk(p.history) && p.dropped <= p.covered && WalOk(wal, p.history, p.dropped)
    && VersionOk(rec.version, rec.files, p.history, p.covered) && ManifestOk(rec.log, rec.version, p.leaked)
    && rec.version == Replay(EmptyVersion, rec.log)
    && read <= |p.history| && todo == p.history[read..]
    && p.covered <= begin <= |p.history| && begin <= Max(read, p.covered)
    && RecoveredOk(rec, read, begin, p.history, p.covered)
  }

  ghost predicate Inv(s: State) {
    match s
    case Serving(disk, db, past) => ServingOk(disk, db, past)
    case Recovering(wal, rec, todo, read, begin, past) => RecoveringOk(wal, rec, todo, read, begin, past)
  }
}
