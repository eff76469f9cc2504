/** Every step keeps the invariant: files coming and going, and the three durable
    steps of a flush. */
module EngineFlush {
  import opened InternalKeys
  import opened Versions
  import opened VersionSets
  import opened Reads
  import opened TableMetas
  import opened WalRecords
  import opened Histories
  import opened Recoveries
  import opened Compactions
  import opened CompactionCommits
  import opened Engine
  import opened EngineInvariant
  import opened EngineSteps
  import Flushes
  import Snapshots

  // ----------------------------------------------------------- files by number

  /** The two file maps agree on every number but these. */
  ghost predicate AgreeBut(files: map<nat, seq<Entry>>, files': map<nat, seq<Entry>>, nums: set<nat>) {
    forall n :: n !in nums ==> (n in files <==> n in files') && (n in files ==> files[n] == files'[n])
  }

  lemma SameTables(ts: seq<TableMeta>, files: map<nat, seq<Entry>>, files': map<nat, seq<Entry>>, nums: set<nat>)
    requires AgreeBut(files, files', nums) && forall t :: t in ts ==> t.fileNum !in nums
    ensures TableEntries(ts, files) == TableEntries(ts, files')
    ensures Present(ts, files) ==> Present(ts, files')
  {
    hide GoodTable;
  }

  /** Live files, and so all that is read from them, are not touched. */
  lemma FilesMove(v: Version, files: map<nat, seq<Entry>>, files': map<nat, seq<Entry>>, nums: set<nat>,
                  h: seq<Batch>, covered: nat)
    requires HistoryOk(h) && VersionOk(v, files, h, covered)
    requires AgreeBut(files, files', nums) && forall n :: n in nums ==> Unused(All(v.levels), n)
    ensures VersionOk(v, files', h, covered)
    ensures TableEntries(All(v.levels), files) == TableEntries(All(v.levels), files')
  {
    hide Healthy, Present, TableEntries, Retired, HistoryOk;
    SameTables(All(v.levels), files, files', nums);
  }

  lemma JobFilesMove(job: Job, v: Version, files: map<nat, seq<Entry>>, files': map<nat, seq<Entry>>, nums: set<nat>,
                     mems: set<Entry>, h: seq<Batch>)
    requires HistoryOk(h) && CapturedOk(job, files, v) && OthersOk(job, files, v, mems, h)
    requires AgreeBut(files, files', nums) && forall n :: n in nums ==> Unused(All(v.levels), n)
    ensures CapturedOk(job, files', v) && OthersOk(job, files', v, mems, h)
  {
    hide TableEntries, HistoryOk, Present, Since, Resurrects, Outside;
    SameTables(job.inputs, files, files', nums);
    assert InputEntries(job, files) == InputEntries(job, files');
    OutsideMembers(All(v.levels), job.inputs);
    SameTables(Outside(All(v.levels), job.inputs), files, files', nums);
  }

  // ------------------------------------------------------------------- cleanup

  lemma CleanupFresh(log: seq<Edit>, v: Version, n: nat)
    requires n in v.obsolete
    ensures forall k, m :: Fresh(k, log, v, m) ==> k != n && Fresh(k, log, v.(obsolete := v.obsolete - {n}), m)
  {
  }

  lemma CleanupOutputs(job: Job, log: seq<Edit>, files: map<nat, seq<Entry>>, v: Version, next: nat, flush: Flush,
                       n: nat)
    requires OutputsOk(job, log, files, v, next, flush) && n in v.obsolete
    ensures OutputsOk(job, log, files - {n}, v.(obsolete := v.obsolete - {n}), next, flush)
  {
    hide GoodTable, Fresh, Distinct;
    CleanupFresh(log, v, n);
    var v' := v.(obsolete := v.obsolete - {n});
    forall i | 0 <= i < |job.outputs| ensures OutputOk(job.outputs[i], job, log, files - {n}, v', next, flush) {
      assert OutputOk(job.outputs[i], job, log, files, v, next, flush);
    }
  }

  lemma CleanupFlush(flush: Flush, imms: seq<seq<Entry>>, log: seq<Edit>, files: map<nat, seq<Entry>>, v: Version,
                     next: nat, n: nat)
    requires FlushOk(flush, imms, log, files, v, next) && n in v.obsolete && Unused(All(v.levels), n)
    ensures FlushOk(flush, imms, log, files - {n}, v.(obsolete := v.obsolete - {n}), next)
  {
    hide GoodTable, Fresh;
    CleanupFresh(log, v, n);
  }

  lemma CleanupKeeps(disk: Disk, db: Db, p: Past, n: nat)
    requires ServingOk(disk, db, p) && n in db.version.obsolete
    ensures ServingOk(disk.(files := disk.files - {n}), db.(version := db.version.(obsolete := db.version.obsolete - {n})), p)
  {
    hide MemEntries, WalOk, CapturedOk, OthersOk, TableEntries, HistoryOk, Faithful, Boundary, Fresh, Healthy,
         Present, Retired, MemsOk, ManifestOk, VersionOk, FlushOk, OutputsOk, AgreeBut, Unused, Snapshots.OldestOf,
         Elements;
    var v, v', files' := db.version, db.version.(obsolete := db.version.obsolete - {n}), disk.files - {n};
    CleanupVersion(v, n, disk, p);
    CleanupFlush(db.flush, db.imms, disk.log, disk.files, v, db.nextFileNum, n);
    if db.job.Some? {
      CleanupOutputs(db.job.value, disk.log, disk.files, v, db.nextFileNum, db.flush, n);
      JobFilesMove(db.job.value, v, disk.files, files', {n}, MemEntries(db.imms, db.mem), p.history);
      SameLevels(db.job.value, files', v, v', MemEntries(db.imms, db.mem), p.history);
    }
  }

  lemma SameLevels(job: Job, files: map<nat, seq<Entry>>, v: Version, w: Version, mems: set<Entry>, h: seq<Batch>)
    requires HistoryOk(h) && CapturedOk(job, files, v) && OthersOk(job, files, v, mems, h) && v.levels == w.levels
    ensures CapturedOk(job, files, w) && OthersOk(job, files, w, mems, h)
  {
  }

  lemma CleanupVersion(v: Version, n: nat, disk: Disk, p: Past)
    requires HistoryOk(p.history) && VersionOk(v, disk.files, p.history, p.covered) && ManifestOk(disk.log, v, p.leaked) && n in v.obsolete
    ensures var v' := v.(obsolete := v.obsolete - {n});
            && VersionOk(v', disk.files - {n}, p.history, p.covered) && ManifestOk(disk.log, v', p.leaked)
            && AgreeBut(disk.files, disk.files - {n}, {n})
            && TableEntries(All(v.levels), disk.files) == TableEntries(All(v.levels), disk.files - {n})
            && (forall m :: m in {n} ==> Unused(All(v.levels), m))
  {
    hide HistoryOk, Present, TableEntries, Replay, OrderedBySmallest, Distinct;
    assert Unused(All(v.levels), n);
    assert AgreeBut(disk.files, disk.files - {n}, {n});
    FilesMove(v, disk.files, disk.files - {n}, {n}, p.history, p.covered);
  }

  // ---------------------------------------------------------- writing the table

  lemma NewFile(files: map<nat, seq<Entry>>, n: nat, s: seq<Entry>)
    ensures AgreeBut(files, files[n := s], {n}) && FileHolds(files[n := s], n, s)
  {
  }

  lemma OutputsKeepFiles(job: Job, log: seq<Edit>, files: map<nat, seq<Entry>>, v: Version, next: nat, flush: Flush,
                         n: nat, s: seq<Entry>, flush': Flush)
    requires OutputsOk(job, log, files, v, next, flush) && n in FlushNum(flush) && FlushNum(flush') <= FlushNum(flush)
    ensures OutputsOk(job, log, files[n := s], v, next, flush')
  {
    hide GoodTable, Fresh, Distinct;
    forall i | 0 <= i < |job.outputs| ensures OutputOk(job.outputs[i], job, log, files[n := s], v, next, flush') {
      assert OutputOk(job.outputs[i], job, log, files, v, next, flush);
    }
  }

  lemma FlushedTable(n: nat, im: seq<Entry>, size: int)
    requires Sorted(im) && Encodable(im)
    ensures im != [] ==> im[0].key.num < MaxSeq && im[|im| - 1].key.num < MaxSeq
    ensures var m := Flushes.FlushMeta(n, im, size);
            GoodTable(m, im) && m.level == 0 && m.fileNum == n
  {
    MetaDescribes(n, 0, im, size);
  }

  lemma FlushWriteKeeps(disk: Disk, db: Db, p: Past, n: nat, im: seq<Entry>, meta: TableMeta)
    requires db.flush == Building(n) && [im] <= db.imms && ServingOk(disk, db, p)
    requires GoodTable(meta, im) && meta.level == 0 && meta.fileNum == n
    ensures ServingOk(disk.(files := disk.files[n := im]), db.(flush := Built(meta)), p)
  {
    hide MemEntries, WalOk, CapturedOk, OthersOk, TableEntries, HistoryOk, Faithful, Boundary, Healthy, Present,
         Retired, MemsOk, ManifestOk, VersionOk, OutputsOk, AgreeBut, GoodTable, FileHolds;
    var v := db.version;
    NewFile(disk.files, n, im);
    assert Fresh(n, disk.log, v, db.nextFileNum);
    assert forall m :: m in {n} ==> Unused(All(v.levels), m);
    hide Fresh, Unused;
    FilesMove(v, disk.files, disk.files[n := im], {n}, p.history, p.covered);
    if db.job.Some? {
      JobFilesMove(db.job.value, v, disk.files, disk.files[n := im], {n}, MemEntries(db.imms, db.mem), p.history);
      OutputsKeepFiles(db.job.value, disk.log, disk.files, v, db.nextFileNum, db.flush, n, im, Built(meta));
    }
  }

  // ------------------------------------------------------------ logging the table

  lemma AddedVersion(v: Version, m: TableMeta, im: seq<Entry>, log: seq<Edit>, leaked: set<nat>,
                     files: map<nat, seq<Entry>>,
                     h: seq<Batch>, covered: nat, next: nat)
    requires |v.levels| == NumLevels && HistoryOk(h) && VersionOk(v, files, h, covered) && ManifestOk(log, v, leaked)
    requires Fresh(m.fileNum, log, v, next) && m.level < NumLevels && MaxNum(All(v.levels)) < next
    requires FileHolds(files, m.fileNum, im) && GoodTable(m, im) && Elements(im) <= Entire(h)
    ensures VersionOk(Add(v, m), files, h, covered) && ManifestOk(log + [AddSSTable(m)], Add(v, m), leaked)
    ensures forall t :: t in All(Add(v, m).levels) <==> t in All(v.levels) || t == m
    ensures TableEntries(All(Add(v, m).levels), files) == TableEntries(All(v.levels), files) + Elements(im)
    ensures MaxNum(All(Add(v, m).levels)) < next
  {
    hide HistoryOk, GoodTable, WellFormed, Distinct, Add, TableEntries, ManifestOk, Replay, MaxNum, All, LoggedNums,
         Retired, Present, Elements, Entire, Encodable;
    AddTables(v, m);
    AddKeeps(v, m);
    var w := Add(v, m);
    var ts, us := All(v.levels), All(w.levels);
    JoinedTables(us, ts, [m], files);
    OneTable(m, files);
    Maxima(ts);
    Maxima(us);
    MaxNumGrows(ts, us);
    RetiredGrows(v.obsolete, ts, us, m);
    PresentGrows(ts, us, m, im, files);
    hide FileHolds, Fresh;
    AddedManifest(v, m, log, leaked, next);
  }

  lemma RetiredGrows(nums: set<nat>, ts: seq<TableMeta>, us: seq<TableMeta>, m: TableMeta)
    requires Retired(nums, ts) && m.fileNum !in nums && MaxNum(ts) <= MaxNum(us)
    requires forall t :: t in us <==> t in ts || t == m
    ensures Retired(nums, us)
  {
  }

  lemma PresentGrows(ts: seq<TableMeta>, us: seq<TableMeta>, m: TableMeta, im: seq<Entry>, files: map<nat, seq<Entry>>)
    requires Present(ts, files) && FileHolds(files, m.fileNum, im) && GoodTable(m, im)
    requires forall t :: t in us <==> t in ts || t == m
    ensures Present(us, files)
  {
  }

  lemma AddedLog(m: TableMeta, log: seq<Edit>)
    ensures LoggedNums(log + [AddSSTable(m)]) == LoggedNums(log) + {m.fileNum}
    ensures var w := Replay(EmptyVersion, log);
            Replay(EmptyVersion, log + [AddSSTable(m)]) == Add(w, m)
  {
    OneMore(EmptyVersion, log, AddSSTable(m));
    assert AddSSTable(m) in log + [AddSSTable(m)];
    assert forall e :: e in log + [AddSSTable(m)] <==> e in log || e == AddSSTable(m);
  }

  lemma AddedAlike(v: Version, w: Version, m: TableMeta)
    requires |v.levels| == NumLevels && v.levels == w.levels && v.walCutoff == w.walCutoff
    ensures Add(v, m).levels == Add(w, m).levels && Add(v, m).walCutoff == Add(w, m).walCutoff
    ensures Add(v, m).obsolete == v.obsolete && Add(w, m).obsolete == w.obsolete
  {
  }

  lemma AddedManifest(v: Version, m: TableMeta, log: seq<Edit>, leaked: set<nat>, next: nat)
    requires |v.levels| == NumLevels && ManifestOk(log, v, leaked)
    requires Fresh(m.fileNum, log, v, next) && MaxNum(All(v.levels)) <= MaxNum(All(Add(v, m).levels))
    requires forall t :: t in All(Add(v, m).levels) <==> t in All(v.levels) || t == m
    ensures ManifestOk(log + [AddSSTable(m)], Add(v, m), leaked)
  {
    hide Replay, Add, LoggedNums, All, MaxNum;
    AddedLog(m, log);
    AddedAlike(v, Replay(EmptyVersion, log), m);
    Maxima(All(Add(v, m).levels));
    assert m in All(Add(v, m).levels);
  }

  lemma AddedFresh(v: Version, m: TableMeta, log: seq<Edit>, k: nat, next: nat)
    requires |v.levels| == NumLevels && Fresh(k, log, v, next) && k != m.fileNum
    requires forall t :: t in All(Add(v, m).levels) <==> t in All(v.levels) || t == m
    ensures Fresh(k, log + [AddSSTable(m)], Add(v, m), next)
  {
    OneMore(EmptyVersion, log, AddSSTable(m));
    assert forall e :: e in log + [AddSSTable(m)] <==> e in log || e == AddSSTable(m);
    hide Replay, Place;
  }

  lemma AddedOutputs(job: Job, log: seq<Edit>, files: map<nat, seq<Entry>>, v: Version, next: nat, m: TableMeta)
    requires OutputsOk(job, log, files, v, next, Built(m)) && |v.levels| == NumLevels
    requires forall t :: t in All(Add(v, m).levels) <==> t in All(v.levels) || t == m
    ensures OutputsOk(job, log + [AddSSTable(m)], files, Add(v, m), next, Logged(m))
  {
    hide GoodTable, Distinct, Add, Fresh, FileHolds;
    forall i | 0 <= i < |job.outputs| ensures OutputOk(job.outputs[i], job, log + [AddSSTable(m)], files, Add(v, m), next, Logged(m)) {
      assert OutputOk(job.outputs[i], job, log, files, v, next, Built(m));
      AddedFresh(v, m, log, job.outputs[i].meta.fileNum, next);
    }
  }

  /** A table of what a memtable still holds adds nothing to what is outside the
      inputs. */
  lemma AddedOthers(job: Job, files: map<nat, seq<Entry>>, v: Version, mems: set<Entry>, h: seq<Batch>, m: TableMeta,
                    im: seq<Entry>)
    requires HistoryOk(h) && CapturedOk(job, files, v) && OthersOk(job, files, v, mems, h) && |v.levels| == NumLevels
    requires forall t :: t in All(Add(v, m).levels) <==> t in All(v.levels) || t == m
    requires Unused(All(v.levels), m.fileNum) && FileHolds(files, m.fileNum, im) && Elements(im) <= mems
    ensures CapturedOk(job, files, Add(v, m)) && OthersOk(job, files, Add(v, m), mems, h) && m !in job.inputs
  {
    hide HistoryOk, Add, TableEntries, Resurrects, Since, Outside;
    var ts, us := All(v.levels), All(Add(v, m).levels);
    OutsideMembers(ts, job.inputs);
    OutsideMembers(us, job.inputs);
    JoinedTables(Outside(us, job.inputs), Outside(ts, job.inputs), [m], files);
    OneTable(m, files);
  }

  lemma FirstImmutable(mem: seq<Entry>, imms: seq<seq<Entry>>, cuts: seq<nat>, h: seq<Batch>, covered: nat)
    requires HistoryOk(h) && MemsOk(mem, imms, cuts, h, covered) && imms != []
    ensures Elements(imms[0]) <= MemEntries(imms, mem) && Elements(imms[0]) <= Entire(h) && Sorted(imms[0])
  {
    assert imms[0] in imms;
    WrittenSplits(h, 0, cuts[0], |h|);
    WrittenSplits(h, cuts[0], cuts[1], |h|);
  }

  lemma FlushLogKeeps(disk: Disk, db: Db, p: Past, m: TableMeta)
    requires db.flush == Built(m) && |db.version.levels| == NumLevels && ServingOk(disk, db, p)
    ensures ServingOk(disk.(log := disk.log + [AddSSTable(m)]), db.(version := Add(db.version, m), flush := Logged(m)), p)
  {
    hide MemEntries, WalOk, CapturedOk, OthersOk, TableEntries, HistoryOk, Boundary, Healthy, Present, Retired,
         MemsOk, ManifestOk, OutputsOk, GoodTable, Add, Elements, Entire, Fresh, VersionOk, FileHolds;
    var v, h := db.version, p.history;
    FirstImmutable(db.mem, db.imms, db.cuts, h, p.covered);
    AddedVersion(v, m, db.imms[0], disk.log, p.leaked, disk.files, h, p.covered, db.nextFileNum);
    if db.job.Some? {
      FreshIsUnused(m.fileNum, disk.log, v, db.nextFileNum);
      AddedOutputs(db.job.value, disk.log, disk.files, v, db.nextFileNum, m);
      AddedOthers(db.job.value, disk.files, v, MemEntries(db.imms, db.mem), h, m, db.imms[0]);
    }
    assert TableEntries(All(v.levels), disk.files) + Elements(db.imms[0]) + MemEntries(db.imms, db.mem)
        == TableEntries(All(v.levels), disk.files) + MemEntries(db.imms, db.mem);
  }

  lemma FreshIsUnused(n: nat, log: seq<Edit>, v: Version, next: nat)
    requires Fresh(n, log, v, next)
    ensures Unused(All(v.levels), n)
  {
  }

  // ----------------------------------------------------------- logging the cutoff

  lemma {:induction false} HighestWritten(im: seq<Entry>, h: seq<Batch>, a: nat, b: nat)
    requires HistoryOk(h) && a <= b <= |h| && Encodable(im) && Elements(im) == Written(h, a, b)
    ensures im == [] ==> HighSeq(im) == 0
    ensures im != [] ==> a < b && HighSeq(im) == Count(h[..b])
  {
    if im != [] {
      assert im[0] in Elements(im);
      assert a < b;
      hide Count, HighSeq, Written, HistoryOk, Entire;
      SeqBounds(im);
      WrittenBound(h, a, b);
      var last := LastWritten(h, a, b);
      assert last in Elements(im);
      var e :| e in im && e.key.num == HighSeq(im);
      assert e in Elements(im);
    }
  }

  lemma {:induction false} WrittenBound(h: seq<Batch>, a: nat, b: nat)
    requires HistoryOk(h) && a <= b <= |h|
    ensures forall e :: e in Written(h, a, b) ==> e.key.num <= Count(h[..b])
  {
    hide Count, Numbered, Entire, Written;
    WrittenRange(h, a, b);
  }

  lemma {:induction false} LastWritten(h: seq<Batch>, a: nat, b: nat) returns (last: Entry)
    requires HistoryOk(h) && a < b <= |h|
    ensures last in Written(h, a, b) && last.key.num == Count(h[..b])
  {
    hide Count, Numbered;
    NumberedPrefix(h, b);
    assert h[..b] != [];
    last := LastNumber(h[..b]);
    assert last in Written(h, b - 1, b);
    WrittenSplits(h, a, b - 1, b);
  }

  lemma CutLog(n: nat, log: seq<Edit>)
    ensures LoggedNums(log + [SetWALCutoff(n)]) == LoggedNums(log)
    ensures var w := Replay(EmptyVersion, log);
            Replay(EmptyVersion, log + [SetWALCutoff(n)]) == Cutoff(w, n)
  {
    OneMore(EmptyVersion, log, SetWALCutoff(n));
    assert forall e :: e in log + [SetWALCutoff(n)] <==> e in log || e == SetWALCutoff(n);
  }

  lemma CutManifest(v: Version, n: nat, log: seq<Edit>, leaked: set<nat>)
    requires ManifestOk(log, v, leaked)
    ensures ManifestOk(log + [SetWALCutoff(n)], Cutoff(v, n), leaked)
    ensures forall k, next :: Fresh(k, log, v, next) ==> Fresh(k, log + [SetWALCutoff(n)], Cutoff(v, n), next)
    ensures Cutoff(v, n).levels == v.levels
  {
    hide Replay, LoggedNums, All, MaxNum;
    CutLog(n, log);
  }

  lemma CutOutputs(job: Job, n: nat, log: seq<Edit>, files: map<nat, seq<Entry>>, v: Version, next: nat, m: TableMeta)
    requires OutputsOk(job, log, files, v, next, Logged(m))
    requires forall k :: Fresh(k, log, v, next) ==> Fresh(k, log + [SetWALCutoff(n)], Cutoff(v, n), next)
    ensures OutputsOk(job, log + [SetWALCutoff(n)], files, Cutoff(v, n), next, Idle)
  {
    hide GoodTable, Distinct, Cutoff, Fresh, FileHolds;
    forall i | 0 <= i < |job.outputs|
      ensures OutputOk(job.outputs[i], job, log + [SetWALCutoff(n)], files, Cutoff(v, n), next, Idle)
    {
      assert OutputOk(job.outputs[i], job, log, files, v, next, Logged(m));
    }
  }

  lemma UnionFirst(imms: seq<seq<Entry>>, mem: seq<Entry>)
    requires imms != []
    ensures MemEntries(imms, mem) == Elements(imms[0]) + MemEntries(imms[1..], mem)
  {
    assert imms == [imms[0]] + imms[1..];
    assert forall s :: s in imms <==> s == imms[0] || s in imms[1..];
  }

  /** What a logged table holds, the tables hold without the memtable. */
  lemma LoggedHolds(m: TableMeta, im: seq<Entry>, ts: seq<TableMeta>, files: map<nat, seq<Entry>>)
    requires m in ts && FileHolds(files, m.fileNum, im)
    ensures Elements(im) <= TableEntries(ts, files)
    ensures Present(ts, files) ==> GoodTable(m, im)
  {
  }

  lemma CutMems(mem: seq<Entry>, imms: seq<seq<Entry>>, cuts: seq<nat>, h: seq<Batch>, covered: nat)
    requires HistoryOk(h) && MemsOk(mem, imms, cuts, h, covered) && imms != []
    ensures |cuts| > 1 && covered <= cuts[0] <= cuts[1] <= |h|
    ensures Elements(imms[0]) == Written(h, cuts[0], cuts[1])
    ensures MemsOk(mem, imms[1..], cuts[1..], h, if imms[0] == [] then covered else cuts[1])
  {
    hide HistoryOk, Written, Elements, Sorted;
    assert cuts[0] <= cuts[1] <= cuts[|imms|];
  }

  lemma CutVersion(v: Version, m: TableMeta, im: seq<Entry>, files: map<nat, seq<Entry>>, h: seq<Batch>,
                   covered: nat, a: nat, b: nat)
    requires HistoryOk(h) && VersionOk(v, files, h, covered) && covered <= a <= b <= |h|
    requires m in All(v.levels) && FileHolds(files, m.fileNum, im) && Elements(im) == Written(h, a, b)
    ensures VersionOk(Cutoff(v, m.largestSeq), files, h, if im == [] then covered else b)
  {
    LoggedHolds(m, im, All(v.levels), files);
    HighestWritten(im, h, a, b);
    CountGrows(h, covered, b);
    hide HistoryOk, Present, TableEntries, Distinct, OrderedBySmallest, HighSeq, Count, Describes, Sorted, Encodable,
         Entire;
  }

  lemma CutOthers(job: Job, files: map<nat, seq<Entry>>, v: Version, imms: seq<seq<Entry>>, mem: seq<Entry>,
                  h: seq<Batch>, m: TableMeta, n: nat)
    requires imms != [] && HistoryOk(h) && CapturedOk(job, files, v) && OthersOk(job, files, v, MemEntries(imms, mem), h)
    requires m in All(v.levels) && m !in job.inputs && FileHolds(files, m.fileNum, imms[0])
    ensures CapturedOk(job, files, Cutoff(v, n)) && OthersOk(job, files, Cutoff(v, n), MemEntries(imms[1..], mem), h)
  {
    hide HistoryOk, TableEntries, Resurrects, Since, Outside, MemEntries, Elements;
    OutsideMembers(All(v.levels), job.inputs);
    LoggedHolds(m, imms[0], Outside(All(v.levels), job.inputs), files);
    UnionFirst(imms, mem);
    var t, e, rest := TableEntries(Outside(All(v.levels), job.inputs), files), Elements(imms[0]), MemEntries(imms[1..], mem);
    assert t + (e + rest) == t + rest;
  }

  lemma FlushCutoffKeeps(disk: Disk, db: Db, p: Past, m: TableMeta)
    requires db.flush == Logged(m) && db.imms != [] && |db.cuts| > 1 && ServingOk(disk, db, p)
    ensures ServingOk(disk.(log := disk.log + [SetWALCutoff(m.largestSeq)]),
                      db.(version := Cutoff(db.version, m.largestSeq), imms := db.imms[1..], cuts := db.cuts[1..], flush := Idle),
                      p.(covered := if db.imms[0] == [] then p.covered else db.cuts[1]))
  {
    hide MemEntries, WalOk, CapturedOk, OthersOk, TableEntries, HistoryOk, Boundary, MemsOk, ManifestOk, OutputsOk,
         GoodTable, Cutoff, Elements, Entire, Fresh, VersionOk, FileHolds, Written;
    var v, h, n, im := db.version, p.history, m.largestSeq, db.imms[0];
    CutMems(db.mem, db.imms, db.cuts, h, p.covered);
    CutVersion(v, m, im, disk.files, h, p.covered, db.cuts[0], db.cuts[1]);
    CutManifest(v, n, disk.log, p.leaked);
    LoggedHolds(m, im, All(v.levels), disk.files);
    UnionFirst(db.imms, db.mem);
    var t, e, rest := TableEntries(All(v.levels), disk.files), Elements(im), MemEntries(db.imms[1..], db.mem);
    assert t + (e + rest) == t + rest;
    if db.job.Some? {
      CutOutputs(db.job.value, n, disk.log, disk.files, v, db.nextFileNum, m);
      CutOthers(db.job.value, disk.files, v, db.imms, db.mem, h, m, n);
    }
  }
}
