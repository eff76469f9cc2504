/** Every step keeps the invariant: a compaction captures its inputs, writes its
    files while everything else goes on, and commits. */
module EngineCompaction {
  import opened Bytes
  import opened InternalKeys
  import opened Versions
  import opened VersionSets
  import opened Reads
  import opened TableMetas
  import opened WalRecords
  import opened Histories
  import opened Recoveries
  import opened Compactions
  import opened CompactionCommits
  import opened Engine
  import opened EngineInvariant
  import opened EngineSteps
  import opened EngineFlush
  import Snapshots

  // -------------------------------------------------------------------- begin

  lemma BoundaryBelow(h: seq<Batch>, r: nat)
    requires Boundary(h, r)
    ensures r <= Count(h)
  {
    var j :| 0 <= j <= |h| && r == Count(h[..j]);
    CountGrows(h, j, |h|);
    assert h[..|h|] == h;
  }

  /** Collecting at the next number or just below it is the same thing. */
  lemma OldestAndFloor(seqs: seq<nat>, next: nat)
    requires next >= 1 && forall s :: s in seqs ==> s < next
    ensures var a, b := Snapshots.OldestOf(seqs, next), Snapshots.OldestOf(seqs, next - 1);
            b < next && (a == b || (a == next && b == next - 1))
  {
    Snapshots.OldestIsLeast(seqs, next);
    Snapshots.OldestIsLeast(seqs, next - 1);
  }

  lemma ResurrectsSame(ins: set<Entry>, others: set<Entry>, a: nat, b: nat, k: bytes)
    requires forall e :: e in ins || e in others ==> (e.key.num <= a <==> e.key.num <= b)
    ensures Resurrects(ins, others, a, k) <==> Resurrects(ins, others, b, k)
  {
    forall e ensures Newest(ins + others, k, a, e) <==> Newest(ins + others, k, b, e) { }
    forall e ensures Newest(others, k, a, e) <==> Newest(others, k, b, e) { }
  }

  lemma SurvivorsSame(ins: set<Entry>, a: nat, b: nat, bottom: bool)
    requires forall e :: e in ins ==> (e.key.num <= a <==> e.key.num <= b)
    ensures Survivors(ins, a, bottom) == Survivors(ins, b, bottom)
  {
    forall e | e in ins ensures Buried(ins, a, e) <==> Buried(ins, b, e) {
      if Buried(ins, a, e) {
        var t :| t in ins && Collectable(t, a) && t.key.user == e.key.user && e.key.num <= t.key.num;
        assert Collectable(t, b);
      }
      if Buried(ins, b, e) {
        var t :| t in ins && Collectable(t, b) && t.key.user == e.key.user && e.key.num <= t.key.num;
        assert Collectable(t, a);
      }
    }
  }

  /** At the start everything live is numbered below the next number. */
  lemma StartCaptured(job: Job, files: map<nat, seq<Entry>>, v: Version, mems: set<Entry>, h: seq<Batch>)
    requires HistoryOk(h) && TableEntries(All(v.levels), files) + mems <= Entire(h)
    requires job.others == TableEntries(Outside(All(v.levels), job.inputs), files) + mems
    requires (forall t :: t in job.inputs ==> t in All(v.levels)) && job.next == Count(h) + 1
    requires job.floor < job.next && (job.oldest == job.floor || (job.oldest == job.next && job.floor == job.next - 1))
    requires job.bottom ==> forall k :: !Resurrects(InputEntries(job, files), job.others, job.oldest, k)
    ensures CapturedOk(job, files, v) && OthersOk(job, files, v, mems, h)
  {
    hide TableEntries, Outside, Resurrects, Count, Numbered, Entire;
    InputsAndOthers(All(v.levels), job.inputs, files);
    HistoryFacts(h);
    hide HistoryOk;
    assert Since(h, job.next) == {};
    var ins := InputEntries(job, files);
    assert ins == TableEntries(job.inputs, files);
    forall e | e in ins || e in job.others ensures e.key.num < job.next { assert e in Entire(h); }
    if job.bottom {
      forall k ensures !Resurrects(ins, job.others, job.floor, k) { ResurrectsSame(ins, job.others, job.oldest, job.floor, k); }
    }
  }

  lemma CompactBeginKeeps(disk: Disk, db: Db, p: Past, level: nat, job: Job)
    requires |db.version.levels| == NumLevels && level < NumLevels - 1 && !db.flush.Logged? && db.job.None?
    requires job == BeginJob(Serving(disk, db, p), level)
    requires job.bottom ==> forall k :: !Resurrects(InputEntries(job, disk.files), job.others, job.oldest, k)
    requires ServingOk(disk, db, p)
    ensures ServingOk(disk, db.(job := Some(job)), p)
  {
    hide MemEntries, WalOk, CapturedOk, OthersOk, TableEntries, HistoryOk, Boundary, MemsOk, ManifestOk, FlushOk,
         VersionOk, Inputs, Bottom, Outside, Snapshots.OldestOf, Resurrects, Count, Entire, MaxNum, Answer;
    InputsAreLive(db.version, level);
    forall r | r in db.snapshots ensures r < db.nextSeq { BoundaryBelow(p.history, r); }
    OldestAndFloor(db.snapshots, db.nextSeq);
    StartCaptured(job, disk.files, db.version, MemEntries(db.imms, db.mem), p.history);
  }

  // ------------------------------------------------------------------- output

  lemma FlushKeepsPace(flush: Flush, imms: seq<seq<Entry>>, log: seq<Edit>, files: map<nat, seq<Entry>>, v: Version,
                       n: nat, s: seq<Entry>)
    requires FlushOk(flush, imms, log, files, v, n) && MaxNum(All(v.levels)) < n
    ensures FlushOk(flush, imms, log, files[n := s], v, n + 1)
  {
    hide GoodTable, Replay, LoggedNums, All;
    Maxima(All(v.levels));
  }

  lemma OutputAdded(job: Job, log: seq<Edit>, files: map<nat, seq<Entry>>, v: Version, n: nat, flush: Flush, t: Table)
    requires OutputsOk(job, log, files, v, n, flush) && Fresh(n, log, v, n + 1) && n !in FlushNum(flush)
    requires t.meta.fileNum == n && t.meta.level == job.targetLevel && GoodTable(t.meta, t.entries)
    requires forall m :: m in job.inputs ==> m.fileNum < n
    ensures OutputsOk(job.(outputs := job.outputs + [t]), log, files[n := t.entries], v, n + 1, flush)
  {
    hide GoodTable, Replay, LoggedNums, All;
    var job' := job.(outputs := job.outputs + [t]);
    forall i | 0 <= i < |job'.outputs| ensures OutputOk(job'.outputs[i], job', log, files[n := t.entries], v, n + 1, flush) {
      if i < |job.outputs| { assert OutputOk(job.outputs[i], job, log, files, v, n, flush); }
    }
    var ms := Metas(job.outputs);
    assert Metas(job'.outputs) == ms + [t.meta];
    forall i | 0 <= i < |ms| ensures ms[i].fileNum < n { assert OutputOk(job.outputs[i], job, log, files, v, n, flush); }
  }

  lemma OutputTable(n: nat, level: nat, s: seq<Entry>, size: int)
    requires Sorted(s) && Encodable(s)
    ensures s != [] ==> s[0].key.num < MaxSeq && s[|s| - 1].key.num < MaxSeq
    ensures var m := MetaOf(n, level, s, size);
            GoodTable(m, s) && m.level == level && m.fileNum == n
  {
    MetaDescribes(n, level, s, size);
  }

  lemma SameCapture(job: Job, outputs: seq<Table>, files: map<nat, seq<Entry>>, v: Version, mems: set<Entry>,
                    h: seq<Batch>)
    requires HistoryOk(h) && CapturedOk(job, files, v) && OthersOk(job, files, v, mems, h)
    ensures CapturedOk(job.(outputs := outputs), files, v) && OthersOk(job.(outputs := outputs), files, v, mems, h)
  {
    hide HistoryOk, TableEntries, Outside, Resurrects, Since;
    assert InputEntries(job.(outputs := outputs), files) == InputEntries(job, files);
  }

  lemma InputsNumbered(job: Job, files: map<nat, seq<Entry>>, v: Version, n: nat)
    requires CapturedOk(job, files, v) && MaxNum(All(v.levels)) < n
    ensures forall m :: m in job.inputs ==> m.fileNum < n
  {
    Maxima(All(v.levels));
  }

  lemma FlushNumBelow(flush: Flush, imms: seq<seq<Entry>>, log: seq<Edit>, files: map<nat, seq<Entry>>, v: Version,
                      n: nat)
    requires FlushOk(flush, imms, log, files, v, n)
    ensures n !in FlushNum(flush)
  {
  }

  lemma CompactOutputKeeps(disk: Disk, db: Db, p: Past, job: Job, n: nat, t: Table)
    requires db.job == Some(job) && n == db.nextFileNum
    requires t.meta.fileNum == n && t.meta.level == job.targetLevel && GoodTable(t.meta, t.entries)
    requires ServingOk(disk, db, p)
    ensures ServingOk(disk.(files := disk.files[n := t.entries]),
                      db.(job := Some(job.(outputs := job.outputs + [t])), nextFileNum := n + 1), p)
  {
    hide MemEntries, WalOk, CapturedOk, OthersOk, TableEntries, HistoryOk, Faithful, Boundary, Healthy, Present,
         MemsOk, ManifestOk, OutputsOk, AgreeBut, GoodTable, Fresh, FlushOk, Unused, MaxNum, Count;
    var v, files, files' := db.version, disk.files, disk.files[n := t.entries];
    var mems := MemEntries(db.imms, db.mem);
    NewFile(files, n, t.entries);
    NextIsFresh(disk.log, v, p.leaked, n);
    FreshIsUnused(n, disk.log, v, n + 1);
    assert forall m :: m in {n} ==> Unused(All(v.levels), m);
    FilesMove(v, files, files', {n}, p.history, p.covered);
    JobFilesMove(job, v, files, files', {n}, mems, p.history);
    SameCapture(job, job.outputs + [t], files', v, mems, p.history);
    InputsNumbered(job, files, v, n);
    FlushNumBelow(db.flush, db.imms, disk.log, files, v, n);
    OutputAdded(job, disk.log, files, v, n, db.flush, t);
    FlushKeepsPace(db.flush, db.imms, disk.log, files, v, n, t.entries);
  }

  // ------------------------------------------------------------------- commit

  /** Tables of the outputs, wherever they are filed. */
  lemma OutputTables(job: Job, log: seq<Edit>, files: map<nat, seq<Entry>>, v: Version, n: nat, flush: Flush)
    requires OutputsOk(job, log, files, v, n, flush)
    ensures TableEntries(Metas(job.outputs), files) == OutputEntries(job)
    ensures Present(Metas(job.outputs), files)
    ensures Addable(v, Metas(job.outputs))
    ensures forall t :: t in Metas(job.outputs) ==>
              Fresh(t.fileNum, log, v, n) && t.fileNum !in FlushNum(flush) && forall m :: m in job.inputs ==> m.fileNum < t.fileNum
  {
    hide GoodTable, Fresh, Distinct;
    var ms := Metas(job.outputs);
    forall t | t in ms
      ensures exists i :: 0 <= i < |job.outputs| && job.outputs[i].meta == t
      ensures t.fileNum in files && GoodTable(t, files[t.fileNum]) && t.level < NumLevels
      ensures Fresh(t.fileNum, log, v, n) && t.fileNum !in FlushNum(flush) && forall m :: m in job.inputs ==> m.fileNum < t.fileNum
    {
      var i :| 0 <= i < |ms| && ms[i] == t;
      assert OutputOk(job.outputs[i], job, log, files, v, n, flush);
    }
    forall t | t in ms ensures Unused(All(v.levels), t.fileNum) { FreshIsUnused(t.fileNum, log, v, n); }
    forall e | e in TableEntries(ms, files) ensures e in OutputEntries(job) {
      var t :| t in ms && t.fileNum in files && e in files[t.fileNum];
      var i :| 0 <= i < |ms| && ms[i] == t;
      assert OutputOk(job.outputs[i], job, log, files, v, n, flush);
      assert job.outputs[i] in job.outputs;
    }
    forall e | e in OutputEntries(job) ensures e in TableEntries(ms, files) {
      var t :| t in job.outputs && e in t.entries;
      var i :| 0 <= i < |job.outputs| && job.outputs[i] == t;
      assert OutputOk(job.outputs[i], job, log, files, v, n, flush);
      assert ms[i] in ms;
    }
  }

  /** In a version whose numbers are distinct, a table's number is an input's
      exactly when the table is an input. */
  lemma NumsOfInputs(ts: seq<TableMeta>, inputs: seq<TableMeta>)
    requires Distinct(ts) && forall t :: t in inputs ==> t in ts
    ensures forall t :: t in ts ==> (t.fileNum in Nums(inputs) <==> t in inputs)
  {
    forall t | t in ts && t.fileNum in Nums(inputs) ensures t in inputs {
      var u :| u in inputs && u.fileNum == t.fileNum;
      var i :| 0 <= i < |ts| && ts[i] == t;
      var j :| 0 <= j < |ts| && ts[j] == u;
      assert i == j;
    }
  }

  /** The version and the manifest after a commit. */
  ghost predicate Committed(v: Version, w: Version, inputs: seq<TableMeta>, outs: seq<TableMeta>) {
    && Healthy(w) && w.walCutoff == v.walCutoff && w.obsolete == v.obsolete + Nums(inputs)
    && forall t :: t in All(w.levels) <==> (t in All(v.levels) && t !in inputs) || t in outs
  }

  lemma CommitLive(v: Version, inputs: seq<TableMeta>, outs: seq<TableMeta>)
    requires Healthy(v) && Addable(v, outs) && forall t :: t in inputs ==> t in All(v.levels)
    ensures Committed(v, Replay(v, CommitEdits(inputs, outs)), inputs, outs)
  {
    hide WellFormed, Addable, Replay, Nums, CommitEdits;
    CommitFacts(v, inputs, outs);
    NumsOfInputs(All(v.levels), inputs);
  }

  lemma CommitTables(v: Version, w: Version, job: Job, files: map<nat, seq<Entry>>, outs: seq<TableMeta>)
    requires Committed(v, w, job.inputs, outs)
    ensures TableEntries(All(w.levels), files) == TableEntries(Outside(All(v.levels), job.inputs), files) + TableEntries(outs, files)
  {
    hide Healthy, TableEntries, Outside;
    OutsideMembers(All(v.levels), job.inputs);
    JoinedTables(All(w.levels), Outside(All(v.levels), job.inputs), outs, files);
  }

  /** Every live number before has one at least as large after. */
  lemma CommitMaxNum(v: Version, w: Version, inputs: seq<TableMeta>, outs: seq<TableMeta>, n: nat)
    requires Committed(v, w, inputs, outs) && outs != [] && MaxNum(All(v.levels)) < n
    requires forall t, m :: t in outs && m in inputs ==> m.fileNum < t.fileNum
    requires forall t :: t in outs ==> t.fileNum < n
    ensures MaxNum(All(v.levels)) <= MaxNum(All(w.levels)) < n
  {
    hide Healthy;
    assert outs[0] in outs;
    forall t | t in All(v.levels) ensures exists u :: u in All(w.levels) && t.fileNum <= u.fileNum {
      if t in inputs { assert t.fileNum <= outs[0].fileNum && outs[0] in All(w.levels); }
    }
    MaxNumGrows(All(v.levels), All(w.levels));
    Maxima(All(w.levels));
    Maxima(All(v.levels));
  }

  lemma CommitRetired(nums: set<nat>, v: Version, w: Version, inputs: seq<TableMeta>, outs: seq<TableMeta>)
    requires Committed(v, w, inputs, outs) && Retired(nums, All(v.levels)) && Distinct(All(v.levels))
    requires MaxNum(All(v.levels)) <= MaxNum(All(w.levels))
    requires forall t :: t in inputs ==> t in All(v.levels)
    requires forall t :: t in outs ==> t.fileNum !in nums && Unused(All(v.levels), t.fileNum)
    ensures Retired(nums + Nums(inputs), All(w.levels))
  {
    hide Healthy, MaxNum, Distinct;
    NumsOfInputs(All(v.levels), inputs);
    Maxima(All(v.levels));
    forall n | n in nums + Nums(inputs) ensures n <= MaxNum(All(w.levels)) && Unused(All(w.levels), n) {
      if n in Nums(inputs) { var m :| m in inputs && m.fileNum == n; }
    }
  }

  lemma {:induction false} LevelsAlike(v: Version, w: Version, es: seq<Edit>)
    requires |v.levels| == NumLevels && v.levels == w.levels && v.walCutoff == w.walCutoff
    ensures Replay(v, es).levels == Replay(w, es).levels && Replay(v, es).walCutoff == Replay(w, es).walCutoff
    decreases |es|
  {
    if es != [] {
      hide Place, WithoutIn;
      LevelsAlike(v, w, es[..|es| - 1]);
    }
  }

  lemma CommitNums(log: seq<Edit>, inputs: seq<TableMeta>, outs: seq<TableMeta>)
    ensures LoggedNums(log + CommitEdits(inputs, outs)) == LoggedNums(log) + Nums(outs)
  {
    var edits := CommitEdits(inputs, outs);
    forall e | e in edits && e.AddSSTable? ensures e.meta in outs {
      var i :| 0 <= i < |edits| && edits[i] == e;
      assert i >= |inputs| && e == AddSSTable(outs[i - |inputs|]);
    }
    forall t | t in outs ensures AddSSTable(t) in edits {
      var i :| 0 <= i < |outs| && outs[i] == t;
      assert edits[|inputs| + i] == AddSSTable(t);
    }
    forall n | n in Nums(outs) ensures n in LoggedNums(log + edits) {
      var t :| t in outs && t.fileNum == n;
      assert AddSSTable(t) in log + edits;
    }
    assert forall e :: e in log + edits <==> e in log || e in edits;
  }

  /** Replaying the manifest with the commit's records appended. */
  lemma CommitReplay(v: Version, log: seq<Edit>, leaked: set<nat>, inputs: seq<TableMeta>, outs: seq<TableMeta>)
    requires Healthy(v) && Addable(v, outs) && (forall t :: t in inputs ==> t in All(v.levels)) && ManifestOk(log, v, leaked)
    ensures var u, w := Replay(EmptyVersion, log + CommitEdits(inputs, outs)), Replay(v, CommitEdits(inputs, outs));
            && u.levels == w.levels && u.walCutoff == w.walCutoff
            && u.obsolete == Replay(EmptyVersion, log).obsolete + Nums(inputs)
  {
    hide Replay, CommitEdits, Retired, LoggedNums, Nums, OrderedBySmallest, Distinct;
    var u := Replay(EmptyVersion, log);
    ReplayAppend(EmptyVersion, log, CommitEdits(inputs, outs));
    LevelsAlike(v, u, CommitEdits(inputs, outs));
    assert Healthy(u) && Addable(u, outs);
    CommitFacts(u, inputs, outs);
  }

  lemma CommitManifest(v: Version, w: Version, log: seq<Edit>, leaked: set<nat>, inputs: seq<TableMeta>,
                       outs: seq<TableMeta>, n: nat)
    requires Healthy(v) && Addable(v, outs) && (forall t :: t in inputs ==> t in All(v.levels)) && ManifestOk(log, v, leaked)
    requires w == Replay(v, CommitEdits(inputs, outs)) && Committed(v, w, inputs, outs)
    requires MaxNum(All(v.levels)) <= MaxNum(All(w.levels))
    requires forall t :: t in outs ==> Fresh(t.fileNum, log, v, n)
    ensures ManifestOk(log + CommitEdits(inputs, outs), w, leaked)
  {
    hide Replay, CommitEdits, Retired, LoggedNums, Healthy, MaxNum, Addable, All;
    CommitReplay(v, log, leaked, inputs, outs);
    CommitNums(log, inputs, outs);
    CommitRetired(Replay(EmptyVersion, log).obsolete, v, w, inputs, outs) by { HealthyIsDistinct(v); }
    Maxima(All(w.levels));
  }

  lemma HealthyIsDistinct(v: Version)
    requires Healthy(v)
    ensures Distinct(All(v.levels))
  {
  }

  lemma CommitFresh(k: nat, v: Version, w: Version, log: seq<Edit>, leaked: set<nat>, inputs: seq<TableMeta>,
                    outs: seq<TableMeta>, n: nat)
    requires Healthy(v) && Addable(v, outs) && (forall t :: t in inputs ==> t in All(v.levels)) && ManifestOk(log, v, leaked)
    requires w == Replay(v, CommitEdits(inputs, outs)) && Committed(v, w, inputs, outs)
    requires Fresh(k, log, v, n) && forall t :: t in outs ==> t.fileNum != k
    ensures Fresh(k, log + CommitEdits(inputs, outs), w, n)
  {
    CommitReplay(v, log, leaked, inputs, outs);
    CommitNums(log, inputs, outs);
    hide Replay, CommitEdits, Retired, LoggedNums, Healthy, MaxNum, Addable, All;
  }

  lemma CommitFlush(flush: Flush, imms: seq<seq<Entry>>, log: seq<Edit>, files: map<nat, seq<Entry>>, v: Version,
                    w: Version,
                    leaked: set<nat>, inputs: seq<TableMeta>, outs: seq<TableMeta>, n: nat)
    requires Healthy(v) && Addable(v, outs) && (forall t :: t in inputs ==> t in All(v.levels)) && ManifestOk(log, v, leaked)
    requires w == Replay(v, CommitEdits(inputs, outs)) && Committed(v, w, inputs, outs)
    requires FlushOk(flush, imms, log, files, v, n) && (forall t :: t in outs ==> t.fileNum !in FlushNum(flush))
    requires flush.Logged? ==> flush.meta !in inputs
    ensures FlushOk(flush, imms, log + CommitEdits(inputs, outs), files, w, n)
  {
    hide Replay, CommitEdits, ManifestOk, Healthy, Addable, All, GoodTable, Fresh, FileHolds;
    match flush {
      case Building(k) => CommitFresh(k, v, w, log, leaked, inputs, outs, n);
      case Built(m) => CommitFresh(m.fileNum, v, w, log, leaked, inputs, outs, n);
      case _ =>
    }
  }

  /** What has been written since the start cannot be what resurrects a key. */
  lemma NewsIrrelevant(ins: set<Entry>, others: set<Entry>, news: set<Entry>, f: nat, k: bytes)
    requires forall e :: e in news ==> e.key.num > f
    requires !Resurrects(ins, others, f, k)
    ensures !Resurrects(ins, others + news, f, k)
  {
    forall e ensures Newest(ins + (others + news), k, f, e) ==> Newest(ins + others, k, f, e) { }
    forall e ensures Newest(others + news, k, f, e) ==> Newest(others, k, f, e) { }
  }

  /** The commit shows no reader at or above the floor anything else. */
  lemma CommitFaithful(job: Job, ins: set<Entry>, now: set<Entry>, floor: nat, h: seq<Batch>)
    requires HistoryOk(h) && Faithful(ins + now, floor, h) && job.floor <= floor && job.floor < job.next
    requires now == job.others + Since(h, job.next)
    requires forall e :: e in ins ==> (e.key.num <= job.oldest <==> e.key.num <= job.floor)
    requires job.bottom ==> forall k :: !Resurrects(ins, job.others, job.floor, k)
    ensures Faithful(Survivors(ins, job.oldest, job.bottom) + now, floor, h)
  {
    SurvivorsSame(ins, job.oldest, job.floor, job.bottom);
    HistoryFacts(h);
    CoherentSubset(Entire(h), ins + now);
    var news := Since(h, job.next);
    assert forall e :: e in news ==> e.key.num > job.floor;
    hide HistoryOk, Since, Entire, Resurrects, Coherent, Answer;
    if job.bottom {
      forall k, r | r >= floor
        ensures Answer(Survivors(ins, job.floor, true) + now, k, r) == Answer(Entire(h), k, r)
      {
        NewsIrrelevant(ins, job.others, news, job.floor, k);
        InvisibleAt(ins, now, job.floor, k, r);
      }
    } else {
      assert Survivors(ins, job.floor, false) == ins;
    }
  }

  lemma CommitVersion(v: Version, w: Version, job: Job, files: map<nat, seq<Entry>>, outs: seq<TableMeta>,
                      h: seq<Batch>, covered: nat)
    requires HistoryOk(h) && VersionOk(v, files, h, covered) && Committed(v, w, job.inputs, outs)
    requires Present(outs, files) && TableEntries(outs, files) <= Entire(h)
    requires Retired(v.obsolete + Nums(job.inputs), All(w.levels))
    ensures VersionOk(w, files, h, covered)
    ensures TableEntries(All(w.levels), files) == TableEntries(Outside(All(v.levels), job.inputs), files) + TableEntries(outs, files)
  {
    hide HistoryOk, Healthy, TableEntries, GoodTable, Retired, Nums, Outside, Entire;
    CommitTables(v, w, job, files, outs);
    OutsideMembers(All(v.levels), job.inputs);
    JoinedTables(All(v.levels), All(v.levels), Outside(All(v.levels), job.inputs), files);
  }

  /** The tables' side of a commit. */
  lemma CommitLevels(disk: Disk, v: Version, n: nat, flush: Flush, job: Job, h: seq<Batch>, covered: nat,
                     leaked: set<nat>,
                     w: Version, outs: seq<TableMeta>, log: seq<Edit>)
    requires HistoryOk(h) && VersionOk(v, disk.files, h, covered) && ManifestOk(disk.log, v, leaked) && MaxNum(All(v.levels)) < n
    requires OutputsOk(job, disk.log, disk.files, v, n, flush) && CapturedOk(job, disk.files, v)
    requires job.outputs != [] && outs == Metas(job.outputs)
    requires w == Replay(v, CommitEdits(job.inputs, outs)) && log == disk.log + CommitEdits(job.inputs, outs)
    requires OutputEntries(job) == Survivors(InputEntries(job, disk.files), job.oldest, job.bottom)
    ensures VersionOk(w, disk.files, h, covered) && ManifestOk(log, w, leaked) && MaxNum(All(w.levels)) < n
    ensures Healthy(v) && Addable(v, outs) && Committed(v, w, job.inputs, outs)
    ensures forall t :: t in outs ==> t.fileNum !in FlushNum(flush)
    ensures TableEntries(All(w.levels), disk.files) == TableEntries(Outside(All(v.levels), job.inputs), disk.files) + OutputEntries(job)
  {
    hide HistoryOk, Present, TableEntries, ManifestOk, OutputsOk, Replay, CommitEdits, MaxNum, Addable, WellFormed,
         Distinct, Retired, All, Outside, OutputEntries, Entire, Resurrects, Nums, Fresh;
    OutputTables(job, disk.log, disk.files, v, n, flush);
    CommitLive(v, job.inputs, outs);
    forall t | t in outs ensures t.fileNum !in v.obsolete && Unused(All(v.levels), t.fileNum) && t.fileNum < n {
      FreshFacts(t.fileNum, disk.log, v, n);
    }
    CommitMaxNum(v, w, job.inputs, outs, n);
    CommitRetired(v.obsolete, v, w, job.inputs, outs);
    CommitManifest(v, w, disk.log, leaked, job.inputs, outs, n);
    InputsAndOthers(All(v.levels), job.inputs, disk.files);
    assert OutputEntries(job) <= InputEntries(job, disk.files);
    hide Committed, Survivors, Unused;
    CommitVersion(v, w, job, disk.files, outs, h, covered);
  }

  lemma FreshFacts(k: nat, log: seq<Edit>, v: Version, n: nat)
    requires Fresh(k, log, v, n)
    ensures k < n && k !in v.obsolete && Unused(All(v.levels), k)
  {
  }

  lemma CommitView(disk: Disk, db: Db, p: Past, job: Job)
    requires HistoryOk(p.history) && JobOk(job, disk, db, p.history)
    requires Faithful(TableEntries(All(db.version.levels), disk.files) + MemEntries(db.imms, db.mem), Floor(db), p.history)
    ensures Faithful(TableEntries(Outside(All(db.version.levels), job.inputs), disk.files)
                     + Survivors(InputEntries(job, disk.files), job.oldest, job.bottom) + MemEntries(db.imms, db.mem), Floor(db), p.history)
  {
    hide HistoryOk, Faithful, TableEntries, MemEntries, OutputsOk, Outside, Survivors, Resurrects, Since, Floor, All;
    InputsAndOthers(All(db.version.levels), job.inputs, disk.files);
    var o := TableEntries(Outside(All(db.version.levels), job.inputs), disk.files);
    var ins, mems := InputEntries(job, disk.files), MemEntries(db.imms, db.mem);
    assert ins == TableEntries(job.inputs, disk.files);
    assert ins + o + mems == ins + (o + mems);
    CommitFaithful(job, ins, o + mems, Floor(db), p.history);
    var out := Survivors(ins, job.oldest, job.bottom);
    assert out + (o + mems) == o + out + mems;
  }

  lemma CompactCommitKeeps(disk: Disk, db: Db, p: Past, job: Job, edits: seq<Edit>)
    requires db.job == Some(job) && |db.version.levels| == NumLevels && job.outputs != []
    requires edits == CommitEdits(job.inputs, Metas(job.outputs))
    requires OutputEntries(job) == Survivors(InputEntries(job, disk.files), job.oldest, job.bottom)
    requires ServingOk(disk, db, p)
    ensures ServingOk(disk.(log := disk.log + edits), db.(version := Replay(db.version, edits), job := None), p)
  {
    hide MemEntries, WalOk, OthersOk, TableEntries, HistoryOk, Boundary, Healthy, MemsOk, ManifestOk, OutputsOk,
         FlushOk, MaxNum, Count, VersionOk, Replay, CommitEdits, Survivors, OutputEntries, Addable, Committed,
         Faithful, Resurrects, Snapshots.OldestOf;
    var v, n, outs := db.version, db.nextFileNum, Metas(job.outputs);
    var w := Replay(v, edits);
    CommitLevels(disk, v, n, db.flush, job, p.history, p.covered, p.leaked, w, outs, disk.log + edits);
    CommitView(disk, db, p, job);
    CommitFlush(db.flush, db.imms, disk.log, disk.files, v, w, p.leaked, job.inputs, outs, n);
  }
}
