/** Every step keeps the invariant: the steps that serve. */
module EngineSteps {
  import opened Bytes
  import opened InternalKeys
  import opened Versions
  import opened VersionSets
  import opened Reads
  import opened WalRecords
  import opened WalLogs
  import opened Histories
  import opened Recoveries
  import opened Compactions
  import opened CompactionCommits
  import opened Engine
  import opened EngineInvariant
  import Snapshots

  // ------------------------------------------------------------- small facts

  lemma JoinedTables(ts: seq<TableMeta>, us: seq<TableMeta>, vs: seq<TableMeta>, files: map<nat, seq<Entry>>)
    requires forall t :: t in ts <==> t in us || t in vs
    ensures TableEntries(ts, files) == TableEntries(us, files) + TableEntries(vs, files)
  {
  }

  lemma OneTable(t: TableMeta, files: map<nat, seq<Entry>>)
    requires t.fileNum in files
    ensures TableEntries([t], files) == Elements(files[t.fileNum])
  {
  }

  lemma {:induction false} OutsideMembers(ts: seq<TableMeta>, inputs: seq<TableMeta>)
    ensures forall t :: t in Outside(ts, inputs) <==> t in ts && t !in inputs
    decreases |ts|
  {
    if ts != [] {
      OutsideMembers(ts[..|ts| - 1], inputs);
      assert ts == ts[..|ts| - 1] + [ts[|ts| - 1]];
    }
  }

  /** Live entries are those of a job's inputs and all the others. */
  lemma InputsAndOthers(ts: seq<TableMeta>, inputs: seq<TableMeta>, files: map<nat, seq<Entry>>)
    requires forall t :: t in inputs ==> t in ts
    ensures TableEntries(ts, files) == TableEntries(inputs, files) + TableEntries(Outside(ts, inputs), files)
  {
    OutsideMembers(ts, inputs);
    JoinedTables(ts, inputs, Outside(ts, inputs), files);
  }

  lemma MaxNumGrows(ts: seq<TableMeta>, us: seq<TableMeta>)
    requires forall t :: t in ts ==> exists u :: u in us && t.fileNum <= u.fileNum
    ensures MaxNum(ts) <= MaxNum(us)
  {
    Maxima(ts);
    Maxima(us);
    if MaxNum(ts) > 0 {
      var t :| t in ts && t.fileNum == MaxNum(ts);
      var u :| u in us && t.fileNum <= u.fileNum;
    }
  }

  lemma {:induction false} OldestGrows(seqs: seq<nat>, a: nat, b: nat)
    requires a <= b
    ensures Snapshots.OldestOf(seqs, a) <= Snapshots.OldestOf(seqs, b)
    decreases |seqs|
  {
    if seqs != [] { OldestGrows(seqs[..|seqs| - 1], a, b); }
  }

  /** Both sides of a faithful reading may grow by the same newer entries. */
  lemma FaithfulGrows(S: set<Entry>, H: set<Entry>, N: set<Entry>, k: bytes, r: nat)
    requires Coherent(H + N) && S <= H && Answer(S, k, r) == Answer(H, k, r)
    requires forall h, n :: h in H && n in N ==> h.key.num < n.key.num
    ensures Answer(S + N, k, r) == Answer(H + N, k, r)
  {
    CoherentSubset(H + N, H);
    CoherentSubset(H + N, S);
    CoherentSubset(H + N, S + N);
    if v :| v in N && Visible(v, k, r) {
      assert v in H + N;
      var e := NewestExists(H + N, k, r, v);
      assert e in N;
      assert Newest(S + N, k, r, e);
      AnswerIs(S + N, k, r, e);
      AnswerIs(H + N, k, r, e);
    } else {
      SameVisible(S, S + N, k, r, r);
      SameVisible(H, H + N, k, r, r);
    }
  }

  // ----------------------------------------------------------- rotate, snapshots

  lemma RotateMems(mem: seq<Entry>, imms: seq<seq<Entry>>, cuts: seq<nat>, h: seq<Batch>, covered: nat)
    requires HistoryOk(h) && MemsOk(mem, imms, cuts, h, covered)
    ensures MemsOk([], imms + [mem], cuts + [|h|], h, covered)
    ensures MemEntries(imms + [mem], []) == MemEntries(imms, mem)
  {
    hide Count, Known, Written;
    UnionAppend(imms, mem);
    var cuts', imms' := cuts + [|h|], imms + [mem];
    forall i | 0 <= i < |imms'|
      ensures Sorted(imms'[i]) && Elements(imms'[i]) == Written(h, cuts'[i], cuts'[i + 1])
    {
      if i < |imms| { assert imms'[i] == imms[i]; }
    }
    NothingWritten(h);
  }

  lemma NothingWritten(h: seq<Batch>)
    requires HistoryOk(h)
    ensures Written(h, |h|, |h|) == {} == Elements([])
  {
  }

  lemma RotateKeeps(disk: Disk, db: Db, p: Past)
    requires ServingOk(disk, db, p)
    ensures ServingOk(disk, db.(imms := db.imms + [db.mem], mem := [], cuts := db.cuts + [|p.history|]), p)
  {
    hide MemsOk, MemEntries, VersionOk, ManifestOk, HistoryOk, WalOk, Boundary, Fresh, OutputsOk, CapturedOk,
         OthersOk, TableEntries, Faithful, GoodTable, Written, Numbered, Count, Elements;
    RotateMems(db.mem, db.imms, db.cuts, p.history, p.covered);
  }

  lemma AcquireFloor(seqs: seq<nat>, n: nat)
    ensures Snapshots.OldestOf([n] + seqs, n) == Snapshots.OldestOf(seqs, n)
  {
    Snapshots.OldestIsLeast([n] + seqs, n);
    Snapshots.OldestIsLeast(seqs, n);
    assert forall s :: s in seqs ==> s in [n] + seqs;
  }

  lemma AtCount(h: seq<Batch>)
    ensures Boundary(h, Count(h))
  {
    assert h[..|h|] == h;
  }

  lemma AcquireKeeps(disk: Disk, db: Db, p: Past)
    requires ServingOk(disk, db, p)
    ensures ServingOk(disk, db.(snapshots := [db.nextSeq - 1] + db.snapshots), p)
  {
    hide MemsOk, MemEntries, VersionOk, ManifestOk, WalOk, FlushOk, OutputsOk, CapturedOk, OthersOk, TableEntries,
         HistoryOk, Faithful, Snapshots.OldestOf, Boundary;
    AtCount(p.history);
    AcquireFloor(db.snapshots, db.nextSeq - 1);
  }

  lemma ReleaseFloor(seqs: seq<nat>, i: nat, n: nat)
    requires i < |seqs|
    ensures forall s :: s in seqs[..i] + seqs[i + 1..] ==> s in seqs
    ensures Snapshots.OldestOf(seqs, n) <= Snapshots.OldestOf(seqs[..i] + seqs[i + 1..], n)
  {
    var rest := seqs[..i] + seqs[i + 1..];
    forall s | s in rest ensures s in seqs {
      var j :| 0 <= j < |rest| && rest[j] == s;
      assert seqs[if j < i then j else j + 1] == s;
    }
    Snapshots.OldestIsLeast(seqs, n);
    Snapshots.OldestIsLeast(rest, n);
  }

  lemma ReleaseKeeps(disk: Disk, db: Db, p: Past, i: nat)
    requires ServingOk(disk, db, p) && i < |db.snapshots|
    ensures ServingOk(disk, db.(snapshots := db.snapshots[..i] + db.snapshots[i + 1..]), p)
  {
    hide MemsOk, MemEntries, VersionOk, ManifestOk, WalOk, FlushOk, OutputsOk, CapturedOk, OthersOk, TableEntries,
         HistoryOk, Snapshots.OldestOf, Boundary;
    ReleaseFloor(db.snapshots, i, db.nextSeq - 1);
  }

  // ------------------------------------------------------------ taking a number

  lemma NextIsFresh(log: seq<Edit>, v: Version, leaked: set<nat>, n: nat)
    requires ManifestOk(log, v, leaked) && Retired(v.obsolete, All(v.levels)) && MaxNum(All(v.levels)) < n
    ensures Fresh(n, log, v, n + 1)
  {
    hide Replay;
    Maxima(All(v.levels));
  }

  /** A fresh number stays fresh as the counter moves on, and none is the next one. */
  lemma StillFresh(job: Job, log: seq<Edit>, files: map<nat, seq<Entry>>, v: Version, n: nat)
    requires OutputsOk(job, log, files, v, n, Idle)
    ensures OutputsOk(job, log, files, v, n + 1, Building(n))
  {
    hide GoodTable, FileHolds, Replay;
    forall i | 0 <= i < |job.outputs| ensures OutputOk(job.outputs[i], job, log, files, v, n + 1, Building(n)) {
      assert OutputOk(job.outputs[i], job, log, files, v, n, Idle);
    }
  }

  lemma FlushBeginKeeps(disk: Disk, db: Db, p: Past)
    requires ServingOk(disk, db, p) && db.flush.Idle? && db.imms != []
    ensures ServingOk(disk, db.(flush := Building(db.nextFileNum), nextFileNum := db.nextFileNum + 1), p)
  {
    hide MemsOk, MemEntries, ManifestOk, WalOk, OutputsOk, CapturedOk, OthersOk, TableEntries, HistoryOk, Faithful,
         Boundary, Fresh, Retired, Present, Healthy;
    NextIsFresh(disk.log, db.version, p.leaked, db.nextFileNum);
    if db.job.Some? { StillFresh(db.job.value, disk.log, disk.files, db.version, db.nextFileNum); }
  }

  // ------------------------------------------------------------- log truncation

  lemma {:induction false} CoveredBatches(bs: seq<Batch>, a: nat, n: nat, c: nat)
    requires Numbered(bs) && Count(bs) < MaxSeq && a + n <= |bs| && a <= c <= |bs|
    requires Kept(bs[a..a + n], Count(bs[..c])) == []
    ensures a + n <= c
  {
    hide BatchMax, Count, Kept, Numbered;
    if n > 0 && c < a + n {
      EndsBeyond(bs, c, a + n - 1);
      KeptAt(bs[a..a + n], n - 1, Count(bs[..c]));
    }
  }

  /** A batch the cutoff does not cover ends beyond it. */
  lemma {:induction false} EndsBeyond(bs: seq<Batch>, c: nat, last: nat)
    requires Numbered(bs) && Count(bs) < MaxSeq && c <= last < |bs|
    ensures BatchMax(bs[last]) > Count(bs[..c])
  {
    hide BatchMax, Count;
    BatchEnds(bs, last);
    CountGrows(bs, c, last + 1);
    assert Known(bs[last]);
  }

  lemma {:induction false} KeptAt(bs: seq<Batch>, i: nat, cutoff: nat)
    requires i < |bs| && Kept(bs, cutoff) == []
    ensures BatchMax(bs[i]) <= cutoff
  {
    if i > 0 { KeptAt(bs[1..], i - 1, cutoff); }
  }

  lemma {:induction false} DropWal(wal: seq<seq<Batch>>, h: seq<Batch>, dropped: nat, covered: nat)
    requires HistoryOk(h) && WalOk(wal, h, dropped) && |wal| > 1 && dropped <= covered <= |h|
    requires Kept(wal[0], Count(h[..covered])) == []
    ensures dropped + |wal[0]| <= covered && WalOk(wal[1..], h, dropped + |wal[0]|)
  {
    hide Numbered, Count, Kept;
    var n := |wal[0]|;
    assert Concat(wal) == wal[0] + Concat(wal[1..]);
    assert h[dropped..][..n] == wal[0] && h[dropped..][n..] == Concat(wal[1..]);
    assert h[dropped..][..n] == h[dropped..dropped + n] && h[dropped..][n..] == h[dropped + n..];
    CoveredBatches(h, dropped, n, covered);
  }

  lemma DropSegmentKeeps(disk: Disk, db: Db, p: Past)
    requires ServingOk(disk, db, p) && |disk.wal| > 1 && Kept(disk.wal[0], db.version.walCutoff) == []
    ensures ServingOk(disk.(wal := disk.wal[1..]), db, p.(dropped := p.dropped + |disk.wal[0]|))
  {
    hide WalOk, ManifestOk, FlushOk, OutputsOk, CapturedOk, OthersOk, TableEntries, MemEntries, HistoryOk, Healthy,
         Present, Retired, Kept, MemsOk, Faithful, Boundary;
    DropWal(disk.wal, p.history, p.dropped, p.covered);
  }

  // ---------------------------------------------------------- manifest rewriting

  lemma RewrittenNums(v: Version)
    ensures forall n :: n in LoggedNums(Rewritten(v)) ==> exists t :: t in All(v.levels) && t.fileNum == n
  {
    var ts := All(v.levels);
    forall n | n in LoggedNums(Rewritten(v)) ensures exists t :: t in ts && t.fileNum == n {
      var e :| e in Rewritten(v) && e.AddSSTable? && e.meta.fileNum == n;
      var i :| 0 <= i < |Rewritten(v)| && Rewritten(v)[i] == e;
      assert i < |ts| && e == AddSSTable(ts[i]);
    }
  }

  lemma RewriteManifest(v: Version, log: seq<Edit>, leaked: set<nat>)
    requires WellFormed(v)
    ensures ManifestOk(Rewritten(v), v, leaked + v.obsolete)
    ensures forall n, m :: Fresh(n, log, v, m) ==> Fresh(n, Rewritten(v), v, m)
  {
    hide WellFormed, Replay, Rewritten;
    RewriteReplays(v);
    RewrittenNums(v);
    Maxima(All(v.levels));
  }

  lemma CompactManifestKeeps(disk: Disk, db: Db, p: Past)
    requires ServingOk(disk, db, p)
    ensures ServingOk(disk.(log := Rewritten(db.version)), db, p.(leaked := p.leaked + db.version.obsolete))
  {
    hide ManifestOk, Fresh, TableEntries, MemEntries, HistoryOk, Present, Retired, Rewritten, GoodTable, Distinct,
         WalOk, MemsOk, Faithful, Boundary, CapturedOk, OthersOk, FileHolds;
    RewriteManifest(db.version, disk.log, p.leaked);
  }
}
