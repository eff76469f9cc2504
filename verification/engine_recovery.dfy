/** Every step keeps the invariant: a crash anywhere, recovery batch by batch and
    page by page, and reopening. */
module EngineRecovery {
  import opened Bytes
  import opened InternalKeys
  import opened Versions
  import opened VersionSets
  import opened Reads
  import opened TableMetas
  import opened WalRecords
  import opened WalLogs
  import opened Histories
  import opened Recoveries
  import opened CompactionCommits
  import opened Engine
  import opened EngineInvariant
  import opened EngineSteps
  import opened EngineFlush
  import Snapshots

  // -------------------------------------------------------------------- crash

  lemma MemsBeyond(mem: seq<Entry>, imms: seq<seq<Entry>>, cuts: seq<nat>, h: seq<Batch>, covered: nat)
    requires HistoryOk(h) && MemsOk(mem, imms, cuts, h, covered)
    ensures covered <= |h| && MemEntries(imms, mem) <= Written(h, covered, |h|)
  {
    hide Count, Known, Written;
    assert cuts[0] <= cuts[|imms|];
    forall e | e in MemEntries(imms, mem) ensures e in Written(h, covered, |h|) {
      if e in mem {
        assert e in Elements(mem);
        Within(h, covered, cuts[|imms|], |h|);
      } else {
        var s: seq<Entry> :| s in imms && e in s;
        var i :| 0 <= i < |imms| && imms[i] == s;
        assert e in Elements(imms[i]);
        assert cuts[0] <= cuts[i] <= cuts[i + 1] <= cuts[|imms|];
        Within(h, covered, cuts[i], cuts[i + 1]);
      }
    }
  }

  lemma Within(h: seq<Batch>, a: nat, b: nat, c: nat)
    requires HistoryOk(h) && a <= b <= c <= |h|
    ensures Written(h, b, c) <= Written(h, a, |h|)
  {
  }

  /** What a cutoff leaves in the log is everything numbered above it. */
  lemma BeyondCutoff(h: seq<Batch>, covered: nat)
    requires HistoryOk(h) && covered <= |h|
    ensures Written(h, covered, |h|) == set e | e in Entire(h) && e.key.num > Count(h[..covered])
  {
    hide Count, Numbered, Entire;
    WrittenRange(h, covered, |h|);
    HistoryFacts(h);
    assert h[..|h|] == h;
  }

  /** The tables and what the log still holds read as the history. */
  lemma CrashFaithful(tables: set<Entry>, mems: set<Entry>, floor: nat, h: seq<Batch>, covered: nat)
    requires HistoryOk(h) && covered <= |h| && Faithful(tables + mems, floor, h) && floor <= Count(h)
    requires mems <= Written(h, covered, |h|)
    ensures Faithful(tables + Written(h, covered, |h|), Count(h), h)
  {
    hide Answer, Count, Numbered, Entire, Written;
    HistoryFacts(h);
    BeyondCutoff(h, covered);
    hide HistoryOk;
    var L, R := tables + mems, tables + Written(h, covered, |h|);
    assert R == L + set e | e in Entire(h) && e.key.num > Count(h[..covered]);
    forall k, r | r >= Count(h) ensures Answer(R, k, r) == Answer(Entire(h), k, r) {
      SuffixCompletion(L, Entire(h), Count(h[..covered]), R, k, r);
    }
  }

  lemma LargestBound(ts: seq<TableMeta>, files: map<nat, seq<Entry>>, h: seq<Batch>)
    requires HistoryOk(h) && Present(ts, files) && TableEntries(ts, files) <= Entire(h)
    ensures MaxLargest(ts) <= Count(h)
  {
    hide Count, Numbered, Entire, Describes, HighSeq;
    Maxima(ts);
    HistoryFacts(h);
    if MaxLargest(ts) > 0 {
      var t :| t in ts && t.largestSeq == MaxLargest(ts);
      var s := files[t.fileNum];
      SeqBounds(s);
      NoneIsZero();
      if s != [] {
        var e :| e in s && e.key.num == HighSeq(s);
        assert e in TableEntries(ts, files);
      }
    }
  }

  lemma NoneIsZero()
    ensures HighSeq([]) == 0
  {
  }

  /** The manifest's version stands in for the live one. */
  lemma ReplayedVersion(v: Version, log: seq<Edit>, leaked: set<nat>, files: map<nat, seq<Entry>>, h: seq<Batch>,
                        covered: nat)
    requires HistoryOk(h) && VersionOk(v, files, h, covered) && ManifestOk(log, v, leaked)
    ensures VersionOk(Replay(EmptyVersion, log), files, h, covered) && ManifestOk(log, Replay(EmptyVersion, log), leaked)
    ensures Replay(EmptyVersion, log).levels == v.levels
  {
    hide HistoryOk, Replay, Present, TableEntries, OrderedBySmallest, Distinct, Retired, LoggedNums, Entire, Count;
  }

  lemma StartMaxima(v: Version, files: map<nat, seq<Entry>>, h: seq<Batch>, covered: nat, dropped: nat)
    requires HistoryOk(h) && VersionOk(v, files, h, covered) && dropped <= covered
    ensures Count(h[..Max(dropped, covered)]) <= Max(MaxLargest(All(v.levels)), v.walCutoff) <= Count(h)
  {
    hide HistoryOk, Healthy, Present, TableEntries, Retired, Entire, Count;
    LargestBound(All(v.levels), files, h);
    CountGrows(h, covered, |h|);
    assert h[..|h|] == h;
  }

  lemma JunkAside(files: map<nat, seq<Entry>>, junk: map<nat, seq<Entry>>)
    ensures AgreeBut(files, files + junk, junk.Keys)
  {
  }

  /** Recovery starts in a state its invariant allows, whatever unlogged files the
      crash left. */
  lemma StartOk(wal: seq<seq<Batch>>, log: seq<Edit>, files: map<nat, seq<Entry>>, junk: map<nat, seq<Entry>>,
                p: Past, v: Version)
    requires HistoryOk(p.history) && p.dropped <= p.covered && WalOk(wal, p.history, p.dropped)
    requires v == Replay(EmptyVersion, log) && VersionOk(v, files, p.history, p.covered) && ManifestOk(log, v, p.leaked)
    requires Faithful(TableEntries(All(v.levels), files) + Written(p.history, p.covered, |p.history|), Count(p.history), p.history)
    requires forall n :: n in junk ==> Unused(All(v.levels), n)
    ensures RecoveringOk(wal, Start(log, files + junk), Concat(wal), p.dropped, p.covered, p)
  {
    hide HistoryOk, Healthy, Present, TableEntries, Retired, Entire, Replay, Faithful, Unused, AgreeBut, MaxNum,
         MaxLargest, Count, Concat, All;
    var h, covered := p.history, p.covered;
    JunkAside(files, junk);
    FilesMove(v, files, files + junk, junk.Keys, h, covered);
    StartMaxima(v, files, h, covered, p.dropped);
    NothingBetween(h, covered);
  }

  lemma NothingBetween(h: seq<Batch>, a: nat)
    requires HistoryOk(h) && a <= |h|
    ensures Written(h, a, a) == {} == Elements([])
  {
  }

  lemma CrashKeeps(disk: Disk, db: Db, p: Past, junk: map<nat, seq<Entry>>)
    requires forall t :: t in All(Replay(EmptyVersion, disk.log).levels) ==> t.fileNum !in junk
    requires ServingOk(disk, db, p)
    ensures RecoveringOk(disk.wal, Start(disk.log, disk.files + junk), Concat(disk.wal), p.dropped, p.covered, p)
  {
    hide HistoryOk, Healthy, Present, TableEntries, Retired, Entire, Replay, Faithful, MaxNum, MaxLargest, Count,
         Concat, MemsOk, MemEntries, JobOk, FlushOk, Snapshots.OldestOf, Start, WalOk, Written, Boundary;
    ReplayedVersion(db.version, disk.log, p.leaked, disk.files, p.history, p.covered);
    MemsBeyond(db.mem, db.imms, db.cuts, p.history, p.covered);
    hide VersionOk, ManifestOk;
    FloorBelow(db, Count(p.history));
    CrashFaithful(TableEntries(All(db.version.levels), disk.files), MemEntries(db.imms, db.mem), Floor(db), p.history, p.covered);
    StartOk(disk.wal, disk.log, disk.files, junk, p, Replay(EmptyVersion, disk.log));
  }

  lemma FloorBelow(db: Db, n: nat)
    requires db.nextSeq == n + 1
    ensures Floor(db) <= n
  {
    Snapshots.OldestIsLeast(db.snapshots, db.nextSeq - 1);
  }

  lemma CrashAgainKeeps(wal: seq<seq<Batch>>, rec: Rec, todo: seq<Batch>, read: nat, begin: nat, p: Past,
                        junk: map<nat, seq<Entry>>)
    requires forall t :: t in All(Replay(EmptyVersion, rec.log).levels) ==> t.fileNum !in junk
    requires RecoveringOk(wal, rec, todo, read, begin, p)
    ensures RecoveringOk(wal, Start(rec.log, rec.files + junk), Concat(wal), p.dropped, p.covered, p)
  {
    hide HistoryOk, VersionOk, ManifestOk, WalOk, TableEntries, Entire, Replay, Faithful, MaxNum, MaxLargest, Count,
         Concat, Start, Written;
    StartOk(wal, rec.log, rec.files, junk, p, rec.version);
  }

  // ------------------------------------------------------------- one more batch

  lemma SkipStep(h: seq<Batch>, covered: nat, read: nat)
    requires HistoryOk(h) && covered <= |h| && read < |h|
    ensures BatchMax(h[read]) == Count(h[..read + 1])
    ensures BatchMax(h[read]) <= Count(h[..covered]) <==> read < covered
  {
    hide BatchMax;
    BatchEnds(h, read);
    if read < covered {
      CountGrows(h, read + 1, covered);
    } else {
      CountGrows(h, covered, read + 1);
      assert Known(h[read]);
    }
  }

  /** Below the cutoff nothing changes but how far the log has been read. */
  lemma SkipKeeps(wal: seq<seq<Batch>>, rec: Rec, todo: seq<Batch>, read: nat, begin: nat, p: Past)
    requires todo != [] && read < p.covered && RecoveringOk(wal, rec, todo, read, begin, p)
    ensures RecoveringOk(wal, rec, todo[1..], read + 1, begin, p)
  {
    hide HistoryOk, VersionOk, ManifestOk, WalOk, TableEntries, Entire, Replay, Faithful, MaxNum, Count, Written,
         Sorted, Elements;
    assert p.history[read..][1..] == p.history[read + 1..];
  }

  /** The memtable takes the next batch. */
  lemma TakeBatch(rec: Rec, read: nat, begin: nat, h: seq<Batch>, covered: nat)
    requires HistoryOk(h) && covered <= begin <= read < |h| && RecoveredOk(rec, read, begin, h, covered)
    ensures RecoveredOk(InsertBatch(rec, h[read]), read + 1, begin, h, covered)
  {
    var b := h[read];
    assert Storable(b);
    CountGrows(h, read + 1, |h|);
    CountStep(h, read);
    assert h[..|h|] == h;
    hide Numbered, Entire, Faithful, TableEntries, MaxNum, Count, BatchSize, WithBatch;
    forall e | e in rec.mem ensures e.key.num < b.seqStart {
      assert e in Elements(rec.mem);
      WrittenBound(h, begin, read);
    }
    WithBatchFacts(rec.mem, b);
    WrittenSplits(h, begin, read, read + 1);
    OneBatch(h, read);
  }

  lemma OneBatch(h: seq<Batch>, j: nat)
    requires HistoryOk(h) && j < |h|
    ensures Known(h[j]) && Written(h, j, j + 1) == EntriesIn(h[j])
  {
  }

  /** Paging moves the memtable into a table and starts an empty one. */
  lemma PageKeeps(rec: Rec, read: nat, begin: nat, h: seq<Batch>, covered: nat, leaked: set<nat>, sizeOf: Sizer)
    requires HistoryOk(h) && covered <= begin <= read <= |h| && RecoveredOk(rec, read, begin, h, covered)
    requires |rec.version.levels| == NumLevels && Encodable(rec.mem)
    requires VersionOk(rec.version, rec.files, h, covered) && ManifestOk(rec.log, rec.version, leaked)
    requires rec.version == Replay(EmptyVersion, rec.log)
    ensures var r := Page(rec, sizeOf);
            && VersionOk(r.version, r.files, h, covered) && ManifestOk(r.log, r.version, leaked)
            && r.version == Replay(EmptyVersion, r.log)
            && RecoveredOk(r, read, read, h, covered)
  {
    hide Encodable, Entire, Numbered, Count, TableEntries, MaxNum, Replay, Healthy, Written, VersionOk, ManifestOk,
         Faithful, MetaOf, All, Add;
    var n, v, s := rec.maxFileNum + 1, rec.version, rec.mem;
    MetaDescribes(n, 0, s, sizeOf(s));
    PagedMeta(n, s, sizeOf(s));
    var m := MetaOf(n, 0, s, sizeOf(s));
    WithinHistory(h, begin, read);
    PagedTable(rec, leaked, h, covered, n, s, m);
    AddedLog(m, rec.log);
    PagedMem(TableEntries(All(v.levels), rec.files), Elements(s), h, covered, begin, read);
  }

  /** A page adds the memtable's entries to those of the tables. */
  lemma PageAdds(rec: Rec, h: seq<Batch>, covered: nat, leaked: set<nat>, sizeOf: Sizer)
    requires HistoryOk(h) && |rec.version.levels| == NumLevels && Encodable(rec.mem)
    requires VersionOk(rec.version, rec.files, h, covered) && ManifestOk(rec.log, rec.version, leaked)
    requires Sorted(rec.mem) && Elements(rec.mem) <= Entire(h) && rec.maxFileNum == MaxNum(All(rec.version.levels))
    ensures var r := Page(rec, sizeOf);
            TableEntries(All(r.version.levels), r.files) == TableEntries(All(rec.version.levels), rec.files) + Elements(rec.mem)
  {
    hide Encodable, Entire, HistoryOk, TableEntries, MaxNum, VersionOk, ManifestOk, MetaOf, All, Add, Elements, Sorted;
    var n, s := rec.maxFileNum + 1, rec.mem;
    PagedMeta(n, s, sizeOf(s));
    PagedTable(rec, leaked, h, covered, n, s, MetaOf(n, 0, s, sizeOf(s)));
  }

  lemma WithinHistory(h: seq<Batch>, a: nat, b: nat)
    requires HistoryOk(h) && a <= b <= |h|
    ensures Written(h, a, b) <= Entire(h)
  {
  }

  lemma PagedMeta(n: nat, s: seq<Entry>, size: int)
    requires Encodable(s) && Sorted(s)
    ensures s != [] ==> s[0].key.num < MaxSeq && s[|s| - 1].key.num < MaxSeq
    ensures var m := MetaOf(n, 0, s, size); GoodTable(m, s) && m.fileNum == n && m.level == 0
  {
    MetaDescribes(n, 0, s, size);
  }

  lemma PagedTable(rec: Rec, leaked: set<nat>, h: seq<Batch>, covered: nat, n: nat, s: seq<Entry>, m: TableMeta)
    requires HistoryOk(h) && VersionOk(rec.version, rec.files, h, covered) && ManifestOk(rec.log, rec.version, leaked)
    requires |rec.version.levels| == NumLevels && n == MaxNum(All(rec.version.levels)) + 1
    requires GoodTable(m, s) && m.fileNum == n && m.level == 0 && Elements(s) <= Entire(h)
    ensures var files, w := rec.files[n := s], Add(rec.version, m);
            && VersionOk(w, files, h, covered) && ManifestOk(rec.log + [AddSSTable(m)], w, leaked)
            && TableEntries(All(w.levels), files) == TableEntries(All(rec.version.levels), rec.files) + Elements(s)
            && MaxNum(All(w.levels)) == n
  {
    hide HistoryOk, GoodTable, TableEntries, MaxNum, Replay, Add, Healthy, Present, Elements, All, AgreeBut,
         LoggedNums, Entire, Unused;
    var v, files := rec.version, rec.files[n := s];
    NewFile(rec.files, n, s);
    NextIsFresh(rec.log, v, leaked, n);
    hide ManifestOk, Retired;
    FreshIsUnused(n, rec.log, v, n + 1);
    assert forall k :: k in {n} ==> Unused(All(v.levels), k);
    FilesMove(v, rec.files, files, {n}, h, covered);
    hide VersionOk;
    AddedVersion(v, m, s, rec.log, leaked, files, h, covered, n + 1);
    Maxima(All(Add(v, m).levels));
    assert m in All(Add(v, m).levels);
  }

  lemma PagedMem(tables: set<Entry>, mem: set<Entry>, h: seq<Batch>, covered: nat, begin: nat, read: nat)
    requires HistoryOk(h) && covered <= begin <= read <= |h| && mem == Written(h, begin, read)
    requires Written(h, covered, begin) <= tables && Faithful(tables + Written(h, covered, |h|), Count(h), h)
    ensures Written(h, covered, read) <= tables + mem && Faithful(tables + mem + Written(h, covered, |h|), Count(h), h)
    ensures Written(h, read, read) == {} == Elements([])
  {
    hide Answer, Count, Known, Faithful, Entire;
    WrittenSplits(h, covered, begin, read);
    Within(h, covered, begin, read);
    NothingBetween(h, read);
    hide Written;
    assert tables + mem + Written(h, covered, |h|) == tables + Written(h, covered, |h|);
  }

  lemma RecoverNextKeeps(wal: seq<seq<Batch>>, rec: Rec, todo: seq<Batch>, read: nat, begin: nat, p: Past,
                         limit: int, sizeOf: Sizer)
    requires todo != [] && Storable(todo[0]) && Encodable(rec.mem) && |rec.version.levels| == NumLevels
    requires RecoveringOk(wal, rec, todo, read, begin, p)
    ensures var r := RecoverBatch(rec, todo[0], limit, sizeOf);
            RecoveringOk(wal, r, todo[1..], read + 1, if r.maxFileNum != rec.maxFileNum then read + 1 else begin, p)
  {
    hide Encodable, HistoryOk, VersionOk, ManifestOk, WalOk, RecoveredOk, Replay, Count, InsertBatch, Page, BatchMax;
    var h := p.history;
    assert todo[0] == h[read] && h[read..][1..] == h[read + 1..];
    SkipStep(h, p.covered, read);
    CutoffIs(rec.version, rec.files, h, p.covered);
    if read < p.covered {
      SkipKeeps(wal, rec, todo, read, begin, p);
    } else {
      TakeBatch(rec, read, begin, h, p.covered);
      var ins := Inserted(rec, todo[0]);
      if ins.size > limit { PageKeeps(ins, read + 1, begin, h, p.covered, p.leaked, sizeOf); }
    }
  }

  /** Whatever is paged out, the tables and what the cutoff does not cover of the
      log hold the same entries together. */
  lemma RecoverNextHolds(wal: seq<seq<Batch>>, rec: Rec, todo: seq<Batch>, read: nat, begin: nat, p: Past,
                         limit: int, sizeOf: Sizer)
    requires todo != [] && Storable(todo[0]) && Encodable(rec.mem) && |rec.version.levels| == NumLevels
    requires RecoveringOk(wal, rec, todo, read, begin, p)
    ensures var r, logged := RecoverBatch(rec, todo[0], limit, sizeOf), Written(p.history, p.covered, |p.history|);
            TableEntries(All(r.version.levels), r.files) + logged == TableEntries(All(rec.version.levels), rec.files) + logged
  {
    hide Encodable, Numbered, AllStorable, VersionOk, ManifestOk, WalOk, RecoveredOk, Replay, Count, InsertBatch,
         Page, BatchMax, TableEntries, Written, Elements;
    var h := p.history;
    assert todo[0] == h[read];
    SkipStep(h, p.covered, read);
    CutoffIs(rec.version, rec.files, h, p.covered);
    if read >= p.covered {
      TakeBatch(rec, read, begin, h, p.covered);
      var ins := Inserted(rec, todo[0]);
      MemIs(ins, read + 1, begin, h, p.covered);
      if ins.size > limit {
        PageAdds(ins, h, p.covered, p.leaked, sizeOf);
        Within(h, p.covered, begin, read + 1);
      }
    }
  }

  lemma MemIs(rec: Rec, read: nat, begin: nat, h: seq<Batch>, covered: nat)
    requires HistoryOk(h) && covered <= begin <= read <= |h| && RecoveredOk(rec, read, begin, h, covered)
    ensures Sorted(rec.mem) && Elements(rec.mem) == Written(h, begin, read) && Elements(rec.mem) <= Entire(h)
    ensures rec.maxFileNum == MaxNum(All(rec.version.levels))
  {
    WithinHistory(h, begin, read);
    hide Written, Entire, HistoryOk, Faithful, Count, MaxNum, TableEntries;
  }

  lemma Inserted(rec: Rec, b: Batch) returns (r: Rec)
    requires Storable(b) && Encodable(rec.mem)
    ensures r == InsertBatch(rec, b) && Encodable(r.mem)
    ensures r.version == rec.version && r.log == rec.log && r.files == rec.files && r.maxFileNum == rec.maxFileNum
    ensures |r.version.levels| == NumLevels ==> forall sizeOf :: Page(r, sizeOf).maxFileNum == r.maxFileNum + 1
  {
    WithBatchAmong(rec.mem, b);
    r := InsertBatch(rec, b);
  }

  lemma CutoffIs(v: Version, files: map<nat, seq<Entry>>, h: seq<Batch>, covered: nat)
    requires HistoryOk(h) && VersionOk(v, files, h, covered)
    ensures v.walCutoff == Count(h[..covered])
  {
  }

  // ------------------------------------------------------------------- reopen

  lemma ReopenFaithful(tables: set<Entry>, mem: set<Entry>, h: seq<Batch>, covered: nat, begin: nat)
    requires HistoryOk(h) && covered <= begin <= |h| && mem == Written(h, begin, |h|)
    requires Written(h, covered, begin) <= tables && Faithful(tables + Written(h, covered, |h|), Count(h), h)
    ensures Faithful(tables + mem, Count(h), h) && tables + mem == tables + Written(h, covered, |h|)
  {
    hide Answer, Count, Known;
    WrittenSplits(h, covered, begin, |h|);
    hide Written;
    assert tables + mem == tables + Written(h, covered, |h|);
  }

  lemma ReopenKeeps(wal: seq<seq<Batch>>, rec: Rec, todo: seq<Batch>, read: nat, begin: nat, p: Past)
    requires todo == [] && RecoveringOk(wal, rec, todo, read, begin, p)
    ensures ServingOk(Disk(wal, rec.log, rec.files),
                      Db(rec.version, rec.mem, [], [begin], rec.maxSeq + 1, rec.maxFileNum + 1, [], Idle, None), p)
  {
    hide HistoryOk, VersionOk, ManifestOk, WalOk, Replay, Count, TableEntries, Written, Faithful, Sorted, Elements,
         MaxNum, All;
    var h := p.history;
    assert read == |h| && h[..|h|] == h;
    ReopenFaithful(TableEntries(All(rec.version.levels), rec.files), Elements(rec.mem), h, p.covered, begin);
    OnlyMem(rec.mem);
  }

  lemma OnlyMem(mem: seq<Entry>)
    ensures MemEntries([], mem) == Elements(mem)
  {
  }
}
