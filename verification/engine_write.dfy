/** Every step keeps the invariant: a batch is logged, applied and counted. */
module EngineWrite {
  import opened InternalKeys
  import opened Versions
  import opened VersionSets
  import opened WalRecords
  import opened WalLogs
  import opened Histories
  import opened Recoveries
  import opened CompactionCommits
  import opened Engine
  import opened EngineInvariant
  import opened EngineSteps
  import Snapshots

  /** The next batch in line. */
  ghost predicate Follows(h: seq<Batch>, b: Batch) {
    Storable(b) && b.seqStart == Count(h) + 1 && Count(h) + |b.records| < MaxSeq
  }

  lemma {:induction false} HistoryGrows(h: seq<Batch>, b: Batch)
    requires HistoryOk(h) && Follows(h, b)
    ensures HistoryOk(h + [b]) && Count(h + [b]) == Count(h) + |b.records|
    ensures Entire(h + [b]) == Entire(h) + EntriesIn(b)
    ensures forall x, y :: 0 <= x <= y <= |h| ==> Written(h + [b], x, y) == Written(h, x, y)
    ensures Written(h + [b], |h|, |h| + 1) == EntriesIn(b)
    ensures forall e :: e in EntriesIn(b) ==> Count(h) < e.key.num
  {
    hide Count, Numbered, Known;
    Histories.Appended(h, b);
  }

  lemma PrefixCounts(h: seq<Batch>, b: Batch, j: nat)
    requires j <= |h|
    ensures (h + [b])[..j] == h[..j]
  {
  }

  lemma WalGrows(wal: seq<seq<Batch>>, h: seq<Batch>, dropped: nat, b: Batch, newSegment: bool)
    requires WalOk(wal, h, dropped)
    ensures WalOk(AppendedTo(wal, b, newSegment), h + [b], dropped)
  {
    if newSegment {
      ConcatAppend(wal, [b]);
    } else {
      LastAppend(wal, b);
    }
    assert (h + [b])[dropped..] == h[dropped..] + [b];
  }

  lemma VersionGrows(v: Version, files: map<nat, seq<Entry>>, h: seq<Batch>, covered: nat, b: Batch)
    requires HistoryOk(h) && VersionOk(v, files, h, covered) && Follows(h, b) && HistoryOk(h + [b])
    ensures VersionOk(v, files, h + [b], covered)
  {
    hide HistoryOk, Follows, Healthy, Present, Retired, TableEntries, Count;
    HistoryGrows(h, b);
    PrefixCounts(h, b, covered);
  }

  lemma {:induction false} MemsGrow(mem: seq<Entry>, imms: seq<seq<Entry>>, cuts: seq<nat>, h: seq<Batch>,
                                    covered: nat, b: Batch)
    requires HistoryOk(h) && MemsOk(mem, imms, cuts, h, covered) && Follows(h, b) && HistoryOk(h + [b])
    ensures MemsOk(WithBatch(mem, b), imms, cuts, h + [b], covered)
    ensures MemEntries(imms, WithBatch(mem, b)) == MemEntries(imms, mem) + EntriesIn(b)
  {
    hide Written, Sorted, WithBatch, EntriesIn, Numbered, Count;
    HistoryGrows(h, b);
    var last := cuts[|imms|];
    forall e | e in mem ensures e.key.num < b.seqStart {
      assert e in Elements(mem);
      WrittenUpTo(h, last, e);
    }
    WithBatchFacts(mem, b);
    WrittenSplits(h + [b], last, |h|, |h| + 1);
    forall i | 0 <= i < |imms| ensures Elements(imms[i]) == Written(h + [b], cuts[i], cuts[i + 1]) {
      assert cuts[i] <= cuts[i + 1] <= cuts[|imms|];
    }
  }

  lemma {:induction false} WrittenUpTo(h: seq<Batch>, a: nat, e: Entry)
    requires HistoryOk(h) && a <= |h| && e in Written(h, a, |h|)
    ensures e.key.num <= Count(h)
  {
    WrittenRange(h, a, |h|);
    assert h[..|h|] == h;
  }

  lemma BoundariesGrow(h: seq<Batch>, b: Batch, r: nat)
    requires Boundary(h, r)
    ensures Boundary(h + [b], r)
  {
    var j :| 0 <= j <= |h| && r == Count(h[..j]);
    PrefixCounts(h, b, j);
  }

  lemma OthersGrow(job: Job, files: map<nat, seq<Entry>>, v: Version, mems: set<Entry>, h: seq<Batch>, b: Batch)
    requires HistoryOk(h) && OthersOk(job, files, v, mems, h) && Follows(h, b) && HistoryOk(h + [b])
    ensures OthersOk(job, files, v, mems + EntriesIn(b), h + [b])
  {
    hide HistoryOk, Known, TableEntries, EntriesIn, Count, Outside, Entire;
    HistoryGrows(h, b);
    assert Since(h + [b], job.next) == Since(h, job.next) + EntriesIn(b);
    var t := TableEntries(Outside(All(v.levels), job.inputs), files);
    assert t + (mems + EntriesIn(b)) == t + mems + EntriesIn(b);
  }

  lemma FaithfulAfter(S: set<Entry>, floor: nat, floor': nat, h: seq<Batch>, b: Batch)
    requires HistoryOk(h) && Faithful(S, floor, h) && floor <= floor' && Follows(h, b) && HistoryOk(h + [b])
    ensures Faithful(S + EntriesIn(b), floor', h + [b])
  {
    hide Known, EntriesIn, Count, Answer, Entire, Numbered;
    HistoryGrows(h, b);
    HistoryFacts(h);
    HistoryFacts(h + [b]);
    hide HistoryOk;
    forall k, r | r >= floor'
      ensures Answer(S + EntriesIn(b), k, r) == Answer(Entire(h + [b]), k, r)
    {
      FaithfulGrows(S, Entire(h), EntriesIn(b), k, r);
    }
  }

  lemma WriteKeeps(disk: Disk, db: Db, p: Past, b: Batch, newSegment: bool)
    requires disk.wal != [] && Storable(b) && b.seqStart == db.nextSeq && db.nextSeq + |b.records| < MaxSeq
    requires ServingOk(disk, db, p)
    ensures ServingOk(disk.(wal := AppendedTo(disk.wal, b, newSegment)),
                      db.(mem := WithBatch(db.mem, b), nextSeq := db.nextSeq + |b.records|),
                      p.(history := p.history + [b]))
  {
    hide MemEntries, WalOk, CapturedOk, OthersOk, TableEntries, HistoryOk, Boundary, MemsOk, ManifestOk, OutputsOk,
         FlushOk, Elements, Entire, VersionOk, Written, WithBatch, AppendedTo, Faithful, Known, Count, EntriesIn,
         Snapshots.OldestOf, MaxNum;
    var h := p.history;
    HistoryGrows(h, b);
    WalGrows(disk.wal, h, p.dropped, b, newSegment);
    VersionGrows(db.version, disk.files, h, p.covered, b);
    MemsGrow(db.mem, db.imms, db.cuts, h, p.covered, b);
    forall r | r in db.snapshots ensures Boundary(h + [b], r) { BoundariesGrow(h, b, r); }
    var mems := MemEntries(db.imms, db.mem);
    if db.job.Some? { OthersGrow(db.job.value, disk.files, db.version, mems, h, b); }
    OldestGrows(db.snapshots, db.nextSeq - 1, db.nextSeq + |b.records| - 1);
    var t := TableEntries(All(db.version.levels), disk.files);
    FaithfulAfter(t + mems, Floor(db), Floor(db.(mem := WithBatch(db.mem, b), nextSeq := db.nextSeq + |b.records|)), h, b);
    assert t + (mems + EntriesIn(b)) == t + mems + EntriesIn(b);
  }
}
