/** What holds of every run of the engine. */
module EngineTheorems {
  import opened Bytes
  import opened InternalKeys
  import opened Versions
  import opened VersionSets
  import opened TableMetas
  import opened WalRecords
  import opened WalLogs
  import opened Histories
  import opened Recoveries
  import opened Compactions
  import opened CompactionCommits
  import opened Engine
  import opened EngineInvariant
  import opened EngineCompaction
  import opened EngineRuns
  import Snapshots

  // ------------------------------------------------------------------- reads

  /** At or above the floor, in every reachable state, a read returns what the
      history says: no write is lost, none is made up, and nothing compaction has
      dropped shows. */
  lemma ReadsTheHistory(s: State, k: bytes, r: nat)
    requires Reachable(s) && s.Serving? && r >= Floor(s.db)
    ensures Numbered(s.past.history) && s.db.nextSeq == Count(s.past.history) + 1
    ensures Answer(LiveEntries(s), k, r) == Answer(Entire(s.past.history), k, r)
  {
    hide Reachable, Answer, VersionOk, ManifestOk, MemsOk, JobOk, FlushOk, WalOk, Count, Entire, TableEntries,
         MemEntries, Floor;
    ReachableOk(s);
  }

  lemma SnapshotsAboveFloor(s: State, r: nat)
    requires s.Serving? && r in s.db.snapshots
    ensures r >= Floor(s.db)
  {
    Snapshots.OldestIsLeast(s.db.snapshots, Latest(s.db));
  }

  lemma HistoryStep(s: State, op: Op)
    requires Enabled(s, op)
    ensures s.past.history <= Next(s, op).past.history
  {
    hide Replay, RecoverBatch, WithBatch, AppendedTo, Rewritten, BeginJob, Survivors, Start, Add, Cutoff,
         CommitEdits, Storable, Encodable, Rejection, Resurrects, Kept;
  }

  lemma {:induction false} HistoryGrowsAlong(s: State, ops: seq<Op>, t: State)
    requires Runs(s, ops, t)
    ensures s.past.history <= t.past.history
    decreases |ops|
  {
    hide Enabled, Next;
    if ops != [] {
      HistoryStep(s, ops[0]);
      HistoryGrowsAlong(Next(s, ops[0]), ops[1..], t);
    }
  }

  /** Later writes are invisible to reads at earlier numbers. */
  lemma PrefixAnswer(g: seq<Batch>, h: seq<Batch>, k: bytes, r: nat)
    requires Numbered(h) && g <= h && r <= Count(g)
    ensures Numbered(g) && Answer(Entire(h), k, r) == Answer(Entire(g), k, r)
  {
    assert Count([]) == 0;
    hide Count, Known, Entire, Written;
    assert h[..|g|] == g;
    NumberedPrefix(h, |g|);
    FromTheStart(g);
    WrittenRange(h, 0, |g|);
    HistoryFacts(h);
    HistoryFacts(g);
    assert h[..0] == [];
    SameVisible(Entire(h), Entire(g), k, r, r);
  }

  lemma FromTheStart(h: seq<Batch>)
    requires Numbered(h)
    ensures Entire(h) == Written(h, 0, |h|)
  {
  }

  /** Snapshot isolation over whole runs: whatever happens in between, a snapshot
      reads what the history held when it was taken, and goes on doing so. */
  lemma SnapshotIsolation(s: State, ops: seq<Op>, t: State, k: bytes, r: nat)
    requires Reachable(s) && s.Serving? && Runs(s, ops, t) && t.Serving?
    requires r in s.db.snapshots && r in t.db.snapshots
    ensures Answer(LiveEntries(t), k, r) == Answer(LiveEntries(s), k, r)
  {
    hide Reachable, Runs, Inv, Answer, Count, Entire, LiveEntries, Floor;
    ReachesOn(s, ops, t);
    SnapshotsAboveFloor(s, r);
    SnapshotsAboveFloor(t, r);
    ReadsTheHistory(s, k, r);
    ReadsTheHistory(t, k, r);
    HistoryGrowsAlong(s, ops, t);
    SnapshotNumbers(s, r);
    PrefixAnswer(s.past.history, t.past.history, k, r);
  }

  lemma ReachesOn(s: State, ops: seq<Op>, t: State)
    requires Reachable(s) && Runs(s, ops, t)
    ensures Reachable(t)
  {
    var before :| Runs(Initial, before, s);
    RunsJoin(Initial, before, s, ops, t);
    assert Runs(Initial, before + ops, t);
  }

  lemma {:induction false} RunsJoin(a: State, x: seq<Op>, b: State, y: seq<Op>, c: State)
    requires Runs(a, x, b) && Runs(b, y, c)
    ensures Runs(a, x + y, c)
    decreases |x|
  {
    hide Enabled, Next;
    if x == [] {
      assert x + y == y;
    } else {
      assert (x + y)[1..] == x[1..] + y;
      RunsJoin(Next(a, x[0]), x[1..], b, y, c);
    }
  }

  /** A snapshot is taken at the end of a batch, never inside one. */
  lemma SnapshotNumbers(s: State, r: nat)
    requires Reachable(s) && s.Serving? && r in s.db.snapshots
    ensures Boundary(s.past.history, r) && r <= Count(s.past.history)
  {
    hide Reachable, VersionOk, ManifestOk, MemsOk, JobOk, FlushOk, WalOk, Count, Faithful, HistoryOk;
    ReachableOk(s);
    BoundaryBelow(s.past.history, r);
  }

  lemma NoBatchIsSplit(s: State, r: nat, j: nat)
    requires Reachable(s) && s.Serving? && r in s.db.snapshots && j < |s.past.history|
    ensures Known(s.past.history[j])
    ensures var batch := EntriesIn(s.past.history[j]);
            (forall e :: e in batch ==> e.key.num <= r) || forall e :: e in batch ==> e.key.num > r
  {
    SnapshotNumbers(s, r);
    ReachableNumbered(s);
    var h := s.past.history;
    var m :| 0 <= m <= |h| && r == Count(h[..m]);
    hide Reachable, Count;
    CountStep(h, j);
    if j < m { CountGrows(h, j + 1, m); } else { CountGrows(h, m, j); }
  }

  lemma ReachableNumbered(s: State)
    requires Reachable(s)
    ensures Numbered(s.past.history) && AllStorable(s.past.history) && Count(s.past.history) < MaxSeq
  {
    hide Reachable, VersionOk, ManifestOk, MemsOk, JobOk, FlushOk, WalOk, Faithful, RecoveredOk;
    ReachableOk(s);
  }

  /** Record i is the last of the records with key k. */
  predicate LastOf(records: seq<LogicalRecord>, k: bytes, i: int) {
    0 <= i < |records| && records[i].key == k && forall j :: i < j < |records| ==> records[j].key != k
  }

  /** After a batch of writes the latest read of a key returns what the batch's last
      record with that key says, and reads as before when the batch has none. */
  lemma ReadYourWrite(s: State, records: seq<LogicalRecord>, newSegment: bool, t: State, k: bytes)
    requires s.Serving? && t.Serving? && Reachable(s) && Enabled(s, Write(records, newSegment))
    requires t == Next(s, Write(records, newSegment))
    ensures forall i :: LastOf(records, k, i) ==>
              Answer(LiveEntries(t), k, Latest(t.db)) == if records[i].typ == TypePut then Some(records[i].value) else None
    ensures (forall i :: 0 <= i < |records| ==> records[i].key != k) ==>
              Answer(LiveEntries(t), k, Latest(t.db)) == Answer(LiveEntries(s), k, Latest(s.db))
  {
    hide Reachable, Next, Enabled, Answer, LiveEntries, Entire, Numbered, Count, Floor, Inv;
    OneStep(s, Write(records, newSegment));
    LatestReads(s, k);
    LatestReads(t, k);
    WriteTakesEffect(s, records, newSegment, t);
  }

  lemma LatestReads(s: State, k: bytes)
    requires s.Serving? && Reachable(s)
    ensures Numbered(s.past.history)
    ensures Answer(LiveEntries(s), k, Latest(s.db)) == Answer(Entire(s.past.history), k, Count(s.past.history))
  {
    hide Reachable, Answer, LiveEntries, Entire, Numbered, Count, Floor;
    LatestAboveFloor(s);
    ReadsTheHistory(s, k, Latest(s.db));
  }

  lemma LoggedBatch(h: seq<Batch>, records: seq<LogicalRecord>, b: Batch, k: bytes)
    requires Numbered(h) && Known(b) && b.seqStart == Count(h) + 1 && |b.records| == |records|
    requires forall i :: 0 <= i < |records| ==> b.records[i] == Normal(records[i]) && b.records[i].key == records[i].key
    ensures Numbered(h + [b])
    ensures forall i :: LastOf(records, k, i) ==>
              Answer(Entire(h + [b]), k, Count(h) + |records|) == if records[i].typ == TypePut then Some(records[i].value) else None
    ensures (forall i :: 0 <= i < |records| ==> records[i].key != k) ==>
              Answer(Entire(h + [b]), k, Count(h) + |records|) == Answer(Entire(h), k, Count(h))
  {
    hide Answer, Entire, Numbered, Count, EntriesIn, Coherent, Normal, Written, LastOf;
    Histories.Appended(h, b);
    HistoryFacts(h);
    BatchOnTop(Entire(h), records, b, k, Count(h));
  }

  lemma BatchOnTop(S: set<Entry>, records: seq<LogicalRecord>, b: Batch, k: bytes, r: nat)
    requires Known(b) && b.seqStart == r + 1 && |b.records| == |records| && Coherent(S)
    requires forall i :: 0 <= i < |records| ==> b.records[i] == Normal(records[i]) && b.records[i].key == records[i].key
    requires forall e :: e in S ==> 1 <= e.key.num <= r
    ensures forall i :: LastOf(records, k, i) ==>
              Answer(S + EntriesIn(b), k, r + |records|) == if records[i].typ == TypePut then Some(records[i].value) else None
    ensures (forall i :: 0 <= i < |records| ==> records[i].key != k) ==>
              Answer(S + EntriesIn(b), k, r + |records|) == Answer(S, k, r)
  {
    hide Answer, Entered, EntriesIn, Coherent, Normal, EntryOf;
    EnteredAll(b);
    BatchAnswers(S, b, |records|, k, r + |records|);
    LatestAnswer(S, k, r, r + |records|);
    assert b.records[..|records|] == b.records;
    forall i | 0 <= i < |records| && LastOf(records, k, i)
      ensures Answer(S + EntriesIn(b), k, r + |records|) == if records[i].typ == TypePut then Some(records[i].value) else None
    {
      assert LastOf(b.records[..|records|], k, i);
      SaysTheRecord(records, b, i);
    }
  }

  lemma SaysTheRecord(records: seq<LogicalRecord>, b: Batch, i: nat)
    requires Known(b) && i < |records| == |b.records| && b.records[i] == Normal(records[i])
    ensures Versions.Payload(EntryOf(b, i)) == if records[i].typ == TypePut then Some(records[i].value) else None
  {
  }

  /** The same of the histories before and after the batch, for every key. */
  ghost predicate TakesEffect(records: seq<LogicalRecord>, before: seq<Batch>, after: seq<Batch>)
    requires Numbered(before) && Numbered(after)
  {
    && (forall k, i :: LastOf(records, k, i) ==>
          Answer(Entire(after), k, Count(after)) == if records[i].typ == TypePut then Some(records[i].value) else None)
    && (forall k :: (forall i :: 0 <= i < |records| ==> records[i].key != k) ==>
          Answer(Entire(after), k, Count(after)) == Answer(Entire(before), k, Count(before)))
  }

  lemma WriteTakesEffect(s: State, records: seq<LogicalRecord>, newSegment: bool, t: State)
    requires s.Serving? && t.Serving? && Reachable(s) && Enabled(s, Write(records, newSegment))
    requires t == Next(s, Write(records, newSegment))
    ensures Numbered(s.past.history) && Numbered(t.past.history) && TakesEffect(records, s.past.history, t.past.history)
  {
    hide Reachable, Next, Enabled, Answer, LiveEntries, Entire, Numbered, Count, Floor, Inv;
    LatestAboveFloor(s);
    ReadsTheHistory(s, [], Latest(s.db));
    OneWrite(s, records, newSegment, t);
    var h, b := s.past.history, NewBatch(s.db, records);
    Histories.Appended(h, b);
    BatchTakesEffect(h, records, b);
  }

  lemma BatchTakesEffect(h: seq<Batch>, records: seq<LogicalRecord>, b: Batch)
    requires Numbered(h) && Known(b) && b.seqStart == Count(h) + 1 && |b.records| == |records|
    requires forall i :: 0 <= i < |records| ==> b.records[i] == Normal(records[i]) && b.records[i].key == records[i].key
    requires Numbered(h + [b]) && Count(h + [b]) == Count(h) + |records|
    ensures TakesEffect(records, h, h + [b])
  {
    hide Answer, Entire, Numbered, Count, Known, Normal;
    forall k, i | 0 <= i < |records| && LastOf(records, k, i)
      ensures Answer(Entire(h + [b]), k, Count(h) + |records|) == if records[i].typ == TypePut then Some(records[i].value) else None
    {
      LoggedBatch(h, records, b, k);
    }
    forall k | forall i :: 0 <= i < |records| ==> records[i].key != k
      ensures Answer(Entire(h + [b]), k, Count(h) + |records|) == Answer(Entire(h), k, Count(h))
    {
      LoggedBatch(h, records, b, k);
    }
  }

  lemma OneWrite(s: State, records: seq<LogicalRecord>, newSegment: bool, t: State)
    requires s.Serving? && t.Serving? && Enabled(s, Write(records, newSegment))
    requires t == Next(s, Write(records, newSegment))
    ensures var b := NewBatch(s.db, records);
            && Known(b) && |b.records| == |records| && b.seqStart == s.db.nextSeq
            && (forall i :: 0 <= i < |records| ==> b.records[i] == Normal(records[i]) && b.records[i].key == records[i].key)
            && t.past.history == s.past.history + [b] && t.db.nextSeq == s.db.nextSeq + |records|
  {
    hide WithBatch, AppendedTo, Replay;
  }

  /** What the first m records of a batch wrote. */
  ghost function Entered(b: Batch, m: nat): set<Entry>
    requires Known(b) && m <= |b.records|
  {
    set i | 0 <= i < m :: EntryOf(b, i)
  }

  lemma EnteredAll(b: Batch)
    requires Known(b)
    ensures Entered(b, |b.records|) == EntriesIn(b)
  {
  }

  /** Record by record, each newer than all before it. */
  lemma {:induction false} BatchAnswers(S: set<Entry>, b: Batch, m: nat, k: bytes, r: nat)
    requires Known(b) && m <= |b.records| && Coherent(S)
    requires (forall e :: e in S ==> e.key.num < b.seqStart) && r >= b.seqStart + |b.records| - 1
    ensures Coherent(S + Entered(b, m)) && forall e :: e in S + Entered(b, m) ==> e.key.num < b.seqStart + m
    ensures forall i :: LastOf(b.records[..m], k, i) ==> Answer(S + Entered(b, m), k, r) == Versions.Payload(EntryOf(b, i))
    ensures (forall i :: 0 <= i < m ==> b.records[i].key != k) ==> Answer(S + Entered(b, m), k, r) == Answer(S, k, r)
    decreases m
  {
    hide Answer, Coherent;
    if m == 0 {
      assert S + Entered(b, 0) == S;
    } else {
      BatchAnswers(S, b, m - 1, k, r);
      var n := EntryOf(b, m - 1);
      assert Entered(b, m) == Entered(b, m - 1) + {n};
      assert S + Entered(b, m) == S + Entered(b, m - 1) + {n};
      AnswerAfterWrite(S + Entered(b, m - 1), n, k, r);
      forall i | LastOf(b.records[..m], k, i)
        ensures i == m - 1 || (b.records[m - 1].key != k && LastOf(b.records[..m - 1], k, i))
      {
        if i < m - 1 { assert b.records[..m][m - 1] == b.records[m - 1]; }
        assert b.records[..m - 1] == b.records[..m][..m - 1];
      }
    }
  }

  lemma OneStep(s: State, op: Op)
    requires Reachable(s) && Enabled(s, op)
    ensures Reachable(Next(s, op))
  {
    hide Reachable, Enabled, Next;
    assert Runs(Next(s, op), [], Next(s, op));
    assert [op][1..] == [];
    assert Runs(s, [op], Next(s, op));
    ReachesOn(s, [op], Next(s, op));
  }

  lemma LatestAboveFloor(s: State)
    requires s.Serving?
    ensures Floor(s.db) <= Latest(s.db)
  {
    Snapshots.OldestIsLeast(s.db.snapshots, Latest(s.db));
  }

  // ------------------------------------------------------- the rewritten manifest

  /** Right after a rewrite the superset holds exactly when nothing was obsolete. */
  lemma RewriteForgets(s: State)
    requires s.Serving? && Reachable(s)
    ensures var t := Next(s, CompactManifest);
            var w := Replay(EmptyVersion, t.disk.log);
            && w.levels == t.db.version.levels && w.walCutoff == t.db.version.walCutoff && w.obsolete == {}
            && (t.db.version.obsolete <= w.obsolete <==> s.db.version.obsolete == {})
  {
    hide Reachable, MemsOk, JobOk, FlushOk, WalOk, Faithful, HistoryOk, Replay, MaxNum, LoggedNums, Retired,
         Rewritten, ManifestOk, Present, TableEntries, Entire, Distinct, OrderedBySmallest;
    ReachableOk(s);
    RewriteReplays(s.db.version);
  }
}
