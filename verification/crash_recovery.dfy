/** A crash between any two steps, then recovery in one go. */
module CrashRecovery {
  import opened Bytes
  import opened Framing
  import opened Versions
  import opened VersionSets
  import opened TableMetas
  import opened WalRecords
  import opened WalLogs
  import opened Histories
  import opened Recoveries
  import opened Engine
  import opened EngineInvariant
  import opened EngineRecovery
  import opened EngineRuns
  import opened EngineTheorems
  import ManifestRecords

  /** Everything a recovered engine can read. */
  ghost function Recovered(rec: Rec): set<Entry> {
    TableEntries(All(rec.version.levels), rec.files) + Elements(rec.mem)
  }

  /** Recovering what is left of the log, one batch after another, ends with all of
      it read. */
  lemma {:induction false} RecoverToEnd(wal: seq<seq<Batch>>, rec: Rec, todo: seq<Batch>, read: nat, begin: nat,
                                        p: Past, limit: int, sizeOf: Sizer)
    returns (end: nat)
    requires AllStorable(todo) && Encodable(rec.mem) && |rec.version.levels| == NumLevels
    requires RecoveringOk(wal, rec, todo, read, begin, p)
    ensures RecoveringOk(wal, RecoverAll(rec, todo, limit, sizeOf), [], |p.history|, end, p)
    ensures var r, logged := RecoverAll(rec, todo, limit, sizeOf), Written(p.history, p.covered, |p.history|);
            TableEntries(All(r.version.levels), r.files) + logged == TableEntries(All(rec.version.levels), rec.files) + logged
    decreases |todo|
  {
    hide RecoveringOk, RecoverBatch, Encodable, Storable, TableEntries, Written, Numbered;
    if todo == [] {
      AllRead(wal, rec, todo, read, begin, p);
      end := begin;
    } else {
      RecoverNextKeeps(wal, rec, todo, read, begin, p, limit, sizeOf);
      RecoverNextHolds(wal, rec, todo, read, begin, p, limit, sizeOf);
      var r := RecoverBatch(rec, todo[0], limit, sizeOf);
      end := RecoverToEnd(wal, r, todo[1..], read + 1, if r.maxFileNum != rec.maxFileNum then read + 1 else begin, p, limit, sizeOf);
    }
  }

  lemma AllRead(wal: seq<seq<Batch>>, rec: Rec, todo: seq<Batch>, read: nat, begin: nat, p: Past)
    requires todo == [] && RecoveringOk(wal, rec, todo, read, begin, p)
    ensures read == |p.history|
  {
    hide HistoryOk, WalOk, VersionOk, ManifestOk, RecoveredOk, Replay;
  }

  /** With all of the log read, every latest read is the history's, and the next
      number is the history's next number. */
  lemma EndReads(wal: seq<seq<Batch>>, rec: Rec, begin: nat, p: Past, k: bytes, r: nat)
    requires RecoveringOk(wal, rec, [], |p.history|, begin, p) && r >= Count(p.history)
    ensures Answer(Recovered(rec), k, r) == Answer(Entire(p.history), k, r)
    ensures rec.maxSeq == Count(p.history)
    ensures Recovered(rec) == TableEntries(All(rec.version.levels), rec.files) + Written(p.history, p.covered, |p.history|)
  {
    hide HistoryOk, WalOk, VersionOk, ManifestOk, Replay, TableEntries, Written, Sorted, Elements, MaxNum, Entire,
         Count, Answer;
    var h := p.history;
    assert h[..|h|] == h;
    ReopenFaithful(TableEntries(All(rec.version.levels), rec.files), Elements(rec.mem), h, p.covered, begin);
  }

  lemma LogStorable(s: State)
    requires Inv(s)
    ensures AllStorable(Concat(WalOf(s))) && Numbered(s.past.history)
  {
    hide VersionOk, ManifestOk, MemsOk, JobOk, FlushOk, Faithful, RecoveredOk, Replay, Numbered, Count, Storable;
  }

  lemma CoveredPart(s: State)
    requires Inv(s)
    ensures s.past.covered <= |s.past.history|
  {
    hide HistoryOk, Present, Retired, ManifestOk, MemsOk, JobOk, FlushOk, Faithful, RecoveredOk, Replay,
         TableEntries, WalOk, Count;
  }

  /** Crash recovery: from any reachable state, in the middle of a flush, a
      truncation, a compaction before its commit, or an earlier recovery, whatever
      unlogged files the crash leaves and whatever the memtable limit, recovery
      reads every key as the history does and numbers on from it. */
  lemma CrashThenRecover(s: State, junk: map<nat, seq<Entry>>, limit: int, sizeOf: Sizer, k: bytes, r: nat)
    requires Reachable(s) && Enabled(s, Crash(junk))
    ensures AllStorable(Concat(WalOf(s))) && Numbered(s.past.history) && s.past.covered <= |s.past.history|
    ensures var rec := RecoverAll(Start(LogOf(s), FilesOf(s) + junk), Concat(WalOf(s)), limit, sizeOf);
            && rec.maxSeq + 1 == Count(s.past.history) + 1
            && (r >= Count(s.past.history) ==> Answer(Recovered(rec), k, r) == Answer(Entire(s.past.history), k, r))
            && Recovered(rec) == OnDiskEntries(s, junk)
  {
    hide Reachable, Inv, RecoveringOk, Recovered, Start, Count, Entire, Answer, TableEntries, Written, Numbered;
    ReachableOk(s);
    LogStorable(s);
    CoveredPart(s);
    CrashOk(s, junk);
    var c := Next(s, Crash(junk));
    Crashed(s, junk, c);
    var end := RecoverToEnd(c.wal, c.rec, c.todo, c.read, c.begin, c.past, limit, sizeOf);
    var rec := RecoverAll(c.rec, c.todo, limit, sizeOf);
    EndReads(c.wal, rec, end, c.past, k, if r >= Count(s.past.history) then r else Count(s.past.history));
  }

  /** The tables the manifest names and the batches the cutoff does not cover. */
  ghost function OnDiskEntries(s: State, junk: map<nat, seq<Entry>>): set<Entry>
    requires Numbered(s.past.history) && s.past.covered <= |s.past.history|
  {
    TableEntries(All(Replay(EmptyVersion, LogOf(s)).levels), FilesOf(s) + junk)
      + Written(s.past.history, s.past.covered, |s.past.history|)
  }

  lemma Crashed(s: State, junk: map<nat, seq<Entry>>, c: State)
    requires Enabled(s, Crash(junk)) && c == Next(s, Crash(junk)) && Inv(c)
    ensures c.Recovering? && c.rec == Start(LogOf(s), FilesOf(s) + junk) && c.todo == Concat(WalOf(s)) && c.past == s.past
    ensures c.wal == WalOf(s)
    ensures RecoveringOk(c.wal, c.rec, c.todo, c.read, c.begin, c.past)
    ensures c.rec.version == Replay(EmptyVersion, LogOf(s)) && c.rec.files == FilesOf(s) + junk
    ensures Encodable(c.rec.mem) && |c.rec.version.levels| == NumLevels
  {
    hide RecoveringOk, Replay, MaxNum, MaxLargest;
  }

  /** Paging is transparent: any two limits recover exactly the same entries, and so
      the same reads, and the same next number. */
  lemma PagingIsTransparent(s: State, junk: map<nat, seq<Entry>>, limit: int, other: int, sizeOf: Sizer)
    requires Reachable(s) && Enabled(s, Crash(junk))
    ensures AllStorable(Concat(WalOf(s)))
    ensures var start, todo := Start(LogOf(s), FilesOf(s) + junk), Concat(WalOf(s));
            var a, b := RecoverAll(start, todo, limit, sizeOf), RecoverAll(start, todo, other, sizeOf);
            && a.maxSeq == b.maxSeq && Recovered(a) == Recovered(b)
  {
    hide Reachable, Recovered, Start, Count, Entire, Answer, Enabled, RecoverAll, Numbered, OnDiskEntries;
    CrashThenRecover(s, junk, limit, sizeOf, [], 0);
    CrashThenRecover(s, junk, other, sizeOf, [], 0);
  }

  /** Paging is repeatable: interrupt recovery after any number of batches, leaving
      its pages in level 0 and their batches still in the log, recover again under
      another limit, and the reads are the same. */
  lemma PagingIsRepeatable(s: State, steps: seq<Op>, t: State, junk: map<nat, seq<Entry>>, limit: int, sizeOf: Sizer,
                           k: bytes, r: nat)
    requires Reachable(s) && s.Recovering? && Runs(s, steps, t)
    requires forall op :: op in steps ==> op.RecoverNext? || op.Crash?
    requires Enabled(t, Crash(junk))
    ensures AllStorable(Concat(WalOf(t))) && Numbered(s.past.history)
    ensures var rec := RecoverAll(Start(LogOf(t), FilesOf(t) + junk), Concat(WalOf(t)), limit, sizeOf);
            && rec.maxSeq == Count(s.past.history)
            && (r >= rec.maxSeq ==> Answer(Recovered(rec), k, r) == Answer(Entire(s.past.history), k, r))
  {
    hide Reachable, Recovered, Start, Count, Entire, Answer, Enabled, RecoverAll, Numbered, Runs;
    ReachesOn(s, steps, t);
    NothingWritten(s, steps, t);
    CrashThenRecover(t, junk, limit, sizeOf, k, r);
  }

  lemma {:induction false} NothingWritten(s: State, steps: seq<Op>, t: State)
    requires s.Recovering? && Runs(s, steps, t) && forall op :: op in steps ==> op.RecoverNext? || op.Crash?
    ensures t.past == s.past
    decreases |steps|
  {
    hide RecoverBatch, Start, Replay;
    if steps != [] {
      assert steps[0] in steps && forall op :: op in steps[1..] ==> op in steps;
      NothingWritten(Next(s, steps[0]), steps[1..], t);
    }
  }

  // ------------------------------------------------------------- down to bytes

  /** The disk's bytes say what the state's disk says: whole records, each log
      possibly ending in a torn one. */
  ghost predicate OnDisk(s: State, crc: Checksum, bss: seq<seq<Batch>>, segments: seq<bytes>, es: seq<Edit>,
                         manifest: bytes) {
    && segments != [] && |bss| == |segments|
    && (exists segs, torn :: WalLogs.Holds(crc, segs, bss) && segs != [] && WalRecords.TornTail(crc, torn)
          && segments == segs[|segs| - 1 := segs[|segs| - 1] + torn])
    && |WalOf(s)| == |bss| && (forall i :: 0 <= i < |bss| ==> NormalizedAll(bss[i]) == WalOf(s)[i])
    && (forall e :: e in es ==> ManifestRecords.InRange(e)) && es == LogOf(s)
    && (exists torn :: ManifestRecords.TornTail(crc, torn) && manifest == ManifestRecords.EncodeAll(crc, es) + torn)
  }

  lemma BytesReadBack(s: State, crc: Checksum, bss: seq<seq<Batch>>, segments: seq<bytes>, es: seq<Edit>,
                      manifest: bytes)
    requires OnDisk(s, crc, bss, segments, es, manifest)
    ensures DecodeEach(crc, segments) == WalOf(s) && DecodeSegments(crc, segments) == Concat(WalOf(s))
    ensures ManifestRecords.DecodeAll(crc, manifest) == LogOf(s)
  {
    hide NormalizedAll, Concat, WalOf, LogOf, WalLogs.Holds, WalRecords.TornTail, ManifestRecords.TornTail;
    var segs, torn :| WalLogs.Holds(crc, segs, bss) && segs != [] && WalRecords.TornTail(crc, torn)
                      && segments == segs[|segs| - 1 := segs[|segs| - 1] + torn];
    forall i | 0 <= i < |segs| ensures DecodeEach(crc, segments)[i] == WalOf(s)[i] { SegmentReadsBack(crc, segs, bss, torn, i); }
    EachIsAll(crc, segments);
    var tail :| ManifestRecords.TornTail(crc, tail) && manifest == ManifestRecords.EncodeAll(crc, es) + tail;
    ManifestRecords.LogReadsBack(crc, es, tail);
  }

  /** The recovery procedure on the bytes of a crashed database. */
  method RecoverFromBytes(ghost s: State, crc: Checksum, ghost bss: seq<seq<Batch>>, segments: seq<bytes>,
                          ghost es: seq<Edit>, manifest: bytes,
                          files: map<nat, seq<Entry>>, ghost junk: map<nat, seq<Entry>>, memtableLimit: int, sizeOf: Sizer)
    returns (rec: Rec, nextSeq: nat)
    requires Reachable(s) && Enabled(s, Crash(junk)) && files == FilesOf(s) + junk
    requires OnDisk(s, crc, bss, segments, es, manifest)
    ensures Numbered(s.past.history) && nextSeq == Count(s.past.history) + 1
    ensures forall k, r :: r >= Count(s.past.history) ==> Answer(Recovered(rec), k, r) == Answer(Entire(s.past.history), k, r)
    ensures AllStorable(Concat(WalOf(s)))
    ensures rec == RecoverAll(Start(LogOf(s), FilesOf(s) + junk), Concat(WalOf(s)), memtableLimit, sizeOf) && nextSeq == rec.maxSeq + 1
  {
    hide Reachable, Recovered, Start, Count, Entire, Answer, Enabled, RecoverAll, Numbered, OnDisk, AllStorable,
         OnDiskEntries;
    BytesReadBack(s, crc, bss, segments, es, manifest);
    CrashThenRecover(s, junk, memtableLimit, sizeOf, [], 0);
    rec, nextSeq := Recover(crc, manifest, segments, files, memtableLimit, sizeOf);
    forall k, r | r >= Count(s.past.history) ensures Answer(Recovered(rec), k, r) == Answer(Entire(s.past.history), k, r) {
      CrashThenRecover(s, junk, memtableLimit, sizeOf, k, r);
    }
  }

  // --------------------------------------------------------------- open again

  /** Recovery in one go is a run of its steps. */
  lemma {:induction false} RecoverRuns(c: State, limit: int, sizeOf: Sizer) returns (ops: seq<Op>, end: State)
    requires c.Recovering? && AllStorable(c.todo) && Encodable(c.rec.mem) && |c.rec.version.levels| == NumLevels
    ensures Runs(c, ops, end) && end.Recovering? && end.todo == [] && end.wal == c.wal && end.past == c.past
    ensures end.rec == RecoverAll(c.rec, c.todo, limit, sizeOf)
    decreases |c.todo|
  {
    hide RecoverBatch, Encodable, Storable;
    if c.todo == [] {
      ops, end := [], c;
    } else {
      var op := RecoverNext(limit, sizeOf);
      assert Storable(c.todo[0]);
      assert Enabled(c, op);
      var d := Next(c, op);
      assert d.rec == RecoverBatch(c.rec, c.todo[0], limit, sizeOf) && d.todo == c.todo[1..];
      var more;
      more, end := RecoverRuns(d, limit, sizeOf);
      ops := [op] + more;
      assert ops[1..] == more;
    }
  }

  /** Serving what was recovered. */
  ghost predicate Reopened(s: State, rec: Rec, t: State) {
    && t.Serving? && t.past == s.past && t.disk == Disk(WalOf(s), rec.log, rec.files)
    && t.db == Db(rec.version, rec.mem, [], t.db.cuts, rec.maxSeq + 1, rec.maxFileNum + 1, [], Idle, None)
  }

  /** A crash, a recovery and reopening are a run of the engine. */
  lemma ReopenRuns(s: State, junk: map<nat, seq<Entry>>, limit: int, sizeOf: Sizer) returns (ops: seq<Op>, t: State)
    requires Reachable(s) && Enabled(s, Crash(junk))
    ensures AllStorable(Concat(WalOf(s)))
    ensures Runs(s, ops, t) && Reopened(s, RecoverAll(Start(LogOf(s), FilesOf(s) + junk), Concat(WalOf(s)), limit, sizeOf), t)
  {
    hide Reachable, Inv, RecoveringOk, RecoverAll, Start, Runs, Enabled, Next;
    ReachableOk(s);
    LogStorable(s);
    CrashOk(s, junk);
    var c := Next(s, Crash(junk));
    Crashed(s, junk, c);
    var steps, end := RecoverRuns(c, limit, sizeOf);
    ReopenIs(end);
    t := Next(end, Reopen);
    OneRun(s, Crash(junk));
    OneRun(end, Reopen);
    RunsJoin(s, [Crash(junk)], c, steps, end);
    RunsJoin(s, [Crash(junk)] + steps, end, [Reopen], t);
    ops := [Crash(junk)] + steps + [Reopen];
  }

  lemma OneRun(s: State, op: Op)
    requires Enabled(s, op)
    ensures Runs(s, [op], Next(s, op))
  {
    hide Enabled, Next;
    assert [op][1..] == [];
    assert Runs(Next(s, op), [], Next(s, op));
  }

  lemma ReopenIs(end: State)
    requires end.Recovering? && end.todo == []
    ensures Enabled(end, Reopen)
    ensures Next(end, Reopen) == Serving(Disk(end.wal, end.rec.log, end.rec.files),
              Db(end.rec.version, end.rec.mem, [], [end.begin], end.rec.maxSeq + 1, end.rec.maxFileNum + 1, [], Idle, None), end.past)
  {
  }
}
