/** Compaction of one level of a database, from picking inputs to commit. */
module CompactLevels {
  import opened Bytes
  import opened InternalKeys
  import opened Versions
  import opened Merging
  import opened VersionSets
  import opened Reads
  import opened TableMetas
  import opened Histories
  import opened Recoveries
  import opened Compactions
  import opened CompactionCommits
  import opened Engine
  import opened EngineInvariant
  import opened EngineFlush
  import opened EngineCompaction
  import opened EngineRuns
  import opened EngineSteps
  import opened EngineTheorems
  import opened EngineNumbers
  import opened EngineClosure
  import opened Databases
  import Snapshots

  /** The files of a list of tables, filed by number. */
  function Filed(files: map<nat, seq<Entry>>, tables: seq<Table>): map<nat, seq<Entry>> {
    if tables == [] then files
    else
      var last := tables[|tables| - 1];
      Filed(files, tables[..|tables| - 1])[last.meta.fileNum := last.entries]
  }

  ghost function OutputOps(tables: seq<Table>): seq<Op> {
    seq(|tables|, i requires 0 <= i < |tables| => CompactOutput(tables[i].entries, tables[i].meta.fileSize))
  }

  /** A compaction's state once its files are written. */
  ghost function AfterOutputs(s: State, job: Job, tables: seq<Table>, first: nat): State
    requires s.Serving?
  {
    s.(disk := s.disk.(files := Filed(s.disk.files, tables)),
       db := s.db.(job := Some(job.(outputs := tables)), nextFileNum := first + |tables|))
  }

  lemma OutputIs(s: State, job: Job, entries: seq<Entry>, size: int, m: TableMeta)
    requires s.Serving? && s.db.job == Some(job) && Sorted(entries) && Encodable(entries)
    requires entries != [] ==> entries[0].key.num < MaxSeq && entries[|entries| - 1].key.num < MaxSeq
    requires m == MetaOf(s.db.nextFileNum, job.targetLevel, entries, size)
    ensures Enabled(s, CompactOutput(entries, size))
    ensures Next(s, CompactOutput(entries, size))
              == s.(disk := s.disk.(files := s.disk.files[s.db.nextFileNum := entries]),
                    db := s.db.(job := Some(job.(outputs := job.outputs + [Table(m, entries)])), nextFileNum := s.db.nextFileNum + 1))
  {
    hide MetaOf, Encodable, Sorted;
  }

  lemma {:induction false} OutputsRun(s: State, job: Job, tables: seq<Table>, level: nat, first: nat,
                                      full: seq<Entry> -> bool, sizeOf: seq<Entry> -> int)
    requires s.Serving? && s.db.job == Some(job) && job.outputs == [] && job.targetLevel == level && s.db.nextFileNum == first
    requires Compactions.WellCut(tables, level, first, full, sizeOf) && forall i :: 0 <= i < |tables| ==> Sorted(tables[i].entries)
    ensures Runs(s, OutputOps(tables), AfterOutputs(s, job, tables, first))
    decreases |tables|
  {
    hide Runs, Enabled, Next, MetaOf, Encodable, Sorted, FirstFull;
    if tables == [] {
      assert AfterOutputs(s, job, [], first) == s;
      assert OutputOps([]) == [];
      NoSteps(s);
    } else {
      var n := |tables| - 1;
      var front, last := tables[..n], tables[n];
      OutputsRun(s, job, front, level, first, full, sizeOf);
      assert WrittenAs(last, level, first + n, full, sizeOf);
      var t := AfterOutputs(s, job, front, first);
      var op := CompactOutput(last.entries, last.meta.fileSize);
      SizeOfMeta(first + n, level, last.entries, sizeOf(last.entries));
      OutputIs(t, job.(outputs := front), last.entries, last.meta.fileSize, last.meta);
      assert front + [Table(last.meta, last.entries)] == tables;
      assert Next(t, op) == AfterOutputs(s, job, tables, first);
      RunsOne(s, OutputOps(front), t, op);
      assert OutputOps(front) + [op] == OutputOps(tables);
    }
  }

  lemma SizeOfMeta(n: nat, level: nat, s: seq<Entry>, size: int)
    requires s != [] ==> s[0].key.num < MaxSeq && s[|s| - 1].key.num < MaxSeq
    ensures MetaOf(n, level, s, size).fileSize == size && MetaOf(n, level, s, size).fileNum == n
  {
  }

  lemma NumberAt(tables: seq<Table>, level: nat, first: nat, full: seq<Entry> -> bool, sizeOf: seq<Entry> -> int,
                 i: nat)
    requires Compactions.WellCut(tables, level, first, full, sizeOf) && i < |tables|
    ensures tables[i].meta.fileNum == first + i
  {
    hide FirstFull, Encodable;
    assert WrittenAs(tables[i], level, first + i, full, sizeOf);
  }

  lemma NumbersFrom(tables: seq<Table>, level: nat, first: nat, full: seq<Entry> -> bool, sizeOf: seq<Entry> -> int)
    requires Compactions.WellCut(tables, level, first, full, sizeOf)
    ensures forall n :: n in Nums(Metas(tables)) ==> first <= n < first + |tables|
  {
    hide Compactions.WellCut;
    forall n | n in Nums(Metas(tables)) ensures first <= n < first + |tables| {
      var t :| t in Metas(tables) && t.fileNum == n;
      var i :| 0 <= i < |tables| && Metas(tables)[i] == t;
      NumberAt(tables, level, first, full, sizeOf, i);
    }
  }

  /** Only the new numbers are filed. */
  lemma {:induction false} FiledElsewhere(files: map<nat, seq<Entry>>, tables: seq<Table>)
    ensures AgreeBut(files, Filed(files, tables), Nums(Metas(tables)))
    decreases |tables|
  {
    if tables != [] {
      var front, last := tables[..|tables| - 1], tables[|tables| - 1];
      FiledElsewhere(files, front);
      assert Metas(tables) == Metas(front) + [last.meta];
      NumsAppend(Metas(front), last.meta);
    }
  }

  lemma {:induction false} FiledAt(files: map<nat, seq<Entry>>, tables: seq<Table>, level: nat, first: nat,
                                   full: seq<Entry> -> bool, sizeOf: seq<Entry> -> int, i: nat)
    requires Compactions.WellCut(tables, level, first, full, sizeOf) && i < |tables|
    ensures FileHolds(Filed(files, tables), first + i, tables[i].entries)
    decreases |tables|
  {
    hide WrittenAs;
    var n := |tables| - 1;
    NumberAt(tables, level, first, full, sizeOf, n);
    if i < n { FiledAt(files, tables[..n], level, first, full, sizeOf, i); }
  }

  // ------------------------------------------------------------- what is merged

  ghost predicate SourcesOf(sources: seq<seq<Entry>>, inputs: seq<TableMeta>, files: map<nat, seq<Entry>>) {
    && |sources| == |inputs|
    && forall i :: 0 <= i < |inputs| ==> FileHolds(files, inputs[i].fileNum, sources[i])
  }

  lemma SourcesMerge(sources: seq<seq<Entry>>, inputs: seq<TableMeta>, files: map<nat, seq<Entry>>)
    requires SourcesOf(sources, inputs, files)
    ensures Union(sources) == TableEntries(inputs, files)
  {
    forall e | e in Union(sources) ensures e in TableEntries(inputs, files) {
      var s: seq<Entry> :| s in sources && e in s;
      var i :| 0 <= i < |sources| && sources[i] == s;
      assert inputs[i] in inputs;
    }
    forall e | e in TableEntries(inputs, files) ensures e in Union(sources) {
      var t :| t in inputs && t.fileNum in files && e in files[t.fileNum];
      var i :| 0 <= i < |inputs| && inputs[i] == t;
      InUnion(sources, i, e);
    }
  }

  /** The inputs of a reachable state can be merged. */
  lemma Mergeable(s: State, inputs: seq<TableMeta>, sources: seq<seq<Entry>>)
    requires s.Serving? && Reachable(s) && (forall t :: t in inputs ==> t in All(s.db.version.levels))
    requires SourcesOf(sources, inputs, s.disk.files)
    ensures Sources(sources) && Encodable(Emission(Union(sources), false))
    ensures forall t :: t in inputs ==> t.fileNum < s.db.nextFileNum
  {
    hide Reachable, ManifestOk, JobOk, FlushOk, WalOk, Faithful, MemsOk, Retired, Healthy, MaxNum, Describes,
         HighSeq, Emission, Numbered, Count, Entire;
    ReachableOk(s);
    SourcesMerge(sources, inputs, s.disk.files);
    forall e | e in TableEntries(inputs, s.disk.files) ensures e in TableEntries(All(s.db.version.levels), s.disk.files) { }
    forall x | x in sources ensures Sorted(x) {
      var i :| 0 <= i < |sources| && sources[i] == x;
      assert inputs[i] in inputs;
    }
    HistoryFacts(s.past.history);
    CoherentSubset(Entire(s.past.history), Union(sources));
    EmissionIsSortedUnion(Union(sources));
    forall e | e in Emission(Union(sources), false) ensures e.key.num < MaxSeq { assert e in Elements(Emission(Union(sources), false)); }
    Maxima(All(s.db.version.levels));
  }

  // ---------------------------------------------------------------- the commit

  lemma BeginIs(s: State, level: nat)
    requires s.Serving? && Enabled(s, CompactBegin(level))
    ensures |s.db.version.levels| == NumLevels && level < NumLevels - 1
    ensures Next(s, CompactBegin(level)) == s.(db := s.db.(job := Some(BeginJob(s, level))))
  {
    hide BeginJob, Resurrects;
  }

  lemma CommitIs(s: State, job: Job, edits: seq<Edit>)
    requires s.Serving? && s.db.job == Some(job) && |s.db.version.levels| == NumLevels && job.outputs != []
    requires edits == CommitEdits(job.inputs, Metas(job.outputs))
    requires OutputEntries(job) == Survivors(InputEntries(job, s.disk.files), job.oldest, job.bottom)
    ensures Enabled(s, CompactCommit)
    ensures Next(s, CompactCommit)
              == s.(disk := s.disk.(log := s.disk.log + edits), db := s.db.(version := Replay(s.db.version, edits), job := None))
  {
    hide CommitEdits, Survivors, Replay;
  }

  /** What the merge wrote is what the commit needs. */
  lemma MergedIsSurvivors(job: Job, sources: seq<seq<Entry>>, outputs: seq<Table>, files: map<nat, seq<Entry>>,
                          files': map<nat, seq<Entry>>)
    requires Sources(sources) && SourcesOf(sources, job.inputs, files) && SourcesOf(sources, job.inputs, files')
    requires Contents(outputs) == Gc(Emission(Union(sources), false), job.oldest, job.bottom)
    ensures OutputEntries(job.(outputs := outputs)) == Survivors(InputEntries(job.(outputs := outputs), files'), job.oldest, job.bottom)
    ensures forall i :: 0 <= i < |outputs| ==> Sorted(outputs[i].entries)
  {
    hide Gc, Emission, Survivors, Sources, Contents, Sorted;
    SourcesMerge(sources, job.inputs, files');
    OutputsHoldSurvivors(sources, job.oldest, job.bottom, outputs);
    var job' := job.(outputs := outputs);
    forall e ensures e in OutputEntries(job') <==> exists i :: 0 <= i < |outputs| && e in outputs[i].entries {
      if e in OutputEntries(job') {
        var t :| t in outputs && e in t.entries;
        var i :| 0 <= i < |outputs| && outputs[i] == t;
      }
      if i :| 0 <= i < |outputs| && e in outputs[i].entries { assert outputs[i] in outputs; }
    }
  }

  /** The run a compaction makes, and where it ends. */
  lemma CompactionRuns(s: State, level: nat, sources: seq<seq<Entry>>, outputs: seq<Table>, full: seq<Entry> -> bool,
                       sizeOf: seq<Entry> -> int,
                       job: Job, edits: seq<Edit>)
    returns (ops: seq<Op>)
    requires s.Serving? && Reachable(s) && Enabled(s, CompactBegin(level))
    requires |s.db.version.levels| == NumLevels && level < NumLevels - 1 && job == BeginJob(s, level)
    requires (forall t :: t in job.inputs ==> t in All(s.db.version.levels)) && SourcesOf(sources, job.inputs, s.disk.files)
    requires outputs != [] && Compactions.WellCut(outputs, level + 1, s.db.nextFileNum, full, sizeOf)
    requires Sources(sources) && Contents(outputs) == Gc(Emission(Union(sources), false), job.oldest, job.bottom)
    requires edits == CommitEdits(job.inputs, Metas(outputs))
    ensures |ops| >= 2 && ops[0] == CompactBegin(level) && ops[|ops| - 1] == CompactCommit
    ensures Runs(s, ops, Serving(s.disk.(log := s.disk.log + edits, files := Filed(s.disk.files, outputs)),
                                 s.db.(version := Replay(s.db.version, edits), job := None, nextFileNum := s.db.nextFileNum + |outputs|), s.past))
  {
    hide Reachable, Enabled, Next, Runs, BeginJob, Compactions.WellCut, Contents, Gc, Emission, Survivors,
         CommitEdits, Replay, Sources, Filed, Outside;
    var first := s.db.nextFileNum;
    var s1 := s.(db := s.db.(job := Some(job)));
    BeginIs(s, level);
    JobStarts(s, level, job);
    Mergeable(s, job.inputs, sources);
    FiledElsewhere(s.disk.files, outputs);
    NumbersFrom(outputs, level + 1, first, full, sizeOf);
    assert SourcesOf(sources, job.inputs, Filed(s.disk.files, outputs)) by {
      forall i | 0 <= i < |job.inputs| ensures FileHolds(Filed(s.disk.files, outputs), job.inputs[i].fileNum, sources[i]) {
        assert job.inputs[i] in job.inputs;
      }
    }
    MergedIsSurvivors(job, sources, outputs, s.disk.files, Filed(s.disk.files, outputs));
    OutputsRun(s1, job, outputs, level + 1, first, full, sizeOf);
    var s2 := AfterOutputs(s1, job, outputs, first);
    CommitIs(s2, job.(outputs := outputs), edits);
    NoSteps(s);
    RunsOne(s, [], s, CompactBegin(level));
    assert [] + [CompactBegin(level)] == [CompactBegin(level)];
    RunsJoin(s, [CompactBegin(level)], s1, OutputOps(outputs), s2);
    ops := [CompactBegin(level)] + OutputOps(outputs) + [CompactCommit];
    RunsOne(s, [CompactBegin(level)] + OutputOps(outputs), s2, CompactCommit);
  }

  lemma JobStarts(s: State, level: nat, job: Job)
    requires s.Serving? && |s.db.version.levels| == NumLevels && level < NumLevels - 1 && job == BeginJob(s, level)
    ensures job.outputs == [] && job.targetLevel == level + 1 && job.inputs == Inputs(s.db.version, level).value
    ensures job.oldest == Snapshots.OldestOf(s.db.snapshots, s.db.nextSeq) && job.bottom == Bottom(s.db.version.levels, level + 1)
  {
  }

  // ------------------------------------------------------------- what readers see

  /** The state a compaction leaves. */
  ghost function Compacted(s: State, level: nat, outputs: seq<Table>): State
    requires s.Serving? && |s.db.version.levels| == NumLevels && level < NumLevels - 1
  {
    var edits := CommitEdits(Inputs(s.db.version, level).value, Metas(outputs));
    Serving(s.disk.(log := s.disk.log + edits, files := Filed(s.disk.files, outputs)),
            s.db.(version := Replay(s.db.version, edits), nextFileNum := s.db.nextFileNum + |outputs|), s.past)
  }

  lemma NewNumber(s: State, n: nat, next: nat)
    requires s.Serving? && Reachable(s) && s.db.nextFileNum <= n < next
    ensures Fresh(n, s.disk.log, s.db.version, next)
  {
    hide Reachable, Inv, ManifestOk, Retired, MaxNum, Fresh, Healthy;
    ReachableOk(s);
    Numbers(s);
    NextIsFresh(s.disk.log, s.db.version, s.past.leaked, n);
    FreshLonger(n, s.disk.log, s.db.version, n + 1, next);
  }

  lemma FreshLonger(n: nat, log: seq<Edit>, v: Version, a: nat, b: nat)
    requires Fresh(n, log, v, a) && a <= b
    ensures Fresh(n, log, v, b)
  {
  }

  /** The merge's files are under new numbers, each as recorded. */
  lemma OutputsAreOk(s: State, job: Job, full: seq<Entry> -> bool, sizeOf: seq<Entry> -> int)
    requires s.Serving? && Reachable(s) && job.targetLevel < NumLevels
    requires Compactions.WellCut(job.outputs, job.targetLevel, s.db.nextFileNum, full, sizeOf)
    requires forall i :: 0 <= i < |job.outputs| ==> Sorted(job.outputs[i].entries)
    requires forall t :: t in job.inputs ==> t.fileNum < s.db.nextFileNum
    ensures OutputsOk(job, s.disk.log, Filed(s.disk.files, job.outputs), s.db.version, s.db.nextFileNum + |job.outputs|, Idle)
  {
    hide Reachable, Compactions.WellCut, OutputOk, Sorted, Filed;
    var first := s.db.nextFileNum;
    forall i | 0 <= i < |job.outputs|
      ensures OutputOk(job.outputs[i], job, s.disk.log, Filed(s.disk.files, job.outputs), s.db.version, first + |job.outputs|, Idle)
      ensures job.outputs[i].meta.fileNum == first + i
    {
      OneOutput(s, job, full, sizeOf, i);
    }
  }

  lemma OneOutput(s: State, job: Job, full: seq<Entry> -> bool, sizeOf: seq<Entry> -> int, i: nat)
    requires s.Serving? && Reachable(s) && i < |job.outputs|
    requires Compactions.WellCut(job.outputs, job.targetLevel, s.db.nextFileNum, full, sizeOf) && Sorted(job.outputs[i].entries)
    requires forall t :: t in job.inputs ==> t.fileNum < s.db.nextFileNum
    ensures OutputOk(job.outputs[i], job, s.disk.log, Filed(s.disk.files, job.outputs), s.db.version,
                     s.db.nextFileNum + |job.outputs|, Idle)
    ensures job.outputs[i].meta.fileNum == s.db.nextFileNum + i
  {
    hide Reachable, Fresh, Sorted, FileHolds, FirstFull, Filed;
    var t, first := job.outputs[i], s.db.nextFileNum;
    assert WrittenAs(t, job.targetLevel, first + i, full, sizeOf);
    OutputTable(first + i, job.targetLevel, t.entries, sizeOf(t.entries));
    NewNumber(s, first + i, first + |job.outputs|);
    FiledAt(s.disk.files, job.outputs, job.targetLevel, first, full, sizeOf, i);
  }

  /** After the commit the live entries are the survivors and everything that was
      outside the inputs. */
  lemma CompactedLive(s: State, level: nat, job: Job, outputs: seq<Table>, full: seq<Entry> -> bool,
                      sizeOf: seq<Entry> -> int)
    requires s.Serving? && Reachable(s) && |s.db.version.levels| == NumLevels && level < NumLevels - 1
    requires job == BeginJob(s, level).(outputs := outputs)
    requires Compactions.WellCut(outputs, level + 1, s.db.nextFileNum, full, sizeOf)
    requires forall i :: 0 <= i < |outputs| ==> Sorted(outputs[i].entries)
    requires OutputEntries(job) == Survivors(InputEntries(job, s.disk.files), job.oldest, job.bottom)
    ensures LiveEntries(Compacted(s, level, outputs)) == Survivors(InputEntries(job, s.disk.files), job.oldest, job.bottom) + job.others
  {
    hide Reachable, Inputs, Outside, TableEntries, MemEntries, Survivors, OutputEntries, OutputsOk,
         Compactions.WellCut, CommitEdits, Replay, Snapshots.OldestOf, Floor, Filed, Healthy, Addable, Committed,
         All, Nums, Fresh, FlushNum, Present;
    var v, inputs, outs, files := s.db.version, job.inputs, Metas(outputs), Filed(s.disk.files, outputs);
    InputsLiveBelow(s, level, job);
    OutputsAreOk(s, job, full, sizeOf);
    OutputTables(job, s.disk.log, files, v, s.db.nextFileNum + |outputs|, Idle);
    CommitLive(v, inputs, outs);
    var w := Replay(v, CommitEdits(inputs, outs));
    CommitTables(v, w, job, files, outs);
    FiledElsewhere(s.disk.files, outputs);
    NumbersFrom(outputs, level + 1, s.db.nextFileNum, full, sizeOf);
    OutsideUntouched(s, inputs, files, Nums(outs));
    var o, out, mems := TableEntries(Outside(All(v.levels), inputs), s.disk.files), OutputEntries(job), MemEntries(s.db.imms, s.db.mem);
    assert o + out + mems == out + (o + mems);
  }

  lemma InputsLiveBelow(s: State, level: nat, job: Job)
    requires s.Serving? && Reachable(s) && |s.db.version.levels| == NumLevels && level < NumLevels - 1
    requires job.inputs == Inputs(s.db.version, level).value
    ensures Healthy(s.db.version)
    ensures forall t :: t in job.inputs ==> t in All(s.db.version.levels) && t.fileNum < s.db.nextFileNum
  {
    hide Reachable, Inv, ManifestOk, Retired, MaxNum, Fresh, Healthy;
    ReachableOk(s);
    Numbers(s);
    InputsAreLive(s.db.version, level);
    Maxima(All(s.db.version.levels));
  }

  lemma OutsideUntouched(s: State, inputs: seq<TableMeta>, files: map<nat, seq<Entry>>, nums: set<nat>)
    requires s.Serving? && Reachable(s) && AgreeBut(s.disk.files, files, nums) && forall n :: n in nums ==> n >= s.db.nextFileNum
    ensures TableEntries(Outside(All(s.db.version.levels), inputs), files) == TableEntries(Outside(All(s.db.version.levels), inputs), s.disk.files)
  {
    hide Reachable, Inv, ManifestOk, Retired, MaxNum, Fresh, Healthy, TableEntries, Present, Outside, AgreeBut;
    ReachableOk(s);
    Numbers(s);
    OutsideMembers(All(s.db.version.levels), inputs);
    Maxima(All(s.db.version.levels));
    EngineFlush.SameTables(Outside(All(s.db.version.levels), inputs), s.disk.files, files, nums);
  }

  /** A compaction shows no reader at or above the oldest snapshot anything else
      exactly when the engine's step allows it to start. */
  lemma CompactionExact(s: State, level: nat, after: State)
    requires s.Serving? && Reachable(s) && s.db.job.None? && !s.db.flush.Logged? && after.Serving?
    requires |s.db.version.levels| == NumLevels && level < NumLevels - 1 && s.db.version.levels[level] != []
    requires var job := BeginJob(s, level);
             LiveEntries(after) == Survivors(InputEntries(job, s.disk.files), job.oldest, job.bottom) + job.others
    ensures (forall k, r :: r >= BeginJob(s, level).oldest ==> Answer(LiveEntries(after), k, r) == Answer(LiveEntries(s), k, r))
            <==> Enabled(s, CompactBegin(level))
  {
    hide Reachable, Inputs, Outside, TableEntries, MemEntries, Answer, Snapshots.OldestOf, Floor, Resurrects,
         Survivors, LiveEntries, Bottom, InputEntries;
    if Bottom(s.db.version.levels, level + 1) {
      ClosureIsExact(s, level);
    } else {
      var job := BeginJob(s, level);
      NothingDropped(InputEntries(job, s.disk.files), job.oldest);
      LivePieces(s, level);
    }
  }

  lemma NothingDropped(U: set<Entry>, oldest: nat)
    ensures Survivors(U, oldest, false) == U
  {
  }

  // --------------------------------------------------------------- the procedure

  /** Merges what the level and its overlaps hold into new tables one level down.
      Readers at or above the oldest snapshot see no change exactly when the
      engine's step allows the compaction, and then it is a run of the engine.
      True is the error for the last level. */
  method CompactLevel(db: DB, level: nat, full: seq<Entry> -> bool, sizeOf: seq<Entry> -> int)
    returns (error: bool, ghost outputs: seq<Table>, ghost ops: seq<Op>)
    requires db.Valid() && !full([])
    modifies db`manifest, db`files, db`nextFileNum, db.version`obsolete, db.version.levels
    ensures |old(db.Now()).db.version.levels| == NumLevels && error == (level >= NumLevels - 1)
    ensures error || old(db.Now()).db.version.levels[level] == [] ==> db.Now() == old(db.Now()) && db.Valid()
    ensures !error && old(db.Now()).db.version.levels[level] != [] ==> Completed(old(db.Now()), level, full, sizeOf, outputs, ops, db.Now())
    ensures !error && Enabled(old(db.Now()), CompactBegin(level)) ==> db.Valid()
  {
    hide Reachable, Runs, Enabled, Next, VersionSet.Valid, Snapshots.SnapshotList.Valid, Inputs, DB.Now, Completed;
    outputs, ops := [], [];
    SevenLevels(db);
    if level >= NumLevels - 1 { return true, [], []; }
    error := false;
    NoInputs(db, level);
    var picked := PickInputs(db.version, level);
    var inputs := picked.value;
    if |inputs| == 0 { return; }
    outputs, ops := MergeAndCommit(db, level, inputs, full, sizeOf);
  }

  /** With anything below the target level the files hold everything they merge;
      with nothing there, all but what a tombstone every snapshot sees has buried. */
  ghost predicate Wrote(s: State, level: nat, outputs: seq<Table>)
    requires s.Serving? && |s.db.version.levels| == NumLevels && level < NumLevels - 1
  {
    var merged := TableEntries(Inputs(s.db.version, level).value, s.disk.files);
    var wrote := set t, e | t in outputs && e in t.entries :: e;
    if exists l :: level + 1 < l < NumLevels && s.db.version.levels[l] != [] then wrote == merged
    else wrote == set e | e in merged && !Superseded(merged, Snapshots.OldestOf(s.db.snapshots, s.db.nextSeq), e)
  }

  ghost predicate Superseded(merged: set<Entry>, oldest: nat, e: Entry) {
    exists t :: t in merged && t.key.kind.Tombstone? && t.key.num <= oldest && t.key.user == e.key.user && t.key.num >= e.key.num
  }

  lemma SurvivorsWritten(s: State, level: nat, job: Job, outputs: seq<Table>)
    requires s.Serving? && |s.db.version.levels| == NumLevels && level < NumLevels - 1 && job == BeginJob(s, level)
    requires OutputEntries(job.(outputs := outputs)) == Survivors(InputEntries(job, s.disk.files), job.oldest, job.bottom)
    ensures Wrote(s, level, outputs)
  {
    hide Inputs, Outside, Snapshots.OldestOf, Floor, MemEntries;
    var merged := TableEntries(job.inputs, s.disk.files);
    forall e ensures Superseded(merged, job.oldest, e) <==> Buried(merged, job.oldest, e) { }
  }

  /** What a compaction of a level that is not empty has done. */
  ghost predicate Completed(s: State, level: nat, full: seq<Entry> -> bool, sizeOf: seq<Entry> -> int,
                       outputs: seq<Table>, ops: seq<Op>, after: State)
    requires s.Serving? && |s.db.version.levels| == NumLevels && level < NumLevels - 1
  {
    && outputs != [] && Compactions.WellCut(outputs, level + 1, s.db.nextFileNum, full, sizeOf)
    && after == Compacted(s, level, outputs) && Wrote(s, level, outputs)
    && ((forall k, r :: r >= BeginJob(s, level).oldest ==> Answer(LiveEntries(after), k, r) == Answer(LiveEntries(s), k, r))
        <==> Enabled(s, CompactBegin(level)))
    && (Enabled(s, CompactBegin(level)) ==>
          Runs(s, ops, after) && |ops| >= 2 && ops[0] == CompactBegin(level) && ops[|ops| - 1] == CompactCommit)
  }

  lemma SevenLevels(db: DB)
    requires db.version.Valid()
    ensures |db.Now().db.version.levels| == NumLevels && db.Now().db.version == db.version.Abs()
  {
  }

  lemma NoInputs(db: DB, level: nat)
    requires db.version.Valid() && level < NumLevels - 1
    ensures Inputs(db.version.Abs(), level).Some?
    ensures Inputs(db.version.Abs(), level).value == [] <==> db.version.Abs().levels[level] == []
  {
    InputsAreLive(db.version.Abs(), level);
  }

  method MergeAndCommit(db: DB, level: nat, inputs: seq<TableMeta>, full: seq<Entry> -> bool, sizeOf: seq<Entry> -> int)
    returns (ghost outs: seq<Table>, ghost ops: seq<Op>)
    requires db.Valid() && !full([]) && level < NumLevels - 1 && Inputs(db.version.Abs(), level) == Some(inputs) && inputs != []
    modifies db`manifest, db`files, db`nextFileNum, db.version`obsolete, db.version.levels
    ensures |old(db.Now()).db.version.levels| == NumLevels
    ensures Completed(old(db.Now()), level, full, sizeOf, outs, ops, db.Now())
    ensures Enabled(old(db.Now()), CompactBegin(level)) ==> db.Valid()
  {
    hide Reachable, Runs, Enabled, Next, Inputs, BeginJob, Emission, Gc, Contents, Compactions.WellCut, Sources,
         CommitEdits, Replay, Filed, WellFormed, Snapshots.SnapshotList.Valid, Completed;
    ghost var before := db.Now();
    ghost var job := BeginJob(before, level);
    JobStarts(before, level, job);
    LiveInputs(before, level);
    var sources := OpenInputs(db, inputs);
    Mergeable(before, inputs, sources);
    var oldest := db.snapshots.GetOldestSnapshotSeq(db.nextSeq);
    var bottom := IsBottom(db.version.levels[..], level + 1);
    var outputs, next := MergeInputs(sources, level + 1, oldest, bottom, db.nextFileNum, full, sizeOf);
    outs := outputs;
    ops := MergedState(before, level, sources, outputs, full, sizeOf, job);
    StoreOutputs(db, inputs, outputs);
    if Enabled(before, CompactBegin(level)) {
      CompletedRuns(before, level, full, sizeOf, outs, ops, db.Now());
      ReachesOn(before, ops, db.Now());
    }
  }

  lemma CompletedRuns(s: State, level: nat, full: seq<Entry> -> bool, sizeOf: seq<Entry> -> int, outputs: seq<Table>,
                      ops: seq<Op>, after: State)
    requires s.Serving? && |s.db.version.levels| == NumLevels && level < NumLevels - 1
    requires Completed(s, level, full, sizeOf, outputs, ops, after) && Enabled(s, CompactBegin(level))
    ensures Runs(s, ops, after)
  {
    hide Enabled, Runs, Compactions.WellCut, Compacted, BeginJob, LiveEntries, Answer, Wrote;
  }

  /** What the merge's files amount to once they are committed. */
  lemma MergedState(s: State, level: nat, sources: seq<seq<Entry>>, outputs: seq<Table>, full: seq<Entry> -> bool,
                    sizeOf: seq<Entry> -> int, job: Job)
    returns (ops: seq<Op>)
    requires s.Serving? && Reachable(s) && s.db.job.None? && s.db.flush.Idle?
    requires |s.db.version.levels| == NumLevels && level < NumLevels - 1 && job == BeginJob(s, level) && job.inputs != []
    requires (forall t :: t in job.inputs ==> t in All(s.db.version.levels)) && SourcesOf(sources, job.inputs, s.disk.files)
    requires outputs != [] && Compactions.WellCut(outputs, level + 1, s.db.nextFileNum, full, sizeOf)
    requires Sources(sources) && Contents(outputs) == Gc(Emission(Union(sources), false), job.oldest, job.bottom)
    ensures Completed(s, level, full, sizeOf, outputs, ops, Compacted(s, level, outputs))
  {
    hide Reachable, Enabled, Next, Runs, BeginJob, Compactions.WellCut, Contents, Gc, Emission, Survivors,
         CommitEdits, Replay, Sources, Filed, Outside, Inputs, LiveEntries, Answer, OutputEntries, InputEntries, Wrote;
    JobStarts(s, level, job);
    InputsAreLive(s.db.version, level);
    MergedIsSurvivors(job, sources, outputs, s.disk.files, s.disk.files);
    SameInputs(job, outputs, s.disk.files);
    SurvivorsWritten(s, level, job, outputs);
    CompactedLive(s, level, job.(outputs := outputs), outputs, full, sizeOf);
    CompactionExact(s, level, Compacted(s, level, outputs));
    ops := [];
    if Enabled(s, CompactBegin(level)) {
      ops := CompactionRuns(s, level, sources, outputs, full, sizeOf, job, CommitEdits(job.inputs, Metas(outputs)));
    }
  }

  lemma SameInputs(job: Job, outputs: seq<Table>, files: map<nat, seq<Entry>>)
    ensures InputEntries(job.(outputs := outputs), files) == InputEntries(job, files)
  {
  }

  lemma LiveInputs(s: State, level: nat)
    requires s.Serving? && |s.db.version.levels| == NumLevels && level < NumLevels - 1
    ensures Inputs(s.db.version, level).Some?
    ensures forall t :: t in Inputs(s.db.version, level).value ==> t in All(s.db.version.levels)
  {
    InputsAreLive(s.db.version, level);
  }

  method OpenInputs(db: DB, inputs: seq<TableMeta>) returns (sources: seq<seq<Entry>>)
    requires db.Valid() && forall t :: t in inputs ==> t in All(db.Now().db.version.levels)
    ensures SourcesOf(sources, inputs, db.Now().disk.files)
  {
    hide Reachable, VersionSet.Valid, Snapshots.SnapshotList.Valid;
    TablesPresent(db.Now());
    var fs := db.files;
    sources := seq(|inputs|, i requires 0 <= i < |inputs| && inputs[i].fileNum in fs => fs[inputs[i].fileNum]);
  }

  /** The new files, then the removals and additions. */
  method StoreOutputs(db: DB, inputs: seq<TableMeta>, outputs: seq<Table>)
    requires db.version.Valid()
    modifies db`manifest, db`files, db`nextFileNum, db.version`obsolete, db.version.levels
    ensures db.version.Valid()
    ensures var s, edits := old(db.Now()), CommitEdits(inputs, Metas(outputs));
            && |s.db.version.levels| == NumLevels
            && db.Now() == Serving(s.disk.(log := s.disk.log + edits, files := Filed(s.disk.files, outputs)),
                                   s.db.(version := Replay(s.db.version, edits), nextFileNum := s.db.nextFileNum + |outputs|), s.past)
  {
    hide WellFormed, Replay, CommitEdits, Snapshots.ReadSeqs;
    for i := 0 to |outputs|
      invariant db.files == Filed(old(db.files), outputs[..i])
      invariant db.version.Valid() && db.version.Abs() == old(db.version.Abs()) && db.manifest == old(db.manifest) && db.nextFileNum == old(db.nextFileNum)
    {
      assert outputs[..i + 1][..i] == outputs[..i];
      db.files := db.files[outputs[i].meta.fileNum := outputs[i].entries];
    }
    assert outputs[..|outputs|] == outputs;
    db.nextFileNum := db.nextFileNum + |outputs|;
    db.manifest := Commit(db.version, db.manifest, inputs, Metas(outputs));
  }
}
