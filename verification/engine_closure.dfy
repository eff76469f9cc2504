/** When a compaction may start: the closure hypothesis of the engine's step, what
    of the files alone implies it, and that it is exactly what readers need. */
module EngineClosure {
  import opened Bytes
  import opened Versions
  import opened VersionSets
  import opened WalRecords
  import opened Histories
  import opened Compactions
  import opened CompactionCommits
  import opened Engine
  import opened EngineInvariant
  import opened EngineSteps
  import opened EngineRecovery
  import opened EngineRuns
  import Snapshots

  // ------------------------------------------------- memtables hold a suffix

  lemma {:induction false} ImmutablesCover(imms: seq<seq<Entry>>, cuts: seq<nat>, h: seq<Batch>, i: nat)
    requires HistoryOk(h) && |cuts| == |imms| + 1 && i <= |imms| && cuts[|imms|] <= |h|
    requires forall i, j :: 0 <= i <= j < |cuts| ==> cuts[i] <= cuts[j]
    requires forall i :: 0 <= i < |imms| ==> Elements(imms[i]) == Written(h, cuts[i], cuts[i + 1])
    ensures Written(h, cuts[i], cuts[|imms|]) <= Union(imms)
    decreases |imms| - i
  {
    hide Written, Numbered, Count;
    if i < |imms| {
      ImmutablesCover(imms, cuts, h, i + 1);
      assert cuts[i] <= cuts[i + 1] <= cuts[|imms|];
      WrittenSplits(h, cuts[i], cuts[i + 1], cuts[|imms|]);
      assert imms[i] in imms;
      assert Elements(imms[i]) <= Union(imms);
    } else {
      NothingBetween(h, cuts[|imms|]);
    }
  }

  /** A memtable entry brings everything written after it along. */
  lemma MemsAreSuffix(mem: seq<Entry>, imms: seq<seq<Entry>>, cuts: seq<nat>, h: seq<Batch>, covered: nat, x: Entry,
                      t: Entry)
    requires HistoryOk(h) && MemsOk(mem, imms, cuts, h, covered)
    requires x in MemEntries(imms, mem) && t in Entire(h) && x.key.num <= t.key.num
    ensures t in MemEntries(imms, mem)
  {
    hide Written, Numbered, Count, Entire;
    MemsBeyond(mem, imms, cuts, h, cuts[0]);
    assert cuts[0] <= cuts[|imms|];
    ImmutablesCover(imms, cuts, h, 0);
    WrittenSplits(h, cuts[0], cuts[|imms|], |h|);
    assert Written(h, cuts[0], |h|) <= MemEntries(imms, mem);
    BeyondCutoff(h, cuts[0]);
  }

  // ------------------------------------------------------ closure of the files

  /** Among what is outside the inputs, only a file can hide the version that
      comes back. */
  lemma FilesResurrect(ins: set<Entry>, outside: set<Entry>, mems: set<Entry>, H: set<Entry>, oldest: nat, k: bytes)
    requires Coherent(H) && ins <= H && outside <= H && mems <= H
    requires forall x, t :: x in mems && t in H && x.key.num <= t.key.num ==> t in mems
    requires Closed(ins, outside)
    ensures !Resurrects(ins, outside + mems, oldest, k)
  {
    var others := outside + mems;
    forall t, x | Newest(ins + others, k, oldest, t) && t !in others && Newest(others, k, oldest, x)
      ensures t == x
    {
      assert x in ins + others && x.key.num <= t.key.num;
      assert t in H && x in H;
    }
  }

  /** If no file outside the inputs holds an older version of an input's key, the
      compaction may start, whatever the memtables hold. */
  lemma ClosedFilesSuffice(s: State, level: nat)
    requires s.Serving? && Reachable(s) && s.db.job.None? && !s.db.flush.Logged?
    requires level < NumLevels - 1 && |s.db.version.levels| == NumLevels && s.db.version.levels[level] != []
    requires var inputs := Inputs(s.db.version, level).value;
             Closed(TableEntries(inputs, s.disk.files), TableEntries(Outside(All(s.db.version.levels), inputs), s.disk.files))
    ensures Enabled(s, CompactBegin(level))
  {
    hide Reachable, Resurrects, Closed, Inputs, Outside, TableEntries, MemEntries, Floor, Snapshots.OldestOf, Entire;
    LivePieces(s, level);
    var job := BeginJob(s, level);
    var outside := TableEntries(Outside(All(s.db.version.levels), job.inputs), s.disk.files);
    var mems, H := MemEntries(s.db.imms, s.db.mem), Entire(s.past.history);
    assert job.others == outside + mems;
    forall k ensures !Resurrects(InputEntries(job, s.disk.files), job.others, job.oldest, k) {
      FilesResurrect(InputEntries(job, s.disk.files), outside, mems, H, job.oldest, k);
    }
  }

  /** Inputs, other tables and memtables are parts of the history, the memtables
      its end. */
  lemma LivePieces(s: State, level: nat)
    requires s.Serving? && Reachable(s) && level < NumLevels - 1 && |s.db.version.levels| == NumLevels
    ensures Numbered(s.past.history) && Coherent(Entire(s.past.history))
    ensures var job, H, mems := BeginJob(s, level), Entire(s.past.history), MemEntries(s.db.imms, s.db.mem);
            && InputEntries(job, s.disk.files) <= H && mems <= H
            && TableEntries(Outside(All(s.db.version.levels), job.inputs), s.disk.files) <= H
            && InputEntries(job, s.disk.files) + job.others == LiveEntries(s)
            && forall x, t :: x in mems && t in H && x.key.num <= t.key.num ==> t in mems
  {
    hide Reachable, Overlapping, SmallestOf, LargestOf, Outside, TableEntries, MemEntries, Floor, Snapshots.OldestOf,
         Entire, ManifestOk, WalOk, JobOk, FlushOk, Healthy, Present, Retired, Count, Numbered, MemsOk, Answer;
    ReachableOk(s);
    HistoryFacts(s.past.history);
    InputsAreLive(s.db.version, level);
    var inputs := Inputs(s.db.version, level).value;
    var job := BeginJob(s, level);
    InputsAndOthers(All(s.db.version.levels), inputs, s.disk.files);
    var ins, mems := TableEntries(inputs, s.disk.files), MemEntries(s.db.imms, s.db.mem);
    var outside := TableEntries(Outside(All(s.db.version.levels), inputs), s.disk.files);
    assert InputEntries(job, s.disk.files) == ins && job.others == outside + mems;
    assert ins + (outside + mems) == ins + outside + mems;
    forall x, t | x in mems && t in Entire(s.past.history) && x.key.num <= t.key.num ensures t in mems {
      MemsAreSuffix(s.db.mem, s.db.imms, s.db.cuts, s.past.history, s.past.covered, x, t);
    }
  }

  // ------------------------------------------------------- exactly what is needed

  /** With nothing below the target, dropping tombstones shows no reader at or
      above the oldest snapshot anything else exactly when the engine's step is
      enabled: the closure hypothesis is the weakest there is. */
  lemma ClosureIsExact(s: State, level: nat)
    requires s.Serving? && Reachable(s) && s.db.job.None? && !s.db.flush.Logged?
    requires level < NumLevels - 1 && |s.db.version.levels| == NumLevels && s.db.version.levels[level] != []
    requires Bottom(s.db.version.levels, level + 1)
    ensures var job := BeginJob(s, level);
            (forall k, r :: r >= job.oldest ==>
               Answer(Survivors(InputEntries(job, s.disk.files), job.oldest, true) + job.others, k, r) == Answer(LiveEntries(s), k, r))
            <==> Enabled(s, CompactBegin(level))
  {
    hide Reachable, Resurrects, Inputs, Outside, TableEntries, MemEntries, Floor, Snapshots.OldestOf, Entire,
         Survivors, Answer, LiveEntries;
    LivePieces(s, level);
    var job := BeginJob(s, level);
    var ins := InputEntries(job, s.disk.files);
    CoherentSubset(Entire(s.past.history), ins + job.others);
    CompactionInvisible(ins, job.others, job.oldest);
  }
}
