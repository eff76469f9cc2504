/** The picking gap on a run of the engine: a key is put, flushed and compacted into
    level 1, then deleted and flushed; compacting level 0 leaves the put out, drops
    the delete, and the key comes back. */
module PickingGap {
  import opened Bytes
  import opened InternalKeys
  import opened Versions
  import opened VersionSets
  import opened Reads
  import opened Skiplists
  import opened TableMetas
  import opened WalRecords
  import opened Histories
  import opened Compactions
  import opened CompactionCommits
  import opened Engine
  import opened EngineInvariant
  import opened EngineTheorems
  import opened EngineSteps
  import opened EngineClosure
  import opened Merging
  import opened Databases
  import opened CompactLevels
  import opened Picking
  import Flushes
  import Snapshots

  /** Nothing in memory and nothing under way. */
  ghost predicate Calm(s: State) {
    && s.Serving? && Reachable(s) && s.db.flush.Idle? && s.db.job.None?
    && s.db.mem == [] && s.db.imms == [] && s.db.snapshots == [] && |s.db.version.levels| == NumLevels
  }

  /** These records, written now, are these entries. */
  ghost predicate Writes(s: State, records: seq<LogicalRecord>, es: seq<Entry>)
    requires s.Serving?
  {
    && Rejection(Batch(s.db.nextSeq, records)).None? && KnownTypes(records) && s.db.nextSeq + |records| < MaxSeq
    && Known(NewBatch(s.db, records)) && es == WithBatch([], NewBatch(s.db, records))
    && es != [] && es[0].key.num < MaxSeq && es[|es| - 1].key.num < MaxSeq
  }

  /** One write, a rotation and a whole flush. */
  lemma WriteAndFlush(s: State, records: seq<LogicalRecord>, es: seq<Entry>, m: TableMeta) returns (t: State)
    requires Calm(s) && Writes(s, records, es)
    requires es != [] && es[0].key.num < MaxSeq && es[|es| - 1].key.num < MaxSeq
    requires m == Flushes.FlushMeta(s.db.nextFileNum, es, 0)
    ensures t.Serving? && Calm(t) && t.db.nextSeq == s.db.nextSeq + |records| && t.db.nextFileNum == s.db.nextFileNum + 1
    ensures t.db.version == Cutoff(Add(s.db.version, m), m.largestSeq)
    ensures t.disk.files == s.disk.files[s.db.nextFileNum := es]
  {
    hide Reachable, Runs, Enabled, Next, Flushes.FlushMeta, Add, Cutoff, Encodable, WithBatch, AppendedTo;
    WriteEnabled(s, records, false);
    WriteIs(s, records, false);
    OneStep(s, Op.Write(records, false));
    var s1 := Next(s, Op.Write(records, false));
    RotateIs(s1);
    OneStep(s1, Op.Rotate);
    var s2 := Next(s1, Op.Rotate);
    assert s2.db.imms == [es];
    OldestImmutable(s2);
    FlushRuns(s2, 0, m);
    StillSeven(s.db.version, m);
    t := Flushed(s2, m);
    ReachesOn(s2, FlushSteps(0), t);
  }

  lemma StillSeven(v: Version, m: TableMeta)
    requires |v.levels| == NumLevels
    ensures |Cutoff(Add(v, m), m.largestSeq).levels| == NumLevels
  {
  }

  /** Two levels at most hold a table. */
  function Levels(upper: seq<TableMeta>, lower: seq<TableMeta>): seq<seq<TableMeta>> {
    [upper, lower, [], [], [], [], []]
  }

  lemma AllOf(upper: seq<TableMeta>, lower: seq<TableMeta>)
    ensures All(Levels(upper, lower)) == upper + lower && Bottom(Levels(upper, lower), 1)
  {
    var levels := Levels(upper, lower);
    NoTables(levels[1..][1..]);
    assert All(levels[1..]) == lower + [];
  }

  // ------------------------------------------------------------ into level 1

  lemma AloneInLevel0(s: State, m: TableMeta, es: seq<Entry>, job: Job)
    requires Calm(s) && s.db.version.levels == Levels([m], []) && FileHolds(s.disk.files, m.fileNum, es)
    requires job == BeginJob(s, 0)
    ensures job.inputs == [m] && SourcesOf([es], job.inputs, s.disk.files) && Enabled(s, CompactBegin(0))
  {
    hide Reachable, Runs, Resurrects, Snapshots.OldestOf, Floor, SmallestOf, LargestOf;
    assert [m] + [] == [m];
    AllOf([m], []);
    assert [m][..0] == [];
    assert Outside([m], [m]) == [];
    ClosedFilesSuffice(s, 0);
  }

  ghost predicate Puts(es: seq<Entry>) {
    && Sorted(es) && Coherent(Elements(es)) && Encodable(es)
    && forall e :: e in es ==> e.key.kind.Value?
  }

  /** Puts are merged whole. */
  lemma {:induction false} PutsStay(es: seq<Entry>, oldest: nat)
    requires forall e :: e in es ==> e.key.kind.Value?
    ensures Gc(es, oldest, true) == es
    decreases |es|
  {
    if es != [] {
      assert es[0] in es;
      PutsStay(es[1..], oldest);
      assert es == [es[0]] + es[1..];
    }
  }

  lemma MergeOfOne(es: seq<Entry>, lower: TableMeta, n: nat, oldest: nat)
    requires Puts(es) && es != [] && es[0].key.num < MaxSeq && es[|es| - 1].key.num < MaxSeq
    requires lower == MetaOf(n, 1, es, 0)
    ensures Sources([es]) && Contents([Table(lower, es)]) == Gc(Emission(Union([es]), false), oldest, true)
    ensures Compactions.WellCut([Table(lower, es)], 1, n, _ => false, _ => 0)
  {
    hide Before, Emission, Gc, Coherent, Compactions.WellCut, Union, Sorted;
    UnionOfOne(es);
    CoherentAgrees(Elements(es));
    EmissionIsSortedUnion(Union([es]));
    SortedUnique(Emission(Union([es]), false), es);
    PutsStay(es, oldest);
    OneFile(es, lower, n);
  }

  lemma UnionOfOne(es: seq<Entry>)
    ensures Union([es]) == Elements(es)
  {
    forall e ensures e in Union([es]) <==> e in es {
      if e in es { InUnion([es], 0, e); }
    }
  }

  lemma CoherentAgrees(U: set<Entry>)
    requires Coherent(U)
    ensures Agree(U)
  {
  }

  lemma OneFile(es: seq<Entry>, lower: TableMeta, n: nat)
    requires Encodable(es) && es != [] && es[0].key.num < MaxSeq && es[|es| - 1].key.num < MaxSeq
    requires lower == MetaOf(n, 1, es, 0)
    ensures Contents([Table(lower, es)]) == es && Compactions.WellCut([Table(lower, es)], 1, n, _ => false, _ => 0)
  {
    hide MetaOf;
    assert [Table(lower, es)][..0] == [] && Contents([]) == [];
  }

  lemma RemoveOne(m: TableMeta, cutoff: nat)
    ensures Remove(Version(Levels([m], []), {}, cutoff), m.fileNum) == Version(Levels([], []), {m.fileNum}, cutoff)
  {
    var levels := Levels([m], []);
    assert levels[0] == [m] && levels[0][0].fileNum == m.fileNum;
    assert Holds(levels[0], m.fileNum);
    assert Without([m], m.fileNum) == [];
    assert WithoutIn(levels, m.fileNum) == [[]] + levels[1..];
    assert [[]] + levels[1..] == Levels([], []);
  }

  lemma AddOne(lower: TableMeta, obsolete: set<nat>, cutoff: nat)
    requires lower.level == 1
    ensures Add(Version(Levels([], []), obsolete, cutoff), lower) == Version(Levels([], [lower]), obsolete, cutoff)
  {
    assert [] + [lower] == [lower];
  }

  lemma SwapOne(m: TableMeta, lower: TableMeta, cutoff: nat)
    requires lower.level == 1
    ensures Replay(Version(Levels([m], []), {}, cutoff), CommitEdits([m], [lower])) == Version(Levels([], [lower]), {m.fileNum}, cutoff)
  {
    var v := Version(Levels([m], []), {}, cutoff);
    var remove := RemoveSSTable(m.fileNum);
    assert CommitEdits([m], [lower]) == [] + [remove] + [AddSSTable(lower)];
    assert Replay(v, []) == v;
    hide Replay, Add, Remove, CommitEdits;
    CompactionCommits.OneMore(v, [] + [remove], AddSSTable(lower));
    CompactionCommits.OneMore(v, [], remove);
    RemoveOne(m, cutoff);
    AddOne(lower, {m.fileNum}, cutoff);
  }

  /** The only table of level 0 moves to level 1 under a new number. */
  lemma CompactOne(s: State, es: seq<Entry>, m: TableMeta, lower: TableMeta) returns (t: State)
    requires Calm(s) && s.db.version == Version(Levels([m], []), {}, s.db.version.walCutoff)
    requires Puts(es) && es != [] && es[0].key.num < MaxSeq && es[|es| - 1].key.num < MaxSeq
    requires FileHolds(s.disk.files, m.fileNum, es) && lower == MetaOf(s.db.nextFileNum, 1, es, 0)
    ensures t.Serving? && Calm(t) && t.db.nextSeq == s.db.nextSeq && t.db.nextFileNum == s.db.nextFileNum + 1
    ensures t.db.version == Version(Levels([], [lower]), {m.fileNum}, s.db.version.walCutoff)
    ensures t.disk.files == s.disk.files[s.db.nextFileNum := es]
  {
    hide Reachable, Runs, Enabled, Next, BeginJob, Emission, Gc, Contents, Compactions.WellCut, Sources, Union,
         SourcesOf, CommitEdits, Replay, MetaOf, Puts;
    var job := BeginJob(s, 0);
    MetaKeys(lower, s.db.nextFileNum, es);
    AloneInLevel0(s, m, es, job);
    JobStarts(s, 0, job);
    AllOf([m], []);
    var outputs := [Table(lower, es)];
    MergeOfOne(es, lower, s.db.nextFileNum, job.oldest);
    var edits := CommitEdits([m], [lower]);
    assert Metas(outputs) == [lower];
    var ops := CompactionRuns(s, 0, [es], outputs, _ => false, _ => 0, job, edits);
    t := Serving(s.disk.(log := s.disk.log + edits, files := Filed(s.disk.files, outputs)),
                 s.db.(version := Replay(s.db.version, edits), job := None, nextFileNum := s.db.nextFileNum + 1), s.past);
    ReachesOn(s, ops, t);
    SwapOne(m, lower, s.db.version.walCutoff);
    FiledOne(s.disk.files, lower, es);
  }

  lemma MetaKeys(lower: TableMeta, n: nat, es: seq<Entry>)
    requires es != [] && es[0].key.num < MaxSeq && es[|es| - 1].key.num < MaxSeq && lower == MetaOf(n, 1, es, 0)
    ensures lower.level == 1 && lower.fileNum == n
    ensures lower.smallestKey == InternalKeys.Encode(es[0].key) && lower.largestKey == InternalKeys.Encode(es[|es| - 1].key)
  {
  }

  lemma FiledOne(files: map<nat, seq<Entry>>, lower: TableMeta, es: seq<Entry>)
    ensures Filed(files, [Table(lower, es)]) == files[lower.fileNum := es]
  {
    assert [Table(lower, es)][..0] == [];
    assert Filed(files, []) == files;
  }

  // ------------------------------------------------------------- what comes back

  /** One put of the deleted key lies outside, and nothing else of that key. */
  lemma Resurrected(olds: set<Entry>, put: Entry, del: Entry, oldest: nat)
    requires put in olds && put.key.kind.Value? && del.key.kind.Tombstone? && put.key.user == del.key.user
    requires put.key.num < del.key.num <= oldest && Coherent(olds)
    requires forall e :: e in olds && e.key.user == del.key.user ==> e == put
    ensures Answer({del} + olds, del.key.user, del.key.num) == None
    ensures Answer(Survivors({del}, oldest, true) + olds, del.key.user, del.key.num) == Some(put.value)
    ensures Resurrects({del}, olds, oldest, del.key.user)
  {
    var both, k, r := {del} + olds, del.key.user, del.key.num;
    assert Coherent(both);
    assert Newest(both, k, r, del) && Newest(olds, k, r, put);
    assert Newest(both, k, oldest, del) && Newest(olds, k, oldest, put);
    AnswerIs(both, k, r, del);
    AnswerIs(olds, k, r, put);
    assert Buried({del}, oldest, del);
    assert Survivors({del}, oldest, true) + olds == olds;
  }

  /** Level 0's delete does not meet level 1's puts. */
  lemma NoOverlap(v: Version, upper: TableMeta, lower: TableMeta)
    requires v.levels == Levels([upper], [lower])
    requires upper.smallestKey == upper.largestKey && Compare(lower.largestKey, upper.smallestKey) < 0
    ensures Inputs(v, 0) == Some([upper])
  {
    hide Compare;
    assert [lower][..0] == [];
    assert Overlapping([lower], upper.smallestKey, upper.smallestKey) == [];
    assert [upper] + [] == [upper];
  }

  lemma OtherTable(upper: TableMeta, lower: TableMeta)
    requires upper.fileNum != lower.fileNum
    ensures Outside([upper, lower], [upper]) == [lower]
  {
    assert [upper, lower][..1] == [upper] && [upper][..0] == [];
    assert Outside([upper], [upper]) == [] && lower !in [upper];
  }

  lemma OneEach(olds: seq<Entry>, del: Entry, upper: TableMeta, lower: TableMeta, files: map<nat, seq<Entry>>)
    requires FileHolds(files, upper.fileNum, [del]) && FileHolds(files, lower.fileNum, olds)
    ensures TableEntries([upper, lower], files) == {del} + Elements(olds) && MemEntries([], []) == {}
    ensures TableEntries([upper], files) == {del} && TableEntries([lower], files) == Elements(olds)
  {
    OneTable(upper, files);
    OneTable(lower, files);
    JoinedTables([upper, lower], [upper], [lower], files);
    assert Elements([del]) == {del};
  }

  lemma LeftOut(s: State, upper: TableMeta, lower: TableMeta, olds: seq<Entry>, del: Entry, job: Job)
    requires Calm(s) && s.db.version.levels == Levels([upper], [lower]) && upper.fileNum != lower.fileNum
    requires upper.smallestKey == upper.largestKey && Compare(lower.largestKey, upper.smallestKey) < 0
    requires FileHolds(s.disk.files, upper.fileNum, [del]) && FileHolds(s.disk.files, lower.fileNum, olds)
    requires job == BeginJob(s, 0)
    ensures InputEntries(job, s.disk.files) == {del} && job.others == Elements(olds) && job.bottom && job.oldest == s.db.nextSeq
    ensures LiveEntries(s) == {del} + Elements(olds) && Inputs(s.db.version, 0) == Some([upper])
  {
    hide Reachable, Runs, Compare, Floor, Inputs, Outside, TableEntries, MemEntries, FileHolds, All, Levels, Bottom;
    NoOverlap(s.db.version, upper, lower);
    AllOf([upper], [lower]);
    assert [upper] + [lower] == [upper, lower];
    OtherTable(upper, lower);
    OneEach(olds, del, upper, lower, s.disk.files);
  }

  lemma Started()
    ensures Calm(Initial)
  {
    assert Runs(Initial, [], Initial);
  }

  lemma FlushedNumber(m: TableMeta, n: nat, es: seq<Entry>)
    requires es != [] && es[0].key.num < MaxSeq && es[|es| - 1].key.num < MaxSeq && m == Flushes.FlushMeta(n, es, 0)
    ensures m.fileNum == n && m.level == 0
    ensures m.smallestKey == InternalKeys.Encode(es[0].key) && m.largestKey == InternalKeys.Encode(es[|es| - 1].key)
  {
  }

  lemma DeleteWrites(s: State, k: bytes, del: Entry)
    requires s.Serving? && k != [] && s.db.nextSeq + 1 < MaxSeq && del == Entry(InternalKey(k, s.db.nextSeq, Tombstone), [])
    ensures Writes(s, [LogicalRecord(k, [], TypeDelete)], [del])
  {
    var b := NewBatch(s.db, [LogicalRecord(k, [], TypeDelete)]);
    assert WithRecords([], b, 0) == WithRecords(InsertSorted([], EntryOf(b, 0)), b, 1);
    assert WithRecords([EntryOf(b, 0)], b, 1) == [EntryOf(b, 0)];
  }

  /** Puts are written, flushed and compacted into level 1. */
  lemma PutAndCompact(records: seq<LogicalRecord>, olds: seq<Entry>) returns (s: State, lower: TableMeta)
    requires Writes(Initial, records, olds) && Puts(olds)
    ensures s.Serving? && Calm(s) && s.db.version.levels == Levels([], [lower])
    ensures s.db.nextSeq == |records| + 1 && s.db.nextFileNum == 3
    ensures olds != [] && olds[0].key.num < MaxSeq && olds[|olds| - 1].key.num < MaxSeq && lower.fileNum == 2
    ensures lower.smallestKey == InternalKeys.Encode(olds[0].key)
    ensures lower.largestKey == InternalKeys.Encode(olds[|olds| - 1].key)
    ensures FileHolds(s.disk.files, 2, olds)
  {
    hide Calm, Flushes.FlushMeta, MetaOf, InternalKeys.Encode, Puts;
    Started();
    assert olds != [] && olds[0].key.num < MaxSeq && olds[|olds| - 1].key.num < MaxSeq;
    hide Writes;
    var m := Flushes.FlushMeta(1, olds, 0);
    FlushedNumber(m, 1, olds);
    var s1 := WriteAndFlush(Initial, records, olds, m);
    assert [] + [m] == [m];
    lower := MetaOf(2, 1, olds, 0);
    MetaKeys(lower, 2, olds);
    s := CompactOne(s1, olds, m, lower);
  }

  /** And then one key is deleted and the delete flushed. */
  lemma PutCompactDelete(records: seq<LogicalRecord>, olds: seq<Entry>, k: bytes, del: Entry)
    returns (s: State, upper: TableMeta, lower: TableMeta)
    requires Writes(Initial, records, olds) && Puts(olds) && k != [] && |records| + 2 < MaxSeq
    requires del == Entry(InternalKey(k, |records| + 1, Tombstone), [])
    ensures s.Serving? && Calm(s) && s.db.version.levels == Levels([upper], [lower]) && s.db.nextSeq == |records| + 2
    ensures olds != [] && olds[0].key.num < MaxSeq && olds[|olds| - 1].key.num < MaxSeq
    ensures lower.smallestKey == InternalKeys.Encode(olds[0].key)
    ensures lower.largestKey == InternalKeys.Encode(olds[|olds| - 1].key)
    ensures upper.smallestKey == InternalKeys.Encode(del.key) && upper.largestKey == InternalKeys.Encode(del.key)
    ensures upper.fileNum == 3 && lower.fileNum == 2
    ensures FileHolds(s.disk.files, 3, [del]) && FileHolds(s.disk.files, 2, olds)
  {
    hide Calm, Flushes.FlushMeta, InternalKeys.Encode, Puts;
    var s2;
    s2, lower := PutAndCompact(records, olds);
    hide Writes;
    DeleteWrites(s2, k, del);
    upper := Flushes.FlushMeta(3, [del], 0);
    FlushedNumber(upper, 3, [del]);
    s := WriteAndFlush(s2, [LogicalRecord(k, [], TypeDelete)], [del], upper);
    assert [] + [upper] == [upper];
  }

  /** Compacting level 0 of this state brings key k back: absent before, the put of
      value v after, and not a step of the engine. */
  ghost predicate BringsBack(s: State, k: bytes, v: bytes) {
    && s.Serving? && Reachable(s) && s.db.job.None? && s.db.flush.Idle? && |s.db.version.levels| == NumLevels
    && Answer(LiveEntries(s), k, Latest(s.db)) == None
    && var job := BeginJob(s, 0);
    && job.bottom
    && Answer(Survivors(InputEntries(job, s.disk.files), job.oldest, job.bottom) + job.others, k, Latest(s.db)) == Some(v)
    && !Enabled(s, CompactBegin(0))
  }

  lemma ComesBack(s: State, upper: TableMeta, lower: TableMeta, olds: seq<Entry>, put: Entry, del: Entry)
    requires Calm(s) && s.db.version.levels == Levels([upper], [lower]) && upper.fileNum != lower.fileNum
    requires upper.smallestKey == upper.largestKey && Compare(lower.largestKey, upper.smallestKey) < 0
    requires FileHolds(s.disk.files, upper.fileNum, [del]) && FileHolds(s.disk.files, lower.fileNum, olds)
    requires put in olds && put.key.kind.Value? && del.key.kind.Tombstone? && put.key.user == del.key.user
    requires put.key.num < del.key.num && s.db.nextSeq == del.key.num + 1 && Coherent(Elements(olds))
    requires forall e :: e in olds && e.key.user == del.key.user ==> e == put
    ensures BringsBack(s, del.key.user, put.value) && Inputs(s.db.version, 0) == Some([upper])
  {
    hide Reachable, Compare, Resurrects, Answer, Survivors, Snapshots.OldestOf;
    LeftOut(s, upper, lower, olds, del, BeginJob(s, 0));
    Resurrected(Elements(olds), put, del, del.key.num + 1);
  }

  /** Overlap is judged on encoded keys as plain bytes, where the trailer decides
      between keys of one user key. On a run that puts a key, flushes and compacts
      it, deletes the key and flushes again, compacting level 0 leaves the put out
      and drops the delete: the key reads as absent before and as present after, and
      the engine's step is not enabled. */
  lemma OverlapMissesOlderVersion(v: bytes) returns (s: State)
    ensures BringsBack(s, [97], v)
    ensures Inputs(s.db.version, 0).value == s.db.version.levels[0] != []
  {
    hide Reachable, Compare, BringsBack, Calm, InternalKeys.Encode;
    var put, del := Entry(InternalKey([97], 1, Value), v), Entry(InternalKey([97], 2, Tombstone), []);
    var upper, lower;
    PutWrites(v);
    s, upper, lower := PutCompactDelete([LogicalRecord([97], v, TypePut)], [put], [97], del);
    RawOrderDisagrees([97]);
    ComesBack(s, upper, lower, [put], put, del);
  }

  lemma PutWrites(v: bytes)
    ensures Writes(Initial, [LogicalRecord([97], v, TypePut)], [Entry(InternalKey([97], 1, Value), v)])
  {
    var b := NewBatch(Initial.db, [LogicalRecord([97], v, TypePut)]);
    assert WithRecords([], b, 0) == WithRecords(InsertSorted([], EntryOf(b, 0)), b, 1);
    assert WithRecords([EntryOf(b, 0)], b, 1) == [EntryOf(b, 0)];
  }

  /** Not even a table whose user keys reach past the picked range on both sides is
      sure to be taken: with a user key that extends the deleted one by a zero byte
      as its last, level 1's table lies byte by byte before the delete. */
  lemma EnclosingTableLeftOut(v: bytes) returns (s: State, lo: bytes, t: TableMeta)
    ensures BringsBack(s, [97], v)
    ensures s.db.version.levels[0] != [] && LeastKey(s.db.version.levels[0], lo) && GreatestKey(s.db.version.levels[0], lo)
    ensures t in s.db.version.levels[1] && Encloses(t, lo, lo)
    ensures Inputs(s.db.version, 0).Some? && t !in Inputs(s.db.version, 0).value
  {
    hide Reachable, Compare, BringsBack, Calm, InternalKeys.Encode, Encloses, CompareKeys;
    var records := ThreeRecords(v);
    var olds := ThreePuts(v);
    var del := Entry(InternalKey([97], 4, Tombstone), []);
    var upper;
    ThreeWrites(v);
    ThreeArePuts(v);
    s, upper, t := PutCompactDelete(records, olds, [97], del);
    lo := InternalKeys.Encode(del.key);
    Extending();
    ComesBack(s, upper, t, olds, olds[1], del);
    ComparatorFlips(lo, lo);
    assert s.db.version.levels[0] == [upper];
    EncloseThree(t, lo);
  }

  function ThreeRecords(v: bytes): seq<LogicalRecord> {
    [LogicalRecord([65], v, TypePut), LogicalRecord([97], v, TypePut), LogicalRecord([97, 0], v, TypePut)]
  }

  function ThreePuts(v: bytes): seq<Entry> {
    [Entry(InternalKey([65], 1, Value), v), Entry(InternalKey([97], 2, Value), v), Entry(InternalKey([97, 0], 3, Value), v)]
  }

  lemma ThreeWrites(v: bytes)
    ensures Writes(Initial, ThreeRecords(v), ThreePuts(v))
  {
    var b := NewBatch(Initial.db, ThreeRecords(v));
    var es := ThreePuts(v);
    assert Compare([65], [97]) < 0 && Compare([65], [97, 0]) < 0 && Compare([97], [97, 0]) < 0;
    assert EntryOf(b, 0) == es[0] && EntryOf(b, 1) == es[1] && EntryOf(b, 2) == es[2];
    assert WithRecords([], b, 0) == WithRecords([es[0]], b, 1);
    assert InsertSorted([es[0]], es[1]) == [es[0], es[1]];
    assert InsertSorted([es[1]], es[2]) == [es[1], es[2]];
    assert [es[0], es[1]][1..] == [es[1]] && InsertSorted([es[0], es[1]], es[2]) == [es[0]] + [es[1], es[2]];
    assert es == [es[0]] + [es[1], es[2]];
    assert WithRecords([es[0], es[1]], b, 2) == WithRecords(es, b, 3);
  }

  lemma ThreeArePuts(v: bytes)
    ensures Puts(ThreePuts(v)) && Coherent(Elements(ThreePuts(v)))
  {
    assert Compare([65], [97]) < 0 && Compare([65], [97, 0]) < 0 && Compare([97], [97, 0]) < 0;
  }

  lemma Extending()
    ensures Compare(InternalKeys.Encode(InternalKey([97, 0], 3, Value)),
                    InternalKeys.Encode(InternalKey([97], 4, Tombstone))) < 0
  {
    var a, b := [0] + PutU64(3 * 256 + 1), PutU64(4 * 256 + 2);
    assert [97, 0] + PutU64(3 * 256 + 1) == [97] + a;
    CompareAfterPrefix([97], a, b);
    assert b[0] == 2;
  }

  lemma EncloseThree(t: TableMeta, lo: bytes)
    requires t.smallestKey == InternalKeys.Encode(InternalKey([65], 1, Value))
    requires t.largestKey == InternalKeys.Encode(InternalKey([97, 0], 3, Value))
    requires lo == InternalKeys.Encode(InternalKey([97], 4, Tombstone))
    ensures Encloses(t, lo, lo)
  {
    EncodeThenExtract(InternalKey([65], 1, Value));
    EncodeThenExtract(InternalKey([97, 0], 3, Value));
    EncodeThenExtract(InternalKey([97], 4, Tombstone));
    assert Compare([97], [97, 0]) < 0;
  }
}
