/** What recovery keeps in memory and what it pages out. */
module RecoveryPages {
  import opened Bytes
  import opened InternalKeys
  import opened Versions
  import opened VersionSets
  import opened Reads
  import opened Skiplists
  import opened TableMetas
  import opened WalRecords
  import opened WalLogs
  import opened Histories
  import opened Recoveries
  import opened Engine
  import opened EngineInvariant
  import opened EngineRecovery
  import opened EngineRuns
  import opened CrashRecovery

  // ------------------------------------------------------------------- sizes

  /** The encoded keys, the values and sixteen bytes for each entry. */
  function MemSize(mem: seq<Entry>): nat {
    if mem == [] then 0 else |mem[0].key.user| + 8 + |mem[0].value| + 16 + MemSize(mem[1..])
  }

  lemma {:induction false} InsertedSize(mem: seq<Entry>, e: Entry)
    requires forall x :: x in mem ==> x.key != e.key
    ensures MemSize(InsertSorted(mem, e)) == MemSize(mem) + |e.key.user| + 8 + |e.value| + 16
  {
    hide Before;
    if mem != [] {
      assert mem[0] in mem;
      InsertedSize(mem[1..], e);
      assert ([e] + mem)[1..] == mem;
      assert ([mem[0]] + InsertSorted(mem[1..], e))[1..] == InsertSorted(mem[1..], e);
    }
  }

  lemma {:induction false} RecordsSize(mem: seq<Entry>, b: Batch, i: nat)
    requires Known(b) && i <= |b.records| && forall e :: e in mem ==> e.key.num < b.seqStart + i
    ensures MemSize(WithRecords(mem, b, i)) == MemSize(mem) + BatchSize(b.records) - BatchSize(b.records[..i])
    decreases |b.records| - i
  {
    hide InsertSorted;
    if i < |b.records| {
      var n := EntryOf(b, i);
      InsertedSize(mem, n);
      InsertedAmong(mem, n);
      RecordsSize(InsertSorted(mem, n), b, i + 1);
      assert b.records[..i + 1][..i] == b.records[..i];
    } else {
      assert b.records[..i] == b.records;
    }
  }

  // ---------------------------------------------------------------- one batch

  /** The estimate is the size of what is in memory, and is within the limit unless
      nothing is. */
  ghost predicate Within(rec: Rec, limit: int) {
    rec.size == MemSize(rec.mem) && (rec.mem == [] || MemSize(rec.mem) <= limit)
  }

  /** One level-0 table, under the next number, of exactly these entries has joined
      the version, the manifest and the files, and the memory is empty. */
  ghost predicate PagedOut(rec: Rec, full: seq<Entry>, r: Rec) {
    && |rec.version.levels| == NumLevels && r.mem == [] && r.maxFileNum == rec.maxFileNum + 1
    && exists m: TableMeta :: m.fileNum == rec.maxFileNum + 1 && m.level == 0 && Describes(m, full) && Paged(rec, full, r, m)
  }

  ghost predicate Paged(rec: Rec, full: seq<Entry>, r: Rec, m: TableMeta)
    requires |rec.version.levels| == NumLevels
  {
    && r.version == rec.version.(levels := [rec.version.levels[0] + [m]] + rec.version.levels[1..])
    && r.log == rec.log + [AddSSTable(m)] && r.files == rec.files[m.fileNum := full]
  }

  /** What recovering one batch does: nothing when the cutoff covers it; or it joins
      what is in memory, which stays there exactly when it is within the limit. */
  ghost predicate Pages(rec: Rec, b: Batch, limit: int, r: Rec) {
    if (b.seqStart + |b.records| - 1) % 0x1_0000_0000_0000_0000 <= rec.version.walCutoff then r == rec
    else
      Known(b)
      && var full := WithBatch(rec.mem, b);
      if MemSize(full) > limit then PagedOut(rec, full, r)
      else r.mem == full && r.version == rec.version && r.log == rec.log && r.files == rec.files && r.maxFileNum == rec.maxFileNum
  }

  lemma PageIs(rec: Rec, sizeOf: Sizer)
    requires Encodable(rec.mem) && |rec.version.levels| == NumLevels
    ensures PagedOut(rec, rec.mem, Page(rec, sizeOf))
  {
    var n := rec.maxFileNum + 1;
    MetaDescribes(n, 0, rec.mem, sizeOf(rec.mem));
    var m := MetaOf(n, 0, rec.mem, sizeOf(rec.mem));
    var levels := rec.version.levels;
    assert levels[0 := levels[0] + [m]] == [levels[0] + [m]] + levels[1..];
    assert Paged(rec, rec.mem, Page(rec, sizeOf), m);
  }

  lemma BatchPages(rec: Rec, b: Batch, limit: int, sizeOf: Sizer)
    requires Storable(b) && Encodable(rec.mem) && |rec.version.levels| == NumLevels
    requires Within(rec, limit) && forall e :: e in rec.mem ==> e.key.num < b.seqStart
    ensures var r := RecoverBatch(rec, b, limit, sizeOf); Within(r, limit) && Pages(rec, b, limit, r)
  {
    hide Encodable, Known, Page, MemSize, BatchSize, WithRecords;
    assert MaxUint64 + 1 == 0x1_0000_0000_0000_0000;
    if BatchMax(b) > rec.version.walCutoff {
      RecordsSize(rec.mem, b, 0);
      NoRecords(b);
      hide WithBatch;
      WithBatchEncodable(rec.mem, b);
      var full := InsertBatch(rec, b);
      if full.size > limit {
        PageIs(full, sizeOf);
        PageEmpties(full, sizeOf);
        SamePage(rec, full, Page(full, sizeOf));
      }
    }
  }

  lemma NoRecords(b: Batch)
    ensures BatchSize(b.records[..0]) == 0
  {
  }

  lemma WithBatchEncodable(mem: seq<Entry>, b: Batch)
    requires Storable(b) && Encodable(mem)
    ensures Encodable(WithBatch(mem, b))
  {
    WithBatchAmong(mem, b);
  }

  lemma PageEmpties(rec: Rec, sizeOf: Sizer)
    requires Encodable(rec.mem) && |rec.version.levels| == NumLevels
    ensures var r := Page(rec, sizeOf); r.mem == [] && r.size == 0 && MemSize(r.mem) == 0
  {
  }

  lemma SamePage(rec: Rec, full: Rec, r: Rec)
    requires PagedOut(full, full.mem, r)
    requires full.version == rec.version && full.log == rec.log && full.files == rec.files && full.maxFileNum == rec.maxFileNum
    ensures PagedOut(rec, full.mem, r)
  {
    hide Describes;
    var m: TableMeta :| m.fileNum == full.maxFileNum + 1 && m.level == 0 && Describes(m, full.mem) && Paged(full, full.mem, r, m);
    assert Paged(rec, full.mem, r, m);
  }

  // ------------------------------------------------------------- all of the log

  /** What is in memory was written before the batch to come. */
  lemma MemBefore(wal: seq<seq<Batch>>, rec: Rec, todo: seq<Batch>, read: nat, begin: nat, p: Past)
    requires todo != [] && RecoveringOk(wal, rec, todo, read, begin, p)
    ensures forall e :: e in rec.mem ==> e.key.num < todo[0].seqStart
    ensures Storable(todo[0]) && Encodable(rec.mem) && |rec.version.levels| == NumLevels
  {
    hide VersionOk, ManifestOk, WalOk, Replay, Faithful, TableEntries, MaxNum, Count;
    var h := p.history;
    assert todo[0] == h[read];
    assert Storable(h[read]);
    assert |rec.version.levels| == NumLevels;
    WrittenRange(h, begin, Max(read, begin));
    if begin <= read { assert todo[0].seqStart == 1 + Count(h[..read]); }
    forall e | e in rec.mem ensures e.key.num < todo[0].seqStart && e.key.num < MaxSeq {
      assert e in Elements(rec.mem);
    }
  }

  lemma {:induction false} Along(wal: seq<seq<Batch>>, rec: Rec, todo: seq<Batch>, read: nat, begin: nat, p: Past,
                                 limit: int, sizeOf: Sizer, j: nat)
    requires AllStorable(todo) && Encodable(rec.mem) && |rec.version.levels| == NumLevels
    requires RecoveringOk(wal, rec, todo, read, begin, p) && Within(rec, limit) && j < |todo|
    ensures AllStorable(todo[..j]) && AllStorable(todo[..j + 1])
    ensures var at := RecoverAll(rec, todo[..j], limit, sizeOf);
            var next := RecoverAll(rec, todo[..j + 1], limit, sizeOf);
            Within(at, limit) && Within(next, limit) && Pages(at, todo[j], limit, next)
    decreases j
  {
    hide RecoveringOk, RecoverBatch, Encodable, Storable, Within, Pages;
    MemBefore(wal, rec, todo, read, begin, p);
    BatchPages(rec, todo[0], limit, sizeOf);
    RecoverNextKeeps(wal, rec, todo, read, begin, p, limit, sizeOf);
    var r := RecoverBatch(rec, todo[0], limit, sizeOf);
    assert todo[..j + 1][1..] == todo[1..][..j];
    if j == 0 {
      assert RecoverAll(rec, todo[..1], limit, sizeOf) == r;
    } else {
      assert todo[..j][1..] == todo[1..][..j - 1];
      Along(wal, r, todo[1..], read + 1, if r.maxFileNum != rec.maxFileNum then read + 1 else begin, p, limit, sizeOf, j - 1);
    }
  }

  /** Recovery from any crash, batch by batch: after each the memory is empty or
      within the limit, and the batch was skipped, kept in memory or paged out with
      everything there, as its number and the limit say. */
  lemma RecoveryKeepsLimit(s: State, junk: map<nat, seq<Entry>>, limit: int, sizeOf: Sizer, j: nat)
    requires Reachable(s) && Enabled(s, Crash(junk)) && j < |Concat(WalOf(s))|
    ensures AllStorable(Concat(WalOf(s))[..j]) && AllStorable(Concat(WalOf(s))[..j + 1])
    ensures var start, todo := Start(LogOf(s), FilesOf(s) + junk), Concat(WalOf(s));
            var at := RecoverAll(start, todo[..j], limit, sizeOf);
            var next := RecoverAll(start, todo[..j + 1], limit, sizeOf);
            Within(at, limit) && Within(next, limit) && Pages(at, todo[j], limit, next)
  {
    hide Reachable, Inv, RecoveringOk, RecoverAll, Start, Enabled, Next, Within, Pages, Storable, Encodable;
    ReachableOk(s);
    LogStorable(s);
    CrashOk(s, junk);
    var c := Next(s, Crash(junk));
    Crashed(s, junk, c);
    StartsEmpty(LogOf(s), FilesOf(s) + junk, limit);
    Along(c.wal, c.rec, c.todo, c.read, c.begin, c.past, limit, sizeOf, j);
  }

  lemma StartsEmpty(log: seq<Edit>, files: map<nat, seq<Entry>>, limit: int)
    ensures Within(Start(log, files), limit)
  {
  }

  lemma RecoveredWithin(s: State, junk: map<nat, seq<Entry>>, limit: int, sizeOf: Sizer)
    requires Reachable(s) && Enabled(s, Crash(junk))
    ensures AllStorable(Concat(WalOf(s)))
    ensures Within(RecoverAll(Start(LogOf(s), FilesOf(s) + junk), Concat(WalOf(s)), limit, sizeOf), limit)
  {
    hide Reachable, Inv, Start, Enabled, Within, Storable, Pages;
    ReachableOk(s);
    LogStorable(s);
    var todo := Concat(WalOf(s));
    if todo == [] {
      StartsEmpty(LogOf(s), FilesOf(s) + junk, limit);
    } else {
      RecoveryKeepsLimit(s, junk, limit, sizeOf, |todo| - 1);
      assert todo[..|todo| - 1 + 1] == todo;
    }
  }
}
