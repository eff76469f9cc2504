/** Committing a compaction to the manifest and the live version. */
module CompactionCommits {
  import opened InternalKeys
  import opened Versions
  import opened VersionSets
  import opened Merging
  import opened Reads
  import opened Compactions

  function RemoveAll(ts: seq<TableMeta>): seq<Edit> {
    seq(|ts|, i requires 0 <= i < |ts| => RemoveSSTable(ts[i].fileNum))
  }

  /** Every input removed, then every output added. */
  function CommitEdits(inputs: seq<TableMeta>, outputs: seq<TableMeta>): seq<Edit> {
    RemoveAll(inputs) + AddAll(outputs)
  }

  ghost function Nums(ts: seq<TableMeta>): set<nat> { set t | t in ts :: t.fileNum }

  ghost predicate Healthy(v: Version) { WellFormed(v) && Distinct(All(v.levels)) }

  lemma {:induction false} RemovesReplay(v: Version, ts: seq<TableMeta>)
    requires Healthy(v)
    ensures var w := Replay(v, RemoveAll(ts));
            && Healthy(w) && w.walCutoff == v.walCutoff && w.obsolete == v.obsolete + Nums(ts)
            && forall t :: t in All(w.levels) <==> t in All(v.levels) && t.fileNum !in Nums(ts)
    decreases |ts|
  {
    if ts != [] {
      hide WellFormed, Distinct, Remove;
      var front, last := ts[..|ts| - 1], ts[|ts| - 1];
      assert RemoveAll(ts)[..|ts| - 1] == RemoveAll(front);
      RemovesReplay(v, front);
      RemoveTables(Replay(v, RemoveAll(front)), last.fileNum);
      NumsAppend(front, last);
      assert ts == front + [last];
      RemoveKeeps(Replay(v, RemoveAll(front)), last.fileNum);
    }
  }

  lemma RemoveKeeps(v: Version, n: nat)
    ensures Remove(v, n).walCutoff == v.walCutoff && Remove(v, n).obsolete == v.obsolete + {n}
  {
  }

  lemma NumsAppend(ts: seq<TableMeta>, t: TableMeta)
    ensures Nums(ts + [t]) == Nums(ts) + {t.fileNum}
  {
    assert forall x :: x in ts + [t] <==> x in ts || x == t;
  }

  /** New numbers, none of them live, and levels that exist. */
  ghost predicate Addable(v: Version, ts: seq<TableMeta>) {
    && Distinct(ts)
    && forall t :: t in ts ==> t.level < NumLevels && forall u :: u in All(v.levels) ==> u.fileNum != t.fileNum
  }

  lemma AddableFront(v: Version, ts: seq<TableMeta>)
    requires Addable(v, ts) && ts != []
    ensures var front, last := ts[..|ts| - 1], ts[|ts| - 1];
            && Addable(v, front) && last.level < NumLevels && ts == front + [last]
            && forall t :: t in All(v.levels) || t in front ==> t.fileNum != last.fileNum
  {
    var front, last := ts[..|ts| - 1], ts[|ts| - 1];
    assert ts == front + [last];
    assert last in ts && forall x :: x in front ==> x in ts;
    forall t | t in front ensures t.fileNum != last.fileNum {
      var i :| 0 <= i < |front| && front[i] == t;
      assert ts[i] == t;
    }
  }

  lemma AddAllStep(v: Version, ts: seq<TableMeta>)
    requires |v.levels| == NumLevels && ts != []
    ensures Replay(v, AddAll(ts)) == Add(Replay(v, AddAll(ts[..|ts| - 1])), ts[|ts| - 1])
  {
    hide Add;
    assert AddAll(ts)[..|ts| - 1] == AddAll(ts[..|ts| - 1]);
  }

  lemma {:induction false} AddsReplay(v: Version, ts: seq<TableMeta>)
    requires Healthy(v) && Addable(v, ts)
    ensures var w := Replay(v, AddAll(ts));
            && Healthy(w) && w.walCutoff == v.walCutoff && w.obsolete == v.obsolete
            && forall t :: t in All(w.levels) <==> t in All(v.levels) || t in ts
    decreases |ts|
  {
    if ts != [] {
      AddableFront(v, ts);
      AddAllStep(v, ts);
      hide OrderedBySmallest, Distinct, Addable, Add, Replay, AddAll, All;
      var front, last := ts[..|ts| - 1], ts[|ts| - 1];
      AddsReplay(v, front);
      var w := Replay(v, AddAll(front));
      AddTables(w, last);
      AddKeeps(w, last);
    }
  }

  lemma AddKeeps(v: Version, m: TableMeta)
    requires |v.levels| == NumLevels
    ensures Add(v, m).walCutoff == v.walCutoff && Add(v, m).obsolete == v.obsolete
  {
  }

  /** What a commit does to the live tables: the inputs leave and become
      obsolete, the outputs join, nothing else moves. */
  lemma CommitFacts(v: Version, inputs: seq<TableMeta>, outputs: seq<TableMeta>)
    requires Healthy(v) && Addable(v, outputs)
    ensures var w := Replay(v, CommitEdits(inputs, outputs));
            && Healthy(w) && w.walCutoff == v.walCutoff && w.obsolete == v.obsolete + Nums(inputs)
            && forall t :: t in All(w.levels) <==> (t in All(v.levels) && t.fileNum !in Nums(inputs)) || t in outputs
  {
    hide Distinct, Replay;
    ReplayAppend(v, RemoveAll(inputs), AddAll(outputs));
    RemovesReplay(v, inputs);
    AddsReplay(Replay(v, RemoveAll(inputs)), outputs);
  }

  /** Logs and applies one edit at a time. */
  method Commit(vs: VersionSet, log: seq<Edit>, inputs: seq<TableMeta>, outputs: seq<TableMeta>)
    returns (logged: seq<Edit>)
    requires vs.Valid()
    modifies vs`obsolete, vs.levels
    ensures vs.Valid() && logged == log + CommitEdits(inputs, outputs)
    ensures vs.Abs() == Replay(old(vs.Abs()), CommitEdits(inputs, outputs))
  {
    hide WellFormed, Add, Remove;
    ghost var v := vs.Abs();
    logged := log;
    ghost var done := [];
    for i := 0 to |inputs|
      invariant vs.Valid() && logged == log + done && done == RemoveAll(inputs)[..i] && vs.Abs() == Replay(v, done)
    {
      assert RemoveAll(inputs)[..i + 1] == done + [RemoveSSTable(inputs[i].fileNum)];
      logged := logged + [RemoveSSTable(inputs[i].fileNum)];
      OneMore(v, done, RemoveSSTable(inputs[i].fileNum));
      vs.RemoveTable(inputs[i].fileNum);
      done := done + [RemoveSSTable(inputs[i].fileNum)];
    }
    assert done == RemoveAll(inputs);
    for i := 0 to |outputs|
      invariant vs.Valid() && logged == log + done && done == RemoveAll(inputs) + AddAll(outputs)[..i] && vs.Abs() == Replay(v, done)
    {
      assert AddAll(outputs)[..i + 1] == AddAll(outputs)[..i] + [AddSSTable(outputs[i])];
      logged := logged + [AddSSTable(outputs[i])];
      OneMore(v, done, AddSSTable(outputs[i]));
      var _ := vs.AddTable(outputs[i]);
      done := done + [AddSSTable(outputs[i])];
    }
    assert done == CommitEdits(inputs, outputs);
  }

  lemma OneMore(v: Version, done: seq<Edit>, e: Edit)
    requires |v.levels| == NumLevels
    ensures Replay(v, done + [e]) == Apply(Replay(v, done), e)
  {
    assert (done + [e])[..|done|] == done;
  }

  // ------------------------------------------------------- merged and split up

  /** The outputs together hold exactly what survives of the inputs. */
  lemma OutputsHoldSurvivors(inputs: seq<seq<Entry>>, oldest: nat, bottom: bool, outputs: seq<Table>)
    requires Sources(inputs)
    requires Contents(outputs) == Gc(Emission(Union(inputs), false), oldest, bottom)
    ensures forall e :: (exists i :: 0 <= i < |outputs| && e in outputs[i].entries) <==> e in Survivors(Union(inputs), oldest, bottom)
    ensures forall i :: 0 <= i < |outputs| ==> Sorted(outputs[i].entries)
  {
    hide Gc, Emission, Survivors;
    var all := Emission(Union(inputs), false);
    EmissionIsSortedUnion(Union(inputs));
    GcKeepsSurvivors(all, oldest, bottom);
    ContentsSplit(outputs);
    var s := Contents(outputs);
    forall e
      ensures (exists i :: 0 <= i < |outputs| && e in outputs[i].entries) <==> e in Survivors(Union(inputs), oldest, bottom)
    {
      assert e in Elements(s) <==> e in s;
    }
  }

  lemma {:induction false} ContentsSplit(outputs: seq<Table>)
    ensures forall e :: e in Contents(outputs) <==> exists i :: 0 <= i < |outputs| && e in outputs[i].entries
    ensures Sorted(Contents(outputs)) ==> forall i :: 0 <= i < |outputs| ==> Sorted(outputs[i].entries)
    decreases |outputs|
  {
    if outputs != [] {
      var front, last := outputs[..|outputs| - 1], outputs[|outputs| - 1];
      ContentsSplit(front);
      var c := Contents(front);
      forall e ensures e in Contents(outputs) <==> exists i :: 0 <= i < |outputs| && e in outputs[i].entries {
        assert e in c + last.entries <==> e in c || e in last.entries;
        if e in c { var i :| 0 <= i < |front| && e in front[i].entries; assert outputs[i] == front[i]; }
        if i :| 0 <= i < |outputs| && e in outputs[i].entries { if i < |front| { assert front[i] == outputs[i]; } }
      }
      if Sorted(Contents(outputs)) {
        SortedParts(c, last.entries);
        forall i | 0 <= i < |outputs| ensures Sorted(outputs[i].entries) { if i < |front| { assert outputs[i] == front[i]; } }
      }
    }
  }

  lemma SortedParts(a: seq<Entry>, b: seq<Entry>)
    requires Sorted(a + b)
    ensures Sorted(a) && Sorted(b)
  {
    forall i, j | 0 <= i < j < |a| ensures Before(a[i].key, a[j].key) { assert (a + b)[i] == a[i] && (a + b)[j] == a[j]; }
    forall i, j | 0 <= i < j < |b| ensures Before(b[i].key, b[j].key) {
      assert (a + b)[|a| + i] == b[i] && (a + b)[|a| + j] == b[j];
    }
  }

  lemma EmptyIsHealthy()
    ensures Healthy(EmptyVersion)
  {
    NoTables(EmptyVersion.levels);
  }

  lemma {:induction false} NoTables(levels: seq<seq<TableMeta>>)
    requires forall l :: 0 <= l < |levels| ==> levels[l] == []
    ensures All(levels) == []
  {
    if levels != [] { NoTables(levels[1..]); }
  }
}
