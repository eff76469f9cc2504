/** Point reads, full scans and clipped scans over one fixed set of sources. */
module Reads {
  import opened Bytes
  import opened InternalKeys
  import opened Versions
  import opened Merging
  import opened VersionSets

  // ----------------------------------------------- the sources a reader opens

  datatype Table = Table(meta: TableMeta, entries: seq<Entry>)

  /** The recorded bounds of a table: its first and last encoded keys. */
  ghost predicate Describes(m: TableMeta, s: seq<Entry>) {
    && (forall e :: e in s ==> e.key.num < MaxSeq)
    && (s == [] ==> m.smallestKey == [] && m.largestKey == [])
    && (s != [] ==> m.smallestKey == Encode(s[0].key) && m.largestKey == Encode(s[|s| - 1].key))
  }

  function Filtered(s: seq<Entry>, snapshot: Option<nat>): seq<Entry> {
    if snapshot.Some? then VisibleAt(s, snapshot.value) else s
  }

  ghost predicate Seen(e: Entry, snapshot: Option<nat>) { snapshot.Some? ==> e.key.num <= snapshot.value }

  lemma FilteredFacts(s: seq<Entry>, snapshot: Option<nat>)
    ensures forall e :: e in Filtered(s, snapshot) <==> e in s && Seen(e, snapshot)
    ensures Sorted(s) ==> Sorted(Filtered(s, snapshot))
  {
    if snapshot.Some? {
      forall e ensures e in VisibleAt(s, snapshot.value) <==> e in s && Seen(e, snapshot) {
        VisibleAtMembers(s, snapshot.value, e);
      }
      if Sorted(s) { VisibleAtSorted(s, snapshot.value); }
    }
  }

  /** Every source sorted, and all agreeing on what a sequence number wrote. */
  ghost predicate Sources(all: seq<seq<Entry>>) {
    && (forall s :: s in all ==> Sorted(s))
    && Coherent(Union(all))
  }

  lemma SourcesAreChildren(all: seq<seq<Entry>>)
    requires Sources(all)
    ensures Children(all)
  {
    forall i | 0 <= i < |all| ensures Sorted(all[i]) { assert all[i] in all; }
  }

  // ----------------------------------------------------------- the point read

  /** The user key range of a table covers all its entries, so a table skipped
      for k holds no version of k. */
  lemma RangeCheckSound(t: Table, k: bytes, e: Entry)
    requires Describes(t.meta, t.entries) && Sorted(t.entries)
    requires t.meta.smallestKey != [] && t.meta.largestKey != []
    requires Compare(k, ExtractUserKey(t.meta.smallestKey)) < 0 || Compare(k, ExtractUserKey(t.meta.largestKey)) > 0
    requires e in t.entries
    ensures e.key.user != k
  {
    var s := t.entries;
    var m :| 0 <= m < |s| && s[m] == e;
    EncodeThenExtract(s[0].key);
    EncodeThenExtract(s[|s| - 1].key);
    CompareFlips(e.key.user, s[0].key.user);
    CompareFlips(e.key.user, s[|s| - 1].key.user);
    if m > 0 { assert Before(s[0].key, s[m].key); }
    if m < |s| - 1 { assert Before(s[m].key, s[|s| - 1].key); }
  }

  /** Merge, collapse versions, and stop once past the key. */
  method Lookup(iters: seq<seq<Entry>>, k: bytes) returns (value: Option<bytes>)
    requires Sources(iters)
    ensures forall r: nat :: (forall e :: e in Union(iters) ==> e.key.num <= r) ==> value == Answer(Union(iters), k, r)
  {
    hide Emission, Answer, Before, IsHead;
    SourcesAreChildren(iters);
    ghost var U := Union(iters);
    var merge := new MergeIterator(iters, true);
    merge.SeekToFirst();
    ghost var out := Emission(U, true);
    ghost var n := 0;
    EmissionIsHeads(U);
    while merge.curr != None
      invariant merge.Valid() && merge.initialized
      invariant n <= |out| && merge.Rest() == out[n..]
      invariant forall j :: 0 <= j < n ==> Compare(out[j].key.user, k) < 0
      modifies merge, merge.rest, merge.valid
      decreases |out| - n
    {
      if Compare(merge.curr.value.key.user, k) >= 0 { break; }
      merge.Next();
      n := n + 1;
    }
    LookupVerdict(U, out, n, k);
    if merge.curr == None { return None; }
    var e := merge.curr.value;
    assert e == out[n];
    return if e.key.user != k || e.key.kind.Tombstone? then None else Some(e.value);
  }

  /** At the first collapsed entry not before k, the answer is known. */
  lemma LookupVerdict(U: set<Entry>, out: seq<Entry>, n: nat, k: bytes)
    requires Coherent(U) && n <= |out| && Sorted(out) && (forall e :: e in out <==> IsHead(U, e))
    requires forall j :: 0 <= j < n ==> Compare(out[j].key.user, k) < 0
    requires n < |out| ==> Compare(out[n].key.user, k) >= 0
    ensures forall r: nat :: (forall e :: e in U ==> e.key.num <= r) ==>
              Answer(U, k, r) == if n < |out| && out[n].key.user == k then Payload(out[n]) else None
  {
    if n < |out| { CompareFlips(out[n].key.user, k); }
    if n < |out| && out[n].key.user == k {
      FoundHead(U, out, n, k);
    } else {
      PassedKey(out, n, k);
      MissedKey(U, out, k);
    }
  }

  lemma FoundHead(U: set<Entry>, out: seq<Entry>, n: nat, k: bytes)
    requires Coherent(U) && n < |out| && (forall e :: e in out <==> IsHead(U, e))
    requires out[n].key.user == k
    ensures forall r: nat :: (forall e :: e in U ==> e.key.num <= r) ==> Answer(U, k, r) == Payload(out[n])
  {
    assert out[n] in out;
    forall r: nat | forall e :: e in U ==> e.key.num <= r ensures Answer(U, k, r) == Payload(out[n]) {
      assert Newest(U, k, r, out[n]);
      AnswerIs(U, k, r, out[n]);
    }
  }

  lemma PassedKey(out: seq<Entry>, n: nat, k: bytes)
    requires Sorted(out) && n <= |out|
    requires forall j :: 0 <= j < n ==> Compare(out[j].key.user, k) < 0
    requires n < |out| ==> Compare(out[n].key.user, k) > 0
    ensures forall e :: e in out ==> e.key.user != k
  {
    forall e | e in out ensures e.key.user != k {
      var j :| 0 <= j < |out| && out[j] == e;
      CompareFlips(k, k);
      if j > n {
        assert Before(out[n].key, out[j].key);
        CompareFlips(out[n].key.user, k);
        CompareFlips(k, out[j].key.user);
        if Compare(out[n].key.user, out[j].key.user) < 0 {
          CompareTransitive(k, out[n].key.user, out[j].key.user);
        }
      }
    }
  }

  lemma MissedKey(U: set<Entry>, out: seq<Entry>, k: bytes)
    requires Coherent(U) && (forall e :: e in out <==> IsHead(U, e))
    requires forall e :: e in out ==> e.key.user != k
    ensures forall r: nat :: Answer(U, k, r) == None
  {
    forall r: nat ensures Answer(U, k, r) == None {
      forall v | v in U ensures !Visible(v, k, r) {
        if v.key.user == k { HeadExists(U, v); }
      }
      AnswerAbsent(U, k, r);
    }
  }

  lemma {:induction false} HeadExists(U: set<Entry>, v: Entry)
    requires v in U
    ensures exists e :: IsHead(U, e) && e.key.user == v.key.user
    decreases |U|
  {
    if IsHead(U, v) {
    } else {
      var o :| o in U && o.key.user == v.key.user && o.key.num > v.key.num;
      HeadExists(U - {v}, o);
      var e :| IsHead(U - {v}, e) && e.key.user == o.key.user;
      assert IsHead(U, e);
    }
  }

  function AllSources(mems: seq<seq<Entry>>, tables: seq<Table>): seq<seq<Entry>> {
    mems + seq(|tables|, i requires 0 <= i < |tables| => tables[i].entries)
  }

  /** Every table whose user key range may hold k. */
  method Candidates(tables: seq<Table>, k: bytes) returns (kept: seq<seq<Entry>>)
    requires forall t :: t in tables ==> Describes(t.meta, t.entries) && Sorted(t.entries)
    ensures forall s :: s in kept ==> exists t :: t in tables && t.entries == s
    ensures forall t, e :: t in tables && e in t.entries && e.key.user == k ==> t.entries in kept
  {
    kept := [];
    for i := 0 to |tables|
      invariant forall s :: s in kept ==> exists t :: t in tables && t.entries == s
      invariant forall j, e :: 0 <= j < i && e in tables[j].entries && e.key.user == k ==> tables[j].entries in kept
    {
      var t := tables[i];
      if |t.meta.smallestKey| > 0 && |t.meta.largestKey| > 0
         && (Compare(k, ExtractUserKey(t.meta.smallestKey)) < 0 || Compare(k, ExtractUserKey(t.meta.largestKey)) > 0) {
        forall e | e in t.entries ensures e.key.user != k { RangeCheckSound(t, k, e); }
      } else {
        kept := kept + [t.entries];
      }
    }
  }

  function FilterAll(sources: seq<seq<Entry>>, snapshot: Option<nat>): seq<seq<Entry>> {
    seq(|sources|, i requires 0 <= i < |sources| => Filtered(sources[i], snapshot))
  }

  /** The active memtable and the immutable ones, then the candidate tables,
      each behind a version filter when reading under a snapshot. */
  method GetWithOptions(mems: seq<seq<Entry>>, tables: seq<Table>, k: bytes, snapshot: Option<nat>)
    returns (value: Option<bytes>)
    requires Sources(AllSources(mems, tables))
    requires forall t :: t in tables ==> Describes(t.meta, t.entries)
    ensures snapshot.Some? ==> value == Answer(Union(AllSources(mems, tables)), k, snapshot.value)
    ensures snapshot.None? ==> forall r: nat ::
              (forall e :: e in Union(AllSources(mems, tables)) ==> e.key.num <= r) ==>
              value == Answer(Union(AllSources(mems, tables)), k, r)
  {
    ghost var all := AllSources(mems, tables);
    TablesAmongSources(mems, tables);
    var candidates := Candidates(tables, k);
    var kept := mems + candidates;
    var iters := FilterAll(kept, snapshot);
    forall s | s in kept ensures s in all { assert s in mems || s in candidates; }
    KeptSources(all, kept, iters, snapshot);
    forall e | e in Union(all) && e.key.user == k ensures e in Union(kept) {
      NothingMissed(mems, tables, candidates, k, e);
    }
    value := Lookup(iters, k);
    forall r: nat | (if snapshot.Some? then r == snapshot.value else forall e :: e in Union(all) ==> e.key.num <= r)
      ensures value == Answer(Union(all), k, r)
    {
      FilteredAnswer(Union(all), Union(iters), snapshot, k, r);
    }
  }

  lemma TablesAmongSources(mems: seq<seq<Entry>>, tables: seq<Table>)
    ensures forall t :: t in tables ==> t.entries in AllSources(mems, tables)
    ensures forall s :: s in mems ==> s in AllSources(mems, tables)
    ensures forall s :: s in AllSources(mems, tables) ==> s in mems || exists t :: t in tables && t.entries == s
  {
    var all := AllSources(mems, tables);
    forall t | t in tables ensures t.entries in all {
      var i :| 0 <= i < |tables| && tables[i] == t;
      assert all[|mems| + i] == t.entries;
    }
    forall s | s in mems ensures s in all {
      var i :| 0 <= i < |mems| && mems[i] == s;
      assert all[i] == s;
    }
  }

  lemma NothingMissed(mems: seq<seq<Entry>>, tables: seq<Table>, candidates: seq<seq<Entry>>, k: bytes, e: Entry)
    requires e in Union(AllSources(mems, tables)) && e.key.user == k
    requires forall t, x :: t in tables && x in t.entries && x.key.user == k ==> t.entries in candidates
    ensures e in Union(mems + candidates)
  {
    TablesAmongSources(mems, tables);
    var s: seq<Entry> :| s in AllSources(mems, tables) && e in s;
    assert s in mems + candidates;
  }

  lemma UnionAppend(all: seq<seq<Entry>>, s: seq<Entry>)
    ensures Union(all + [s]) == Union(all) + Elements(s)
  {
    forall e ensures e in Union(all + [s]) <==> e in Union(all) || e in s {
      if e in Union(all) { var t: seq<Entry> :| t in all && e in t; assert t in all + [s]; }
      if e in s { assert s in all + [s]; }
      if e in Union(all + [s]) { var t: seq<Entry> :| t in all + [s] && e in t; assert t in all || t == s; }
    }
  }

  lemma KeptSources(all: seq<seq<Entry>>, kept: seq<seq<Entry>>, iters: seq<seq<Entry>>, snapshot: Option<nat>)
    requires Sources(all) && |kept| == |iters|
    requires forall j :: 0 <= j < |iters| ==> iters[j] == Filtered(kept[j], snapshot) && kept[j] in all
    ensures Sources(iters)
    ensures forall e :: e in Union(iters) <==> e in Union(kept) && Seen(e, snapshot)
    ensures Union(kept) <= Union(all)
  {
    forall s | s in iters ensures Sorted(s) {
      var j :| 0 <= j < |iters| && iters[j] == s;
      FilteredFacts(kept[j], snapshot);
    }
    forall e ensures e in Union(iters) <==> e in Union(kept) && Seen(e, snapshot) {
      if e in Union(iters) {
        var s: seq<Entry> :| s in iters && e in s;
        var j :| 0 <= j < |iters| && iters[j] == s;
        FilteredFacts(kept[j], snapshot);
        InUnion(kept, j, e);
      }
      if e in Union(kept) && Seen(e, snapshot) {
        var s: seq<Entry> :| s in kept && e in s;
        var j :| 0 <= j < |kept| && kept[j] == s;
        FilteredFacts(kept[j], snapshot);
        InUnion(iters, j, e);
      }
    }
    forall e | e in Union(kept) ensures e in Union(all) {
      var s: seq<Entry> :| s in kept && e in s;
    }
  }

  /** Hiding what the snapshot cannot see, or what is not a version of k,
      changes no answer about k. */
  lemma FilteredAnswer(S: set<Entry>, T: set<Entry>, snapshot: Option<nat>, k: bytes, r: nat)
    requires Coherent(S) && T <= S
    requires forall e :: e in S && e.key.user == k && Seen(e, snapshot) ==> e in T
    requires forall e :: e in T ==> Seen(e, snapshot)
    requires snapshot.Some? ==> r == snapshot.value
    ensures Answer(S, k, r) == Answer(T, k, r)
  {
    forall e | Newest(S, k, r, e) ensures Newest(T, k, r, e) { }
    if forall e :: e in S ==> !Visible(e, k, r) { AnswerAbsent(T, k, r); }
    SameNewest(S, T, k, r);
  }

  // ------------------------------------------------------------------- scans

  /** A merged sequence without its tombstones. */
  function Live(s: seq<Entry>): seq<Entry> {
    if s == [] then []
    else (if s[0].key.kind.Value? then [s[0]] else []) + Live(s[1..])
  }

  lemma {:induction false} LiveMembers(s: seq<Entry>, e: Entry)
    ensures e in Live(s) <==> e in s && e.key.kind.Value?
  {
    if s != [] {
      LiveMembers(s[1..], e);
      assert e in s <==> e == s[0] || e in s[1..];
      var v := Live(s[1..]);
      assert [] + v == v;
      assert e in [s[0]] + v <==> e == s[0] || e in v;
    }
  }

  lemma {:induction false} LiveSorted(s: seq<Entry>)
    requires Sorted(s)
    ensures Sorted(Live(s))
  {
    if s != [] {
      SortedTail(s);
      LiveSorted(s[1..]);
      var v := Live(s[1..]);
      assert [] + v == v;
      forall j | 0 <= j < |v| ensures Before(s[0].key, v[j].key) { LiveMembers(s[1..], v[j]); }
      ConsSorted(s[0], v);
    }
  }

  lemma LiveFacts(s: seq<Entry>)
    requires Sorted(s)
    ensures Sorted(Live(s)) && forall e :: e in Live(s) <==> e in s && e.key.kind.Value?
  {
    LiveSorted(s);
    forall e ensures e in Live(s) <==> e in s && e.key.kind.Value? { LiveMembers(s, e); }
  }

  class DbIterator {
    const inner: MergeIterator

    ghost predicate Valid()
      reads inner, inner.rest, inner.valid
    {
      && inner.Valid() && inner.dedup
      && (inner.curr.Some? ==> inner.curr.value.key.kind.Value?)
    }

    /** What the iterator has still to show, the current pair first. */
    ghost function Rest(): seq<Entry>
      requires Valid()
      reads inner, inner.rest, inner.valid
    {
      Live(inner.Rest())
    }

    /** What it shows from the first pair to the last. */
    ghost function Full(): seq<Entry>
      requires Children(inner.sources)
    {
      Live(Emission(Union(inner.sources), true))
    }

    constructor (inner: MergeIterator)
      requires inner.Valid() && inner.dedup && !inner.initialized
      ensures this.inner == inner && Valid()
    {
      this.inner := inner;
    }

    method SeekToFirst()
      requires Valid()
      modifies inner, inner.rest, inner.valid
      ensures Valid() && Rest() == Full()
      ensures inner.initialized
    {
      inner.SeekToFirst();
      SkipTombstones();
    }

    method Next()
      requires Valid()
      modifies inner, inner.rest, inner.valid
      ensures Valid() && Rest() == if old(Rest()) == [] then [] else old(Rest())[1..]
      ensures inner.initialized == old(inner.initialized)
    {
      ghost var was := inner.Rest();
      assert was != [] ==> Live(was) == [was[0]] + Live(was[1..]);
      inner.Next();
      SkipTombstones();
    }

    method SkipTombstones()
      requires inner.Valid() && inner.dedup
      modifies inner, inner.rest, inner.valid
      ensures Valid() && Rest() == Live(old(inner.Rest()))
      ensures inner.initialized == old(inner.initialized)
    {
      while inner.curr != None
        invariant inner.Valid() && inner.initialized == old(inner.initialized)
        invariant Live(inner.Rest()) == Live(old(inner.Rest()))
        decreases |inner.Rest()|
      {
        if inner.curr.value.key.kind.Value? { break; }
        ghost var was := inner.Rest();
        assert [] + Live(was[1..]) == Live(was[1..]);
        inner.Next();
      }
    }

    method HasCurrent() returns (b: bool)
      requires Valid()
      ensures b <==> Rest() != []
    {
      b := inner.curr != None;
    }

    method Current() returns (k: bytes, v: bytes)
      requires Valid() && Rest() != []
      ensures k == Rest()[0].key.user && v == Rest()[0].value
    {
      k, v := inner.curr.value.key.user, inner.curr.value.value;
    }
  }

  ghost predicate Shows(s: seq<Entry>, k: bytes, v: bytes) {
    exists e :: e in s && e.key.user == k && e.value == v
  }

  ghost predicate Ascends(s: seq<Entry>) {
    forall i, j :: 0 <= i < j < |s| ==> Compare(s[i].key.user, s[j].key.user) < 0
  }

  /** The live heads of U are its answers at any number nothing exceeds. */
  lemma LiveHeads(U: set<Entry>, r: nat, k: bytes, v: bytes)
    requires Coherent(U) && forall e :: e in U ==> e.key.num <= r
    ensures Shows(Live(Emission(U, true)), k, v) <==> Answer(U, k, r) == Some(v)
  {
    var out := Emission(U, true);
    EmissionIsHeads(U);
    LiveFacts(out);
    hide Emission, Live, Sorted;
    if e :| e in Live(out) && e.key.user == k && e.value == v {
      assert Newest(U, k, r, e);
      AnswerIs(U, k, r, e);
    }
    if Answer(U, k, r) == Some(v) {
      var c :| Newest(U, k, r, c) && Answer(U, k, r) == Payload(c);
      assert Newest(U, k, r, c);
      assert IsHead(U, c);
      assert c in Live(out);
    }
  }

  /** Each key is shown once, in ascending byte order. */
  lemma ScanAscends(U: set<Entry>)
    requires Coherent(U)
    ensures Ascends(Live(Emission(U, true)))
  {
    var out := Emission(U, true);
    EmissionIsHeads(U);
    LiveFacts(out);
    var s := Live(out);
    hide Emission, Live;
    forall i, j | 0 <= i < j < |s| ensures Compare(s[i].key.user, s[j].key.user) < 0 {
      assert s[i] in s && s[j] in s;
      assert Before(s[i].key, s[j].key);
      if s[i].key.user == s[j].key.user { assert IsHead(U, s[i]) && IsHead(U, s[j]); }
    }
  }

  /** The keys a range or prefix scan is asked for. */
  predicate InScan(k: bytes, start: Option<bytes>, end: Option<bytes>, prefix: Option<bytes>) {
    && (prefix.Some? ==> HasPrefix(k, prefix.value))
    && (start.Some? ==> Compare(k, start.value) >= 0)
    && (end.Some? ==> Compare(k, end.value) < 0)
  }

  function Clip(s: seq<Entry>, start: Option<bytes>, end: Option<bytes>, prefix: Option<bytes>): seq<Entry> {
    if s == [] then []
    else (if InScan(s[0].key.user, start, end, prefix) then [s[0]] else []) + Clip(s[1..], start, end, prefix)
  }

  lemma {:induction false} ClipMembers(s: seq<Entry>, start: Option<bytes>, end: Option<bytes>,
                                       prefix: Option<bytes>, e: Entry)
    ensures e in Clip(s, start, end, prefix) <==> e in s && InScan(e.key.user, start, end, prefix)
  {
    if s != [] {
      ClipMembers(s[1..], start, end, prefix, e);
      assert e in s <==> e == s[0] || e in s[1..];
      var v := Clip(s[1..], start, end, prefix);
      assert [] + v == v;
      assert e in [s[0]] + v <==> e == s[0] || e in v;
    }
  }

  lemma {:induction false} ClipSorted(s: seq<Entry>, start: Option<bytes>, end: Option<bytes>, prefix: Option<bytes>)
    requires Sorted(s)
    ensures Sorted(Clip(s, start, end, prefix))
  {
    if s != [] {
      SortedTail(s);
      ClipSorted(s[1..], start, end, prefix);
      var v := Clip(s[1..], start, end, prefix);
      assert [] + v == v;
      forall j | 0 <= j < |v| ensures Before(s[0].key, v[j].key) {
        ClipMembers(s[1..], start, end, prefix, v[j]);
      }
      ConsSorted(s[0], v);
    }
  }

  lemma AscendsTail(s: seq<Entry>)
    requires Ascends(s) && s != []
    ensures Ascends(s[1..]) && forall e :: e in s[1..] ==> Compare(s[0].key.user, e.key.user) < 0
  {
    hide Compare;
    assert s == [s[0]] + s[1..];
  }

  lemma ConsAscends(x: Entry, v: seq<Entry>)
    requires Ascends(v) && forall e :: e in v ==> Compare(x.key.user, e.key.user) < 0
    ensures Ascends([x] + v)
  {
    hide Compare;
  }

  lemma ClipStep(s: seq<Entry>, start: Option<bytes>, end: Option<bytes>, prefix: Option<bytes>)
    requires s != []
    ensures var v := Clip(s[1..], start, end, prefix);
            Clip(s, start, end, prefix) == v || Clip(s, start, end, prefix) == [s[0]] + v
  {
    hide InScan;
    var v := Clip(s[1..], start, end, prefix);
    assert [] + v == v;
  }

  lemma {:induction false} ClipAscends(s: seq<Entry>, start: Option<bytes>, end: Option<bytes>, prefix: Option<bytes>)
    requires Ascends(s)
    ensures Ascends(Clip(s, start, end, prefix))
  {
    if s != [] {
      ClipStep(s, start, end, prefix);
      hide Compare, InScan, Ascends, Clip;
      AscendsTail(s);
      ClipAscends(s[1..], start, end, prefix);
      var v := Clip(s[1..], start, end, prefix);
      forall e | e in v ensures e in s[1..] { ClipMembers(s[1..], start, end, prefix, e); }
      ConsAscends(s[0], v);
    }
  }

  /** A clipped scan is the full scan restricted to the keys asked for, in the
      same order. */
  lemma ClippedScan(U: set<Entry>, start: Option<bytes>, end: Option<bytes>, prefix: Option<bytes>)
    requires Coherent(U)
    ensures var full := Live(Emission(U, true));
            var shown := Clip(full, start, end, prefix);
            && Sorted(shown) && Ascends(shown)
            && forall e :: e in shown <==> e in full && InScan(e.key.user, start, end, prefix)
  {
    var full := Live(Emission(U, true));
    EmissionIsHeads(U);
    LiveFacts(Emission(U, true));
    ScanAscends(U);
    hide Emission, Live;
    ClipSorted(full, start, end, prefix);
    ClipAscends(full, start, end, prefix);
    forall e ensures e in Clip(full, start, end, prefix) <==> e in full && InScan(e.key.user, start, end, prefix) {
      ClipMembers(full, start, end, prefix, e);
    }
  }

  /** A scan of the keys asked for: in ascending order, exactly the pairs a read at
      r returns. */
  ghost predicate Scans(shown: seq<Entry>, S: set<Entry>, r: nat, start: Option<bytes>, end: Option<bytes>,
                        prefix: Option<bytes>) {
    && Ascends(shown)
    && forall k, v :: Shows(shown, k, v) <==> InScan(k, start, end, prefix) && Answer(S, k, r) == Some(v)
  }

  lemma ClipScans(full: seq<Entry>, S: set<Entry>, r: nat, start: Option<bytes>, end: Option<bytes>,
                  prefix: Option<bytes>)
    requires Scans(full, S, r, None, None, None)
    ensures Scans(Clip(full, start, end, prefix), S, r, start, end, prefix)
  {
    var shown := Clip(full, start, end, prefix);
    ClipAscends(full, start, end, prefix);
    EveryKey();
    forall e ensures e in shown <==> e in full && InScan(e.key.user, start, end, prefix) {
      ClipMembers(full, start, end, prefix, e);
    }
    hide Clip, Ascends, Answer, InScan;
    forall k, v ensures Shows(shown, k, v) <==> InScan(k, start, end, prefix) && Shows(full, k, v) { }
  }

  /** Over any sources that agree and any snapshot, a scan and the point reads of
      all its keys say the same, whatever the sources hold above the snapshot. */
  lemma ScanAgreesWithGet(all: seq<seq<Entry>>, snapshot: Option<nat>, r: nat, start: Option<bytes>,
                          end: Option<bytes>, prefix: Option<bytes>)
    requires Sources(all)
    requires if snapshot.Some? then r == snapshot.value else forall e :: e in Union(all) ==> e.key.num <= r
    ensures Coherent(Union(FilterAll(all, snapshot)))
    ensures var full := Live(Emission(Union(FilterAll(all, snapshot)), true));
            && Scans(full, Union(all), r, None, None, None)
            && Scans(Clip(full, start, end, prefix), Union(all), r, start, end, prefix)
  {
    var U := Union(FilterAll(all, snapshot));
    KeptSources(all, all, FilterAll(all, snapshot), snapshot);
    var full := Live(Emission(U, true));
    ScanAscends(U);
    hide Emission, Live, Clip, Ascends, Answer, InScan, Sorted, Union, FilterAll, Sources, Coherent;
    SourcesCohere(all);
    forall k, v ensures Shows(full, k, v) <==> Answer(Union(all), k, r) == Some(v) {
      LiveHeads(U, r, k, v);
      FilteredAnswer(Union(all), U, snapshot, k, r);
    }
    EveryKey();
    ClipScans(full, Union(all), r, start, end, prefix);
  }

  lemma SourcesCohere(all: seq<seq<Entry>>)
    requires Sources(all)
    ensures Coherent(Union(all))
  {
  }

  lemma EveryKey()
    ensures forall k :: InScan(k, None, None, None)
  {
  }

  /** Once one key has reached the end bound, every later one has. */
  lemma {:induction false} NothingAfterEnd(s: seq<Entry>, start: Option<bytes>, end: bytes, prefix: Option<bytes>)
    requires Sorted(s) && s != [] && Compare(s[0].key.user, end) >= 0
    ensures Clip(s, start, Some(end), prefix) == []
    decreases |s|
  {
    if |s| > 1 {
      SortedTail(s);
      assert Before(s[0].key, s[1].key);
      CompareFlips(s[0].key.user, s[1].key.user);
      CompareFlips(s[0].key.user, end);
      CompareFlips(s[1].key.user, end);
      CompareTransitive(end, s[0].key.user, s[1].key.user);
      NothingAfterEnd(s[1..], start, end, prefix);
    }
  }

  /** A key outside the scan, at the front, may be passed over. */
  lemma ClipSkips(s: seq<Entry>, start: Option<bytes>, end: Option<bytes>, prefix: Option<bytes>)
    requires Sorted(s) && s != [] && !InScan(s[0].key.user, start, end, prefix)
    ensures Sorted(s[1..]) && Clip(s[1..], start, end, prefix) == Clip(s, start, end, prefix)
  {
    SortedTail(s);
    assert [] + Clip(s[1..], start, end, prefix) == Clip(s[1..], start, end, prefix);
  }

  lemma ClipEmpty(start: Option<bytes>, end: Option<bytes>, prefix: Option<bytes>)
    ensures Clip([], start, end, prefix) == []
  {
  }

  class ScanIterator {
    const inner: DbIterator
    const start: Option<bytes>
    const end: Option<bytes>
    const prefix: Option<bytes>
    var stop: bool

    ghost predicate Valid()
      reads this, inner, inner.inner, inner.inner.rest, inner.inner.valid
    {
      && inner.Valid() && Coherent(Union(inner.inner.sources))
      && Sorted(inner.Rest())
      && Settled()
    }

    /** Stopped with nothing left in range, or at the next key in range. */
    ghost predicate Settled()
      requires inner.Valid()
      reads this, inner, inner.inner, inner.inner.rest, inner.inner.valid
    {
      var s := inner.Rest();
      && (stop ==> Clip(s, start, end, prefix) == [])
      && (!stop && s != [] ==> InScan(s[0].key.user, start, end, prefix))
    }

    ghost function Rest(): seq<Entry>
      requires Valid()
      reads this, inner, inner.inner, inner.inner.rest, inner.inner.valid
    {
      Clip(inner.Rest(), start, end, prefix)
    }

    /** What it shows from the first pair to the last. */
    ghost function Full(): seq<Entry>
      requires Children(inner.inner.sources)
    {
      Clip(inner.Full(), start, end, prefix)
    }

    constructor (inner: DbIterator, start: Option<bytes>, end: Option<bytes>, prefix: Option<bytes>)
      requires inner.Valid() && !inner.inner.initialized && Coherent(Union(inner.inner.sources))
      ensures Valid() && this.inner == inner && this.start == start && this.end == end && this.prefix == prefix
    {
      this.inner, this.start, this.end, this.prefix, stop := inner, start, end, prefix, false;
    }

    method SeekToFirst()
      requires Valid()
      modifies this, inner.inner, inner.inner.rest, inner.inner.valid
      ensures Valid() && Rest() == Full()
    {
      stop := false;
      inner.SeekToFirst();
      EmissionIsHeads(Union(inner.inner.sources));
      LiveFacts(Emission(Union(inner.inner.sources), true));
      Advance();
    }

    method Next()
      requires Valid()
      modifies this, inner.inner, inner.inner.rest, inner.inner.valid
      ensures Valid() && Rest() == if old(Rest()) == [] then [] else old(Rest())[1..]
    {
      ghost var s := inner.Rest();
      if s != [] { SortedTail(s); }
      assert s != [] ==> [] + Clip(s[1..], start, end, prefix) == Clip(s[1..], start, end, prefix);
      inner.Next();
      Advance();
    }

    method HasCurrent() returns (b: bool)
      requires Valid()
      ensures b <==> Rest() != []
    {
      var v := inner.HasCurrent();
      b := !stop && v;
    }

    method Advance()
      requires inner.Valid() && Coherent(Union(inner.inner.sources))
      requires Sorted(inner.Rest()) && (stop ==> Clip(inner.Rest(), start, end, prefix) == [])
      modifies this, inner.inner, inner.inner.rest, inner.inner.valid
      ensures Valid()
      ensures Rest() == Clip(old(inner.Rest()), start, end, prefix)
    {
      hide Clip, Live, Sorted, Coherent, MergeIterator.Valid, MergeIterator.Rest, Compare, HasPrefix;
      while true
        invariant inner.Valid() && Sorted(inner.Rest())
        invariant Clip(inner.Rest(), start, end, prefix) == Clip(old(inner.Rest()), start, end, prefix)
        invariant stop ==> Clip(inner.Rest(), start, end, prefix) == []
        decreases |inner.Rest()|
      {
        var more := inner.HasCurrent();
        if !more {
          ClipEmpty(start, end, prefix);
          return;
        }
        var k, _ := inner.Current();
        ghost var s := inner.Rest();
        if prefix.Some? && !HasPrefix(k, prefix.value) {
          ClipSkips(s, start, end, prefix);
          inner.Next();
          continue;
        }
        if start.Some? && Compare(k, start.value) < 0 {
          ClipSkips(s, start, end, prefix);
          inner.Next();
          continue;
        }
        if end.Some? && Compare(k, end.value) >= 0 {
          NothingAfterEnd(s, start, end.value, prefix);
          stop := true;
          return;
        }
        return;
      }
    }
  }

  /** Every memtable and every table, each behind a version filter when scanning
      under a snapshot. */
  method NewIterator(mems: seq<seq<Entry>>, tables: seq<Table>, snapshot: Option<nat>) returns (it: DbIterator)
    requires Sources(AllSources(mems, tables))
    ensures fresh(it) && fresh(it.inner) && fresh(it.inner.rest) && fresh(it.inner.valid)
    ensures it.Valid() && !it.inner.initialized && Coherent(Union(it.inner.sources))
    ensures it.inner.sources == FilterAll(AllSources(mems, tables), snapshot)
  {
    ghost var all := AllSources(mems, tables);
    var iters := [];
    for i := 0 to |mems|
      invariant |iters| == i && forall j :: 0 <= j < i ==> iters[j] == Filtered(all[j], snapshot)
    {
      iters := iters + [Filtered(mems[i], snapshot)];
    }
    for i := 0 to |tables|
      invariant |iters| == |mems| + i && forall j :: 0 <= j < |mems| + i ==> iters[j] == Filtered(all[j], snapshot)
    {
      iters := iters + [Filtered(tables[i].entries, snapshot)];
    }
    assert iters == FilterAll(all, snapshot);
    KeptSources(all, all, iters, snapshot);
    SourcesAreChildren(iters);
    var merge := new MergeIterator(iters, true);
    it := new DbIterator(merge);
  }
}
