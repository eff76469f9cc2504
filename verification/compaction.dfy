/** Compaction: which tables are merged, what the merge keeps, how it is cut into
    files, and when readers cannot tell that it happened. */
module Compactions {
  import opened Bytes
  import opened InternalKeys
  import opened Versions
  import opened Merging
  import opened VersionSets
  import opened Reads
  import opened TableMetas

  // --------------------------------------------------------- tombstone collection

  function SkipUser(s: seq<Entry>, user: bytes): (r: seq<Entry>)
    ensures |r| <= |s|
  {
    if s == [] || s[0].key.user != user then s else SkipUser(s[1..], user)
  }

  predicate Collectable(e: Entry, oldest: nat) {
    e.key.kind.Tombstone? && e.key.num <= oldest
  }

  /** What the merge loop writes out of a merged sequence: with nothing below the
      target level, a tombstone no snapshot needs goes, and so does the rest of
      its user key. */
  function Gc(s: seq<Entry>, oldest: nat, bottom: bool): seq<Entry>
    decreases |s|
  {
    if s == [] then []
    else if bottom && Collectable(s[0], oldest) then Gc(SkipUser(s[1..], s[0].key.user), oldest, bottom)
    else [s[0]] + Gc(s[1..], oldest, bottom)
  }

  /** At or below a collectable tombstone of the same user key. */
  ghost predicate Buried(U: set<Entry>, oldest: nat, e: Entry) {
    exists t :: t in U && Collectable(t, oldest) && t.key.user == e.key.user && e.key.num <= t.key.num
  }

  ghost function Survivors(U: set<Entry>, oldest: nat, bottom: bool): set<Entry> {
    set e | e in U && !(bottom && Buried(U, oldest, e))
  }

  lemma {:induction false} SkipUserFacts(s: seq<Entry>, h: Entry)
    requires Sorted(s) && forall e :: e in s ==> Before(h.key, e.key)
    ensures Sorted(SkipUser(s, h.key.user))
    ensures forall e :: e in SkipUser(s, h.key.user) <==> e in s && e.key.user != h.key.user
  {
    if s != [] {
      SortedTail(s);
      if s[0].key.user == h.key.user {
        SkipUserFacts(s[1..], h);
        assert s == [s[0]] + s[1..];
      } else {
        NoMoreVersions(h, s);
      }
    }
  }

  lemma TailElements(s: seq<Entry>)
    requires s != []
    ensures Elements(s) == {s[0]} + Elements(s[1..])
  {
    assert s == [s[0]] + s[1..];
    ElementsCons(s[0], s[1..]);
  }

  lemma CoherentSubset(S: set<Entry>, T: set<Entry>)
    requires Coherent(S) && T <= S
    ensures Coherent(T)
  {
  }

  /** The output is exactly the merged input minus, per user key, the newest
      collectable tombstone and everything older, in order. */
  lemma {:induction false} GcKeepsSurvivors(s: seq<Entry>, oldest: nat, bottom: bool)
    requires Sorted(s) && Coherent(Elements(s))
    ensures Sorted(Gc(s, oldest, bottom))
    ensures Elements(Gc(s, oldest, bottom)) == Survivors(Elements(s), oldest, bottom)
    decreases |s|
  {
    if s == [] {
    } else {
      hide Coherent, Before;
      var h, rest := s[0], s[1..];
      SortedTail(s);
      TailElements(s);
      if bottom && Collectable(h, oldest) {
        var kept := SkipUser(rest, h.key.user);
        forall e | e in rest ensures Before(h.key, e.key) { }
        SkipUserFacts(rest, h);
        CoherentSubset(Elements(s), Elements(kept));
        GcKeepsSurvivors(kept, oldest, bottom);
        DroppedHead(s, oldest, kept);
      } else {
        CoherentSubset(Elements(s), Elements(rest));
        GcKeepsSurvivors(rest, oldest, bottom);
        KeptHead(s, oldest, bottom);
        var t := Gc(rest, oldest, bottom);
        forall j | 0 <= j < |t| ensures Before(h.key, t[j].key) { assert t[j] in Elements(t); }
        ConsSorted(h, t);
        ElementsCons(h, t);
      }
    }
  }

  lemma DroppedHead(s: seq<Entry>, oldest: nat, kept: seq<Entry>)
    requires Sorted(s) && s != [] && Collectable(s[0], oldest)
    requires forall e :: e in kept <==> e in s[1..] && e.key.user != s[0].key.user
    ensures Survivors(Elements(s), oldest, true) == Survivors(Elements(kept), oldest, true)
  {
    var h := s[0];
    TailElements(s);
    SortedTail(s);
    forall e | e in s && e.key.user == h.key.user ensures Buried(Elements(s), oldest, e) {
      if e != h { assert Before(h.key, e.key); CompareFlips(h.key.user, e.key.user); }
      assert h in Elements(s);
    }
    forall e | e in s && e.key.user != h.key.user
      ensures e in kept && (Buried(Elements(s), oldest, e) <==> Buried(Elements(kept), oldest, e))
    {
      assert e in s[1..];
      if Buried(Elements(s), oldest, e) {
        var t :| t in Elements(s) && Collectable(t, oldest) && t.key.user == e.key.user && e.key.num <= t.key.num;
        assert t in Elements(kept);
      }
    }
  }

  lemma KeptHead(s: seq<Entry>, oldest: nat, bottom: bool)
    requires Sorted(s) && Coherent(Elements(s)) && s != [] && !(bottom && Collectable(s[0], oldest))
    ensures Survivors(Elements(s), oldest, bottom) == {s[0]} + Survivors(Elements(s[1..]), oldest, bottom)
  {
    var h := s[0];
    TailElements(s);
    SortedTail(s);
    if bottom {
      assert !Buried(Elements(s), oldest, h) by {
        forall t | t in Elements(s) && t.key.user == h.key.user && h.key.num <= t.key.num ensures t == h {
          if t != h { assert Before(h.key, t.key); CompareFlips(h.key.user, t.key.user); }
        }
      }
      forall e | e in s[1..] ensures Buried(Elements(s), oldest, e) <==> Buried(Elements(s[1..]), oldest, e) {
        if Buried(Elements(s), oldest, e) {
          var t :| t in Elements(s) && Collectable(t, oldest) && t.key.user == e.key.user && e.key.num <= t.key.num;
          assert t in Elements(s[1..]);
        }
      }
    }
  }

  // ----------------------------------------------------- what readers can tell

  /** A read at the collection bound that compaction would turn from absent to
      present: the newest version is a tombstone found only among the inputs,
      and outside them the newest version is a put. */
  ghost predicate Resurrects(inputs: set<Entry>, others: set<Entry>, oldest: nat, k: bytes) {
    exists t, x :: && Newest(inputs + others, k, oldest, t) && t.key.kind.Tombstone? && t !in others
                   && Newest(others, k, oldest, x) && x.key.kind.Value?
  }

  lemma UnburiedNewest(inputs: set<Entry>, others: set<Entry>, oldest: nat, k: bytes, r: nat, n: Entry)
    requires Coherent(inputs + others) && r >= oldest
    requires Newest(inputs + others, k, r, n)
    requires n in others || !Buried(inputs, oldest, n)
    ensures Answer(Survivors(inputs, oldest, true) + others, k, r) == Answer(inputs + others, k, r)
  {
    var after := Survivors(inputs, oldest, true) + others;
    assert Newest(after, k, r, n);
    CoherentSubset(inputs + others, after);
    AnswerIs(after, k, r, n);
    AnswerIs(inputs + others, k, r, n);
  }

  /** The only read compaction can change is one whose newest version is the
      dropped tombstone itself. */
  lemma BuriedNewest(inputs: set<Entry>, others: set<Entry>, oldest: nat, k: bytes, r: nat, n: Entry)
    requires Coherent(inputs + others) && r >= oldest
    requires Newest(inputs + others, k, r, n) && n !in others && Buried(inputs, oldest, n)
    ensures Newest(inputs + others, k, oldest, n) && n.key.kind.Tombstone?
    ensures forall e :: e in inputs && Visible(e, k, r) ==> Buried(inputs, oldest, e)
    ensures Answer(Survivors(inputs, oldest, true) + others, k, r) == Answer(others, k, r) == Answer(others, k, oldest)
  {
    var t :| t in inputs && Collectable(t, oldest) && t.key.user == n.key.user && n.key.num <= t.key.num;
    assert t in inputs + others && n in inputs + others;
    assert t == n;
    var after := Survivors(inputs, oldest, true) + others;
    CoherentSubset(inputs + others, after);
    CoherentSubset(inputs + others, others);
    forall e | e in inputs && Visible(e, k, r) ensures Buried(inputs, oldest, e) { assert e in inputs + others; }
    forall e ensures e in others && Visible(e, k, r) <==> e in others && Visible(e, k, oldest) {
      if e in others && Visible(e, k, r) { assert e in inputs + others; }
    }
    forall e ensures e in after && Visible(e, k, r) <==> e in others && Visible(e, k, r) { }
    SameVisible(others, after, k, r, r);
    SameVisible(others, others, k, r, oldest);
  }

  /** Only the visible versions of k matter. */
  lemma SameVisible(S: set<Entry>, T: set<Entry>, k: bytes, r: nat, q: nat)
    requires Coherent(S) && Coherent(T)
    requires forall e :: e in S && Visible(e, k, r) <==> e in T && Visible(e, k, q)
    ensures Answer(S, k, r) == Answer(T, k, q)
    ensures forall e :: Newest(S, k, r, e) <==> Newest(T, k, q, e)
  {
    if v :| v in S && Visible(v, k, r) {
      var e := NewestExists(S, k, r, v);
      assert e in T && Visible(e, k, q);
      assert Newest(T, k, q, e);
      AnswerIs(S, k, r, e);
      AnswerIs(T, k, q, e);
    } else {
      AnswerAbsent(S, k, r);
      forall e | e in T ensures !Visible(e, k, q) { }
      AnswerAbsent(T, k, q);
    }
  }

  lemma InvisibleAt(inputs: set<Entry>, others: set<Entry>, oldest: nat, k: bytes, r: nat)
    requires Coherent(inputs + others) && r >= oldest && !Resurrects(inputs, others, oldest, k)
    ensures Answer(Survivors(inputs, oldest, true) + others, k, r) == Answer(inputs + others, k, r)
  {
    var before := inputs + others;
    if v :| v in before && Visible(v, k, r) {
      var n := NewestExists(before, k, r, v);
      if n in others || !Buried(inputs, oldest, n) {
        UnburiedNewest(inputs, others, oldest, k, r, n);
      } else {
        BuriedNewest(inputs, others, oldest, k, r, n);
        AnswerIs(before, k, r, n);
        if x :| x in others && Visible(x, k, oldest) {
          var y := NewestExists(others, k, oldest, x);
          CoherentSubset(before, others);
          AnswerIs(others, k, oldest, y);
        } else {
          AnswerAbsent(others, k, oldest);
        }
      }
    } else {
      AnswerAbsent(before, k, r);
      AnswerAbsent(Survivors(inputs, oldest, true) + others, k, r);
    }
  }

  lemma VisibleChange(inputs: set<Entry>, others: set<Entry>, oldest: nat, k: bytes)
    requires Coherent(inputs + others) && Resurrects(inputs, others, oldest, k)
    ensures Answer(inputs + others, k, oldest) == None
    ensures Answer(Survivors(inputs, oldest, true) + others, k, oldest).Some?
  {
    var t, x :| && Newest(inputs + others, k, oldest, t) && t.key.kind.Tombstone? && t !in others
                && Newest(others, k, oldest, x) && x.key.kind.Value?;
    AnswerIs(inputs + others, k, oldest, t);
    assert t in inputs;
    BuriedNewest(inputs, others, oldest, k, oldest, t);
    CoherentSubset(inputs + others, others);
    AnswerIs(others, k, oldest, x);
  }

  /** Collection is invisible to every read at or above the bound exactly when no
      key would be resurrected. */
  lemma CompactionInvisible(inputs: set<Entry>, others: set<Entry>, oldest: nat)
    requires Coherent(inputs + others)
    ensures (forall k, r :: r >= oldest ==>
               Answer(Survivors(inputs, oldest, true) + others, k, r) == Answer(inputs + others, k, r))
            <==> forall k :: !Resurrects(inputs, others, oldest, k)
  {
    if forall k :: !Resurrects(inputs, others, oldest, k) {
      forall k, r | r >= oldest
        ensures Answer(Survivors(inputs, oldest, true) + others, k, r) == Answer(inputs + others, k, r)
      {
        InvisibleAt(inputs, others, oldest, k, r);
      }
    } else {
      var k :| Resurrects(inputs, others, oldest, k);
      VisibleChange(inputs, others, oldest, k);
    }
  }

  /** No version outside the inputs is older than an input version of its key. */
  ghost predicate Closed(inputs: set<Entry>, others: set<Entry>) {
    forall e, x :: e in inputs && x in others && e.key.user == x.key.user ==> x.key.num >= e.key.num
  }

  lemma ClosedIsInvisible(inputs: set<Entry>, others: set<Entry>, oldest: nat, k: bytes, r: nat)
    requires Coherent(inputs + others) && Closed(inputs, others) && r >= oldest
    ensures Answer(Survivors(inputs, oldest, true) + others, k, r) == Answer(inputs + others, k, r)
  {
    forall t, x | Newest(inputs + others, k, oldest, t) && t !in others && Newest(others, k, oldest, x)
      ensures t == x
    {
      assert x in inputs + others;
    }
    InvisibleAt(inputs, others, oldest, k, r);
  }

  // -------------------------------------------------------------- picking inputs

  /** By the key comparator, the first of the smallest keys and the last of the
      largest. */
  function SmallestOf(ts: seq<TableMeta>): bytes
    requires ts != []
  {
    var last := ts[|ts| - 1];
    if |ts| == 1 then last.smallestKey
    else
      var s := SmallestOf(ts[..|ts| - 1]);
      if CompareKeys(last.smallestKey, s) < 0 then last.smallestKey else s
  }

  function LargestOf(ts: seq<TableMeta>): bytes
    requires ts != []
  {
    var last := ts[|ts| - 1];
    if |ts| == 1 then last.largestKey
    else
      var s := LargestOf(ts[..|ts| - 1]);
      if CompareKeys(last.largestKey, s) > 0 then last.largestKey else s
  }

  /** One more table, for both bounds. */
  lemma BoundsStep(ts: seq<TableMeta>)
    requires |ts| > 1
    ensures var front, last := ts[..|ts| - 1], ts[|ts| - 1];
            && SmallestOf(ts) == (if CompareKeys(last.smallestKey, SmallestOf(front)) < 0 then last.smallestKey else SmallestOf(front))
            && LargestOf(ts) == (if CompareKeys(last.largestKey, LargestOf(front)) > 0 then last.largestKey else LargestOf(front))
            && forall m :: m in ts ==> m in front || m == last
  {
    hide CompareKeys;
    assert ts == ts[..|ts| - 1] + [ts[|ts| - 1]];
  }

  lemma {:induction false} SmallestIsLeast(ts: seq<TableMeta>, m: TableMeta)
    requires m in ts
    ensures CompareKeys(SmallestOf(ts), m.smallestKey) <= 0
    decreases |ts|
  {
    ComparatorFlips(m.smallestKey, m.smallestKey);
    if |ts| > 1 {
      BoundsStep(ts);
      hide CompareKeys, SmallestOf;
      var front, last := ts[..|ts| - 1], ts[|ts| - 1];
      var s := SmallestOf(front);
      ComparatorFlips(last.smallestKey, s);
      if m in front {
        SmallestIsLeast(front, m);
        if CompareKeys(last.smallestKey, s) < 0 { ComparatorTransitive(last.smallestKey, s, m.smallestKey); }
      }
    }
  }

  lemma {:induction false} LargestIsGreatest(ts: seq<TableMeta>, m: TableMeta)
    requires m in ts
    ensures CompareKeys(LargestOf(ts), m.largestKey) >= 0
    decreases |ts|
  {
    ComparatorFlips(m.largestKey, m.largestKey);
    if |ts| > 1 {
      BoundsStep(ts);
      hide CompareKeys, LargestOf;
      var front, last := ts[..|ts| - 1], ts[|ts| - 1];
      var l := LargestOf(front);
      ComparatorFlips(last.largestKey, l);
      if m in front {
        LargestIsGreatest(front, m);
        ComparatorFlips(l, m.largestKey);
        ComparatorFlips(last.largestKey, m.largestKey);
        if CompareKeys(last.largestKey, l) > 0 { ComparatorTransitive(m.largestKey, l, last.largestKey); }
      }
    }
  }

  /** The range computed over level 0 covers, by the comparator, every entry of
      every one of its tables. */
  lemma BoundsCover(ts: seq<TableMeta>, t: Table, e: Entry)
    requires t.meta in ts && Describes(t.meta, t.entries) && Sorted(t.entries) && e in t.entries
    ensures CompareKeys(SmallestOf(ts), Encode(e.key)) <= 0 && CompareKeys(LargestOf(ts), Encode(e.key)) >= 0
  {
    hide CompareKeys, Encode, SmallestOf, LargestOf;
    SmallestIsLeast(ts, t.meta);
    LargestIsGreatest(ts, t.meta);
    var s := t.entries;
    var i :| 0 <= i < |s| && s[i] == e;
    assert s[0] in s && s[|s| - 1] in s;
    ComparatorOnEncodings(s[0].key, e.key);
    ComparatorOnEncodings(e.key, s[|s| - 1].key);
    ComparatorTransitive(SmallestOf(ts), t.meta.smallestKey, Encode(e.key));
    ComparatorFlips(LargestOf(ts), t.meta.largestKey);
    ComparatorFlips(LargestOf(ts), Encode(e.key));
    ComparatorTransitive(Encode(e.key), t.meta.largestKey, LargestOf(ts));
  }

  /** All of level 0, or the first table of a deeper level, and what overlaps it
      one level down. None is the error for the last level; an empty level gives
      no inputs. */
  function Inputs(v: Version, level: nat): Option<seq<TableMeta>>
    requires |v.levels| == NumLevels
  {
    if level >= NumLevels - 1 then None
    else
      var here := v.levels[level];
      if here == [] then Some([])
      else if level == 0 then Some(here + Overlapping(v.levels[1], SmallestOf(here), LargestOf(here)))
      else Some([here[0]] + Overlapping(v.levels[level + 1], here[0].smallestKey, here[0].largestKey))
  }

  lemma {:induction false} OverlappingAmong(level: seq<TableMeta>, start: bytes, end: bytes)
    ensures forall t :: t in Overlapping(level, start, end) ==> t in level
    decreases |level|
  {
    if level != [] {
      OverlappingAmong(level[..|level| - 1], start, end);
      assert level == level[..|level| - 1] + [level[|level| - 1]];
    }
  }

  /** Inputs are live tables of the two levels concerned, and level 0 goes as a
      whole. */
  lemma InputsAreLive(v: Version, level: nat)
    requires |v.levels| == NumLevels && level < NumLevels - 1
    ensures var ins := Inputs(v, level).value;
            && (forall t :: t in ins ==> t in All(v.levels) && (t in v.levels[level] || t in v.levels[level + 1]))
            && (level == 0 ==> forall t :: t in v.levels[0] ==> t in ins)
            && (ins == [] <==> v.levels[level] == [])
  {
    var ins, here := Inputs(v, level).value, v.levels[level];
    if here != [] {
      OverlappingAmong(v.levels[level + 1], SmallestOf(here), LargestOf(here));
      OverlappingAmong(v.levels[level + 1], here[0].smallestKey, here[0].largestKey);
      forall t | t in ins ensures t in All(v.levels) && (t in v.levels[level] || t in v.levels[level + 1]) {
        assert t in here || t in v.levels[level + 1];
        AllByLevel(v.levels, t);
      }
    }
  }

  method PickInputs(vs: VersionSet, level: nat) returns (inputs: Option<seq<TableMeta>>)
    requires vs.Valid()
    ensures inputs == Inputs(vs.Abs(), level)
  {
    hide Overlapping, WellFormed, SmallestOf, LargestOf;
    if level >= NumLevels - 1 { return None; }
    var here := vs.levels[level];
    if |here| == 0 { return Some([]); }
    if level == 0 {
      var smallest, largest := Bounds(here);
      var l1 := vs.GetOverlappingInputs(1, smallest, largest);
      return Some(here + l1);
    } else {
      var overlaps := vs.GetOverlappingInputs(level + 1, here[0].smallestKey, here[0].largestKey);
      return Some([here[0]] + overlaps);
    }
  }

  method Bounds(ts: seq<TableMeta>) returns (smallest: bytes, largest: bytes)
    requires ts != []
    ensures smallest == SmallestOf(ts) && largest == LargestOf(ts)
  {
    hide CompareKeys;
    smallest, largest := ts[0].smallestKey, ts[0].largestKey;
    assert ts[..1] == [ts[0]];
    for i := 1 to |ts|
      invariant smallest == SmallestOf(ts[..i]) && largest == LargestOf(ts[..i])
    {
      assert ts[..i + 1][..i] == ts[..i];
      if CompareKeys(ts[i].smallestKey, smallest) < 0 { smallest := ts[i].smallestKey; }
      if CompareKeys(ts[i].largestKey, largest) > 0 { largest := ts[i].largestKey; }
    }
    assert ts[..|ts|] == ts;
  }

  predicate Bottom(levels: seq<seq<TableMeta>>, target: nat) {
    forall l :: target < l < |levels| ==> levels[l] == []
  }

  method IsBottom(levels: seq<seq<TableMeta>>, target: nat) returns (bottom: bool)
    ensures bottom <==> forall l :: target < l < |levels| ==> levels[l] == []
  {
    var l := target + 1;
    while l < |levels|
      invariant forall i :: target < i < l && i < |levels| ==> levels[i] == []
    {
      if |levels[l]| > 0 { return false; }
      l := l + 1;
    }
    return true;
  }

  // ------------------------------------------------------------ the merge loop

  function Contents(outputs: seq<Table>): seq<Entry> {
    if outputs == [] then [] else Contents(outputs[..|outputs| - 1]) + outputs[|outputs| - 1].entries
  }

  /** A file holds entries only up to the first that fills it. */
  ghost predicate FirstFull(s: seq<Entry>, full: seq<Entry> -> bool) {
    forall n :: 0 <= n < |s| ==> !full(s[..n])
  }

  /** File number n of a merge, recorded as written and filled no further than
      it had to be. */
  ghost predicate WrittenAs(t: Table, level: nat, fileNum: nat, full: seq<Entry> -> bool, sizeOf: seq<Entry> -> int) {
    && Encodable(t.entries) && FirstFull(t.entries, full)
    && (t.entries != [] ==> t.entries[0].key.num < MaxSeq && t.entries[|t.entries| - 1].key.num < MaxSeq)
    && t.meta == MetaOf(fileNum, level, t.entries, sizeOf(t.entries))
  }

  /** The files in order, numbered on from the first, each but the last cut when
      it became full. */
  ghost predicate WellCut(outputs: seq<Table>, level: nat, firstFileNum: nat, full: seq<Entry> -> bool,
                          sizeOf: seq<Entry> -> int) {
    forall i :: 0 <= i < |outputs| ==>
      WrittenAs(outputs[i], level, firstFileNum + i, full, sizeOf) && (i < |outputs| - 1 ==> full(outputs[i].entries))
  }

  ghost predicate AllFull(outputs: seq<Table>, full: seq<Entry> -> bool) {
    forall i :: 0 <= i < |outputs| ==> full(outputs[i].entries)
  }

  /** The file being written, with the record kept beside it. */
  ghost predicate Open(current: seq<Entry>, meta: TableMeta, level: nat, fileNum: nat, full: seq<Entry> -> bool) {
    && Encodable(current) && FirstFull(current, full)
    && (current != [] ==> current[0].key.num < MaxSeq && current[|current| - 1].key.num < MaxSeq)
    && meta == MetaOf(fileNum, level, current, 0)
  }

  /** Everything written so far: finished files, then the open one. */
  ghost predicate Writing(outputs: seq<Table>, current: seq<Entry>, meta: TableMeta, done: seq<Entry>,
                          level: nat, first: nat, full: seq<Entry> -> bool, sizeOf: seq<Entry> -> int) {
    && WellCut(outputs, level, first, full, sizeOf) && AllFull(outputs, full)
    && Open(current, meta, level, first + |outputs|, full)
    && Contents(outputs) + current == done
  }

  function EmptyMeta(fileNum: nat, level: nat): TableMeta {
    TableMeta(fileNum, level, MaxUint64, 0, [], [], 0)
  }

  lemma Starts(level: nat, first: nat, full: seq<Entry> -> bool, sizeOf: seq<Entry> -> int)
    ensures Writing([], [], EmptyMeta(first, level), [], level, first, full, sizeOf)
  {
  }

  lemma Finishes(outputs: seq<Table>, current: seq<Entry>, meta: TableMeta, done: seq<Entry>,
                 level: nat, first: nat, full: seq<Entry> -> bool, sizeOf: seq<Entry> -> int)
    requires Writing(outputs, current, meta, done, level, first, full, sizeOf)
    ensures var after := outputs + [Table(meta.(fileSize := sizeOf(current)), current)];
            && WellCut(after, level, first, full, sizeOf) && Contents(after) == done
            && (full(current) ==> Writing(after, [], EmptyMeta(first + |after|, level), done, level, first, full, sizeOf))
  {
    hide WrittenAs, Open, FirstFull;
    var t := Table(meta.(fileSize := sizeOf(current)), current);
    var after := outputs + [t];
    assert after[..|after| - 1] == outputs;
    FileWritten(current, meta, level, first + |outputs|, full, sizeOf);
    Starts(level, first + |after|, full, sizeOf);
    assert done + [] == done;
  }

  lemma FileWritten(current: seq<Entry>, meta: TableMeta, level: nat, fileNum: nat, full: seq<Entry> -> bool,
                    sizeOf: seq<Entry> -> int)
    requires Open(current, meta, level, fileNum, full)
    ensures WrittenAs(Table(meta.(fileSize := sizeOf(current)), current), level, fileNum, full, sizeOf)
  {
    hide FirstFull, LowSeq, HighSeq, Encode, Encodable;
  }

  lemma Grows(outputs: seq<Table>, current: seq<Entry>, meta: TableMeta, done: seq<Entry>,
              level: nat, first: nat, full: seq<Entry> -> bool, sizeOf: seq<Entry> -> int, e: Entry)
    requires Writing(outputs, current, meta, done, level, first, full, sizeOf) && !full(current) && e.key.num < MaxSeq
    ensures Writing(outputs, current + [e], Extended(meta, e), done + [e], level, first, full, sizeOf)
  {
    hide WellCut, AllFull, Encode, LowSeq, HighSeq, Extended;
    var after := current + [e];
    forall n | 0 <= n < |after| ensures !full(after[..n]) {
      assert after[..n] == if n < |current| then current[..n] else current;
    }
    forall x | x in after ensures x.key.num < MaxSeq { assert x in current || x == e; }
    MetaExtends(first + |outputs|, level, current, 0, e);
    assert Contents(outputs) + after == Contents(outputs) + current + [e];
  }

  /** Past every further version of the user key at the front. */
  method DropVersions(merge: MergeIterator)
    requires merge.Valid() && merge.initialized && !merge.dedup && merge.Rest() != []
    modifies merge, merge.rest, merge.valid
    ensures merge.Valid() && merge.initialized
    ensures merge.Rest() == SkipUser(old(merge.Rest())[1..], old(merge.Rest())[0].key.user)
  {
    hide Emission, MergeIterator.Valid;
    var userKey := merge.curr.value.key.user;
    merge.Next();
    while merge.curr != None && merge.curr.value.key.user == userKey
      invariant merge.Valid() && merge.initialized
      invariant SkipUser(merge.Rest(), userKey) == SkipUser(old(merge.Rest())[1..], userKey)
      decreases |merge.Rest()|
    {
      merge.Next();
    }
  }

  /** One turn of the loop on what is left to merge. */
  lemma Turn(done: seq<Entry>, left: seq<Entry>, oldest: nat, bottom: bool)
    requires left != [] && Encodable(left)
    ensures var e := left[0];
            && e.key.num < MaxSeq
            && Encodable(left[1..]) && Encodable(SkipUser(left[1..], e.key.user))
            && done + Gc(left, oldest, bottom)
                 == if bottom && Collectable(e, oldest) then done + Gc(SkipUser(left[1..], e.key.user), oldest, bottom)
                    else done + [e] + Gc(left[1..], oldest, bottom)
  {
    assert left[0] in left && forall x :: x in left[1..] ==> x in left;
    SkippedAmong(left[1..], left[0].key.user);
    Regroup(done, left[0], Gc(left[1..], oldest, bottom));
  }

  lemma Regroup(a: seq<Entry>, e: Entry, b: seq<Entry>)
    ensures a + ([e] + b) == a + [e] + b
  {
  }

  lemma {:induction false} SkippedAmong(s: seq<Entry>, user: bytes)
    ensures forall x :: x in SkipUser(s, user) ==> x in s
  {
    if s != [] && s[0].key.user == user { SkippedAmong(s[1..], user); }
  }

  /** A full file is finished and the next one started. */
  method StartIfFull(outputs: seq<Table>, current: seq<Entry>, meta: TableMeta, nextFileNum: nat,
                     ghost done: seq<Entry>,
                     level: nat, ghost first: nat, full: seq<Entry> -> bool, sizeOf: seq<Entry> -> int)
    returns (outputs': seq<Table>, current': seq<Entry>, meta': TableMeta, nextFileNum': nat)
    requires Writing(outputs, current, meta, done, level, first, full, sizeOf) && nextFileNum == first + |outputs| + 1 && !full([])
    ensures Writing(outputs', current', meta', done, level, first, full, sizeOf) && nextFileNum' == first + |outputs'| + 1
    ensures !full(current')
  {
    hide *;
    if full(current) {
      Finishes(outputs, current, meta, done, level, first, full, sizeOf);
      outputs' := outputs + [Table(meta.(fileSize := sizeOf(current)), current)];
      assert first + |outputs'| == nextFileNum;
      current', meta', nextFileNum' := [], EmptyMeta(nextFileNum, level), nextFileNum + 1;
    } else {
      outputs', current', meta', nextFileNum' := outputs, current, meta, nextFileNum;
    }
  }

  /** Half way through a merge: what is written and what is still to come are
      together the collected whole. */
  ghost predicate Midway(merge: MergeIterator, all: seq<Entry>, oldest: nat, bottom: bool, done: seq<Entry>)
    reads merge, merge.rest, merge.valid
  {
    && merge.Valid() && merge.initialized && !merge.dedup
    && Encodable(merge.Rest()) && done + Gc(merge.Rest(), oldest, bottom) == Gc(all, oldest, bottom)
  }

  lemma Showing(merge: MergeIterator, all: seq<Entry>, oldest: nat, bottom: bool, done: seq<Entry>)
    requires Midway(merge, all, oldest, bottom, done)
    ensures merge.Valid() && (merge.curr == None <==> merge.Rest() == [])
    ensures merge.curr != None ==> merge.Rest()[0] == merge.curr.value && merge.curr.value.key.num < MaxSeq
    ensures merge.curr == None ==> done == Gc(all, oldest, bottom)
  {
    hide Emission;
    if merge.curr != None { assert merge.Rest()[0] in merge.Rest(); }
    assert Gc([], oldest, bottom) == [];
  }

  /** Past the entry the merge stands on, dropped or written. */
  method TakeEntry(merge: MergeIterator, ghost all: seq<Entry>, oldest: nat, bottom: bool, ghost done: seq<Entry>)
    returns (kept: bool)
    requires Midway(merge, all, oldest, bottom, done) && merge.curr != None
    modifies merge, merge.rest, merge.valid
    ensures var e := old(merge.curr).value;
            && kept == !(bottom && Collectable(e, oldest))
            && Midway(merge, all, oldest, bottom, if kept then done + [e] else done)
            && merge.Valid() && |merge.Rest()| < |old(merge.Rest())|
  {
    Showing(merge, all, oldest, bottom, done);
    hide Emission, MergeIterator.Valid, MergeIterator.Rest, Gc, SkipUser, Encodable;
    var e := merge.curr.value;
    ghost var left := merge.Rest();
    Turn(done, left, oldest, bottom);
    kept := !(bottom && Collectable(e, oldest));
    if kept { merge.Next(); } else { DropVersions(merge); }
  }

  /** One turn of the loop: rotate when full, then drop or write the entry the merge
      stands on. */
  method MergeStep(merge: MergeIterator, ghost all: seq<Entry>, oldest: nat, bottom: bool,
                   outputs: seq<Table>, current: seq<Entry>, meta: TableMeta, nextFileNum: nat, ghost done: seq<Entry>,
                   level: nat, ghost first: nat, full: seq<Entry> -> bool, sizeOf: seq<Entry> -> int)
    returns (outputs': seq<Table>, current': seq<Entry>, meta': TableMeta, nextFileNum': nat, ghost done': seq<Entry>)
    requires Midway(merge, all, oldest, bottom, done) && merge.curr != None && !full([])
    requires Writing(outputs, current, meta, done, level, first, full, sizeOf) && nextFileNum == first + |outputs| + 1
    modifies merge, merge.rest, merge.valid
    ensures Midway(merge, all, oldest, bottom, done') && merge.Valid() && |merge.Rest()| < |old(merge.Rest())|
    ensures Writing(outputs', current', meta', done', level, first, full, sizeOf) && nextFileNum' == first + |outputs'| + 1
  {
    Showing(merge, all, oldest, bottom, done);
    hide *;
    var e := merge.curr.value;
    outputs', current', meta', nextFileNum' := StartIfFull(outputs, current, meta, nextFileNum, done, level, first, full, sizeOf);
    var kept := TakeEntry(merge, all, oldest, bottom, done);
    done' := done;
    if kept {
      Grows(outputs', current', meta', done, level, first, full, sizeOf, e);
      current', meta', done' := current' + [e], Extended(meta', e), done + [e];
    }
  }

  /** The merge: full stands for the builder having reached its size limit,
      sizeOf for the size of a finished file. */
  method MergeInputs(inputs: seq<seq<Entry>>, targetLevel: nat, oldest: nat, bottom: bool, firstFileNum: nat,
                     full: seq<Entry> -> bool, sizeOf: seq<Entry> -> int)
    returns (outputs: seq<Table>, nextFileNum: nat)
    requires Sources(inputs) && Encodable(Emission(Union(inputs), false))
    requires !full([])
    ensures outputs != [] && nextFileNum == firstFileNum + |outputs|
    ensures WellCut(outputs, targetLevel, firstFileNum, full, sizeOf)
    ensures Contents(outputs) == Gc(Emission(Union(inputs), false), oldest, bottom)
  {
    var merge := StartMerge(inputs, oldest, bottom);
    hide *;
    ghost var all, done := Emission(Union(inputs), false), [];
    outputs, nextFileNum := [], firstFileNum + 1;
    var current, meta := [], EmptyMeta(firstFileNum, targetLevel);
    Starts(targetLevel, firstFileNum, full, sizeOf);
    Showing(merge, all, oldest, bottom, done);
    while merge.curr != None
      invariant fresh(merge) && fresh(merge.rest) && fresh(merge.valid) && Midway(merge, all, oldest, bottom, done)
      invariant nextFileNum == firstFileNum + |outputs| + 1
      invariant Writing(outputs, current, meta, done, targetLevel, firstFileNum, full, sizeOf)
      invariant merge.Valid()
      decreases |merge.Rest()|
    {
      outputs, current, meta, nextFileNum, done :=
        MergeStep(merge, all, oldest, bottom, outputs, current, meta, nextFileNum, done, targetLevel, firstFileNum, full, sizeOf);
    }
    Showing(merge, all, oldest, bottom, done);
    Finishes(outputs, current, meta, done, targetLevel, firstFileNum, full, sizeOf);
    outputs := outputs + [Table(meta.(fileSize := sizeOf(current)), current)];
  }

  method StartMerge(inputs: seq<seq<Entry>>, ghost oldest: nat, ghost bottom: bool) returns (merge: MergeIterator)
    requires Sources(inputs) && Encodable(Emission(Union(inputs), false))
    ensures fresh(merge) && fresh(merge.rest) && fresh(merge.valid)
    ensures Midway(merge, Emission(Union(inputs), false), oldest, bottom, [])
  {
    SourcesAreChildren(inputs);
    hide Emission, Gc, Encodable, MergeIterator.Valid, MergeIterator.Rest;
    merge := new MergeIterator(inputs, false);
    merge.SeekToFirst();
    ghost var g := Gc(merge.Rest(), oldest, bottom);
    assert [] + g == g;
  }
}
