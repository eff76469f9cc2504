/** The set of live tables by level, the obsolete file numbers and the log
    cutoff, with the manifest edits that rebuild them. */
module VersionSets {
  import opened Bytes

  const NumLevels: nat := 7

  /** Keys are encoded internal keys, empty for a table without entries. */
  datatype TableMeta = TableMeta(
    fileNum: nat,
    level: nat,
    smallestSeq: nat,
    largestSeq: nat,
    smallestKey: bytes,
    largestKey: bytes,
    fileSize: int)

  datatype Version = Version(levels: seq<seq<TableMeta>>, obsolete: set<nat>, walCutoff: nat)

  datatype Edit = AddSSTable(meta: TableMeta) | RemoveSSTable(fileNum: nat) | SetWALCutoff(num: nat)

  const EmptyVersion := Version([[], [], [], [], [], [], []], {}, 0)

  // ------------------------------------------------------- level operations

  /** Puts a table after every one whose smallest key is not greater. */
  function Place(level: seq<TableMeta>, m: TableMeta): seq<TableMeta> {
    if level == [] || Compare(level[|level| - 1].smallestKey, m.smallestKey) <= 0 then level + [m]
    else Place(level[..|level| - 1], m) + [level[|level| - 1]]
  }

  ghost predicate OrderedBySmallest(level: seq<TableMeta>) {
    forall i, j :: 0 <= i < j < |level| ==> Compare(level[i].smallestKey, level[j].smallestKey) <= 0
  }

  lemma {:induction false} PlaceKeepsOrder(level: seq<TableMeta>, m: TableMeta)
    requires OrderedBySmallest(level)
    ensures OrderedBySmallest(Place(level, m))
    ensures forall t :: t in Place(level, m) ==> t == m || t in level
    decreases |level|
  {
    if level == [] {
    } else {
      var last := level[|level| - 1];
      assert level == level[..|level| - 1] + [last];
      if Compare(last.smallestKey, m.smallestKey) <= 0 {
        forall i | 0 <= i < |level| ensures Compare(level[i].smallestKey, m.smallestKey) <= 0 {
          if i < |level| - 1 { CompareTransitive(level[i].smallestKey, last.smallestKey, m.smallestKey); }
        }
      } else {
        var front := level[..|level| - 1];
        PlaceKeepsOrder(front, m);
        var p := Place(front, m);
        CompareFlips(last.smallestKey, m.smallestKey);
        forall i | 0 <= i < |p| ensures Compare(p[i].smallestKey, last.smallestKey) <= 0 {
          assert p[i] in p;
          if p[i] != m { assert p[i] in front; }
        }
      }
    }
  }

  /** The first table numbered n, out of the list. */
  function Without(level: seq<TableMeta>, n: nat): seq<TableMeta> {
    if level == [] then []
    else if level[0].fileNum == n then level[1..]
    else [level[0]] + Without(level[1..], n)
  }

  predicate Holds(level: seq<TableMeta>, n: nat) {
    exists i :: 0 <= i < |level| && level[i].fileNum == n
  }

  function WithoutIn(levels: seq<seq<TableMeta>>, n: nat): (r: seq<seq<TableMeta>>)
    ensures |r| == |levels|
  {
    if levels == [] then []
    else if Holds(levels[0], n) then [Without(levels[0], n)] + levels[1..]
    else [levels[0]] + WithoutIn(levels[1..], n)
  }

  function All(levels: seq<seq<TableMeta>>): seq<TableMeta> {
    if levels == [] then [] else levels[0] + All(levels[1..])
  }

  function Overlapping(level: seq<TableMeta>, start: bytes, end: bytes): seq<TableMeta> {
    if level == [] then []
    else
      var t := level[|level| - 1];
      var front := Overlapping(level[..|level| - 1], start, end);
      if Compare(t.largestKey, start) < 0 || Compare(t.smallestKey, end) > 0 then front else front + [t]
  }

  // ----------------------------------------------------- version operations

  ghost predicate WellFormed(v: Version) {
    && |v.levels| == NumLevels
    && (forall l :: 1 <= l < NumLevels ==> OrderedBySmallest(v.levels[l]))
    && (forall l, t :: 0 <= l < NumLevels && t in v.levels[l] ==> t.level == l)
  }

  function Add(v: Version, m: TableMeta): Version
    requires |v.levels| == NumLevels
  {
    if m.level >= NumLevels then v
    else if m.level == 0 then v.(levels := v.levels[0 := v.levels[0] + [m]])
    else v.(levels := v.levels[m.level := Place(v.levels[m.level], m)])
  }

  function Remove(v: Version, n: nat): Version {
    v.(levels := WithoutIn(v.levels, n), obsolete := v.obsolete + {n})
  }

  function Cutoff(v: Version, num: nat): Version {
    if num > v.walCutoff then v.(walCutoff := num) else v
  }

  function Apply(v: Version, e: Edit): (r: Version)
    requires |v.levels| == NumLevels
    ensures |r.levels| == NumLevels
  {
    match e
    case AddSSTable(m) => Add(v, m)
    case RemoveSSTable(n) => Remove(v, n)
    case SetWALCutoff(c) => Cutoff(v, c)
  }

  function Replay(v: Version, log: seq<Edit>): (r: Version)
    requires |v.levels| == NumLevels
    ensures |r.levels| == NumLevels
    decreases |log|
  {
    if log == [] then v else Apply(Replay(v, log[..|log| - 1]), log[|log| - 1])
  }

  // ------------------------------------------------------------------ lemmas

  /** File numbers do not repeat. */
  ghost predicate Distinct(ts: seq<TableMeta>) {
    forall i, j :: 0 <= i < j < |ts| ==> ts[i].fileNum != ts[j].fileNum
  }

  ghost predicate InsertedAt(s: seq<TableMeta>, m: TableMeta, p: nat, r: seq<TableMeta>) {
    p <= |s| && r == s[..p] + [m] + s[p..]
  }

  lemma {:induction false} PlaceInserts(level: seq<TableMeta>, m: TableMeta) returns (p: nat)
    ensures InsertedAt(level, m, p, Place(level, m))
    decreases |level|
  {
    if level == [] || Compare(level[|level| - 1].smallestKey, m.smallestKey) <= 0 {
      p := |level|;
    } else {
      var front := level[..|level| - 1];
      p := PlaceInserts(front, m);
      assert level[p..] == front[p..] + [level[|level| - 1]] && level[..p] == front[..p];
    }
  }

  lemma {:induction false} AllInserts(levels: seq<seq<TableMeta>>, l: nat, m: TableMeta, level: seq<TableMeta>,
                                      p: nat)
    returns (q: nat)
    requires l < |levels| && InsertedAt(levels[l], m, p, level)
    ensures InsertedAt(All(levels), m, q, All(levels[l := level]))
  {
    var s := All(levels);
    if l == 0 {
      assert levels[0 := level][1..] == levels[1..];
      var rest := All(levels[1..]);
      assert s[..p] == levels[0][..p] && s[p..] == levels[0][p..] + rest;
      q := p;
    } else {
      assert levels[l := level][1..] == levels[1..][l - 1 := level];
      var r := AllInserts(levels[1..], l - 1, m, level, p);
      var rest := All(levels[1..]);
      q := |levels[0]| + r;
      assert s[..q] == levels[0] + rest[..r] && s[q..] == rest[r..];
    }
  }

  lemma InsertedMembers(s: seq<TableMeta>, m: TableMeta, p: nat, r: seq<TableMeta>)
    requires InsertedAt(s, m, p, r)
    ensures forall t :: t in r <==> t in s || t == m
  {
    assert s == s[..p] + s[p..];
    forall t ensures t in r <==> t in s || t == m {
      assert t in r <==> t in s[..p] || t == m || t in s[p..];
      assert t in s <==> t in s[..p] || t in s[p..];
    }
  }

  lemma InsertedFacts(s: seq<TableMeta>, m: TableMeta, p: nat, r: seq<TableMeta>)
    requires InsertedAt(s, m, p, r)
    ensures forall t :: t in r <==> t in s || t == m
    ensures Distinct(s) && (forall t :: t in s ==> t.fileNum != m.fileNum) ==> Distinct(r)
  {
    InsertedMembers(s, m, p, r);
    if Distinct(s) && forall t :: t in s ==> t.fileNum != m.fileNum {
      forall i, j | 0 <= i < j < |r| ensures r[i].fileNum != r[j].fileNum {
        assert i != p ==> r[i] == s[if i < p then i else i - 1];
        assert j != p ==> r[j] == s[if j < p then j else j - 1];
      }
    }
  }

  /** Adding a table puts it among the live tables and moves no other. */
  lemma AddTables(v: Version, m: TableMeta)
    requires WellFormed(v) && m.level < NumLevels
    ensures WellFormed(Add(v, m))
    ensures forall t :: t in All(Add(v, m).levels) <==> t in All(v.levels) || t == m
    ensures Distinct(All(v.levels)) && (forall t :: t in All(v.levels) ==> t.fileNum != m.fileNum) ==> Distinct(All(Add(v, m).levels))
  {
    var before, level := v.levels[m.level], Add(v, m).levels[m.level];
    var p: nat := |before|;
    if m.level > 0 {
      PlaceKeepsOrder(before, m);
      p := PlaceInserts(before, m);
    }
    InsertedFacts(before, m, p, level);
    var q := AllInserts(v.levels, m.level, m, level, p);
    InsertedFacts(All(v.levels), m, q, All(v.levels[m.level := level]));
  }

  lemma {:induction false} WithoutIsSublist(s: seq<TableMeta>, n: nat)
    ensures forall t :: t in Without(s, n) ==> t in s
    ensures OrderedBySmallest(s) ==> OrderedBySmallest(Without(s, n))
  {
    if s != [] && s[0].fileNum != n {
      WithoutIsSublist(s[1..], n);
      var w := Without(s[1..], n);
      if OrderedBySmallest(s) {
        forall j | 0 <= j < |w| ensures Compare(s[0].smallestKey, w[j].smallestKey) <= 0 { assert w[j] in s[1..]; }
      }
    }
  }

  lemma {:induction false} WithoutDistinct(s: seq<TableMeta>, n: nat)
    requires Distinct(s)
    ensures Distinct(Without(s, n))
    ensures forall t :: t in Without(s, n) <==> t in s && t.fileNum != n
  {
    if s != [] {
      assert s == [s[0]] + s[1..];
      if s[0].fileNum != n {
        WithoutDistinct(s[1..], n);
        var w := Without(s[1..], n);
        assert forall j :: 0 <= j < |w| ==> w[j] in s[1..];
      }
    }
  }

  /** Level by level or flattened, removal takes out the same table. */
  lemma {:induction false} WithoutInAll(levels: seq<seq<TableMeta>>, n: nat)
    ensures All(WithoutIn(levels, n)) == Without(All(levels), n)
    decreases |levels|
  {
    if levels != [] {
      var rest := All(levels[1..]);
      WithoutConcat(levels[0], rest, n);
      if Holds(levels[0], n) {
        assert WithoutIn(levels, n)[1..] == levels[1..];
      } else {
        WithoutInAll(levels[1..], n);
        assert WithoutIn(levels, n)[1..] == WithoutIn(levels[1..], n);
      }
    }
  }

  lemma {:induction false} WithoutConcat(a: seq<TableMeta>, b: seq<TableMeta>, n: nat)
    ensures Without(a + b, n) == if Holds(a, n) then Without(a, n) + b else a + Without(b, n)
  {
    if a == [] {
      assert a + b == b;
    } else {
      assert (a + b)[1..] == a[1..] + b;
      assert Holds(a, n) <==> a[0].fileNum == n || Holds(a[1..], n) by {
        if Holds(a, n) && a[0].fileNum != n {
          var i :| 0 <= i < |a| && a[i].fileNum == n;
          assert a[1..][i - 1].fileNum == n;
        }
        if Holds(a[1..], n) {
          var i :| 0 <= i < |a[1..]| && a[1..][i].fileNum == n;
          assert a[i + 1].fileNum == n;
        }
      }
      if a[0].fileNum != n { WithoutConcat(a[1..], b, n); }
    }
  }

  lemma {:induction false} WithoutInLevel(levels: seq<seq<TableMeta>>, n: nat, l: nat)
    requires l < |levels|
    ensures WithoutIn(levels, n)[l] in {levels[l], Without(levels[l], n)}
  {
    if !Holds(levels[0], n) && l > 0 { WithoutInLevel(levels[1..], n, l - 1); }
  }

  /** Removing by number takes out exactly the table of that number. */
  lemma RemoveTables(v: Version, n: nat)
    requires WellFormed(v)
    ensures WellFormed(Remove(v, n))
    ensures Distinct(All(v.levels)) ==>
              && Distinct(All(Remove(v, n).levels))
              && forall t :: t in All(Remove(v, n).levels) <==> t in All(v.levels) && t.fileNum != n
  {
    WithoutInAll(v.levels, n);
    if Distinct(All(v.levels)) { WithoutDistinct(All(v.levels), n); }
    forall l | 0 <= l < NumLevels
      ensures l > 0 ==> OrderedBySmallest(Remove(v, n).levels[l])
      ensures forall t :: t in Remove(v, n).levels[l] ==> t.level == l
    {
      WithoutInLevel(v.levels, n, l);
      WithoutIsSublist(v.levels[l], n);
    }
  }

  lemma {:induction false} AllByLevel(levels: seq<seq<TableMeta>>, t: TableMeta)
    ensures t in All(levels) <==> exists l :: 0 <= l < |levels| && t in levels[l]
  {
    if levels != [] {
      AllByLevel(levels[1..], t);
      if l :| 0 <= l < |levels| && t in levels[l] {
        if l > 0 { assert levels[1..][l - 1] == levels[l]; }
      }
      if t in All(levels[1..]) {
        var l :| 0 <= l < |levels[1..]| && t in levels[1..][l];
        assert t in levels[l + 1];
      }
    }
  }

  lemma {:induction false} ReplayAppend(v: Version, a: seq<Edit>, b: seq<Edit>)
    requires |v.levels| == NumLevels
    ensures Replay(v, a + b) == Replay(Replay(v, a), b)
    decreases |b|
  {
    if b == [] {
      assert a + b == a;
    } else {
      assert (a + b)[..|a + b| - 1] == a + b[..|b| - 1];
      ReplayAppend(v, a, b[..|b| - 1]);
    }
  }

  // -------------------------------------------------- the rewritten manifest

  function AddAll(ts: seq<TableMeta>): seq<Edit> {
    seq(|ts|, i requires 0 <= i < |ts| => AddSSTable(ts[i]))
  }

  /** The records CompactManifest writes: every live table, then the cutoff. */
  function Rewritten(v: Version): seq<Edit> {
    AddAll(All(v.levels)) + [SetWALCutoff(v.walCutoff)]
  }

  /** Replaying one level's tables in order rebuilds that level. */
  lemma {:induction false} ReplayLevel(v: Version, ts: seq<TableMeta>, l: nat)
    requires |v.levels| == NumLevels && l < NumLevels && v.levels[l] == []
    requires forall t :: t in ts ==> t.level == l
    requires l > 0 ==> OrderedBySmallest(ts)
    ensures Replay(v, AddAll(ts)) == v.(levels := v.levels[l := ts])
    decreases |ts|
  {
    if ts == [] {
      assert v.levels[l := ts] == v.levels;
    } else {
      var front, last := ts[..|ts| - 1], ts[|ts| - 1];
      assert AddAll(ts)[..|ts| - 1] == AddAll(front);
      ReplayLevel(v, front, l);
      var w := Replay(v, AddAll(front));
      assert w.levels[l] == front;
      assert last in ts;
      if l > 0 {
        assert Place(front, last) == front + [last];
      }
      assert front + [last] == ts;
      assert v.levels[l := front][l := ts] == v.levels[l := ts];
    }
  }

  lemma FilledUpTo(a: seq<seq<TableMeta>>, b: seq<seq<TableMeta>>, l: nat)
    requires l < |a| == |b| && b[..l] == a[..l]
    ensures b[l := a[l]][..l + 1] == a[..l + 1]
  {
    var c := b[l := a[l]];
    forall i | 0 <= i <= l ensures c[i] == a[i] {
      if i < l { assert b[i] == b[..l][i] == a[..l][i]; }
    }
  }

  lemma {:induction false} ReplayLevels(v: Version, l: nat, w: Version)
    requires WellFormed(v) && l <= NumLevels
    requires |w.levels| == NumLevels && w.levels[..l] == v.levels[..l]
    requires forall i :: l <= i < NumLevels ==> w.levels[i] == []
    ensures Replay(w, AddAll(All(v.levels[l..]))) == w.(levels := v.levels)
    decreases NumLevels - l
  {
    if l == NumLevels {
      assert AddAll(All(v.levels[l..])) == [];
      assert w.levels == w.levels[..l] && v.levels == v.levels[..l];
    } else {
      var ts, rest := v.levels[l], All(v.levels[l + 1..]);
      assert v.levels[l..][1..] == v.levels[l + 1..];
      assert All(v.levels[l..]) == ts + rest;
      assert AddAll(ts + rest) == AddAll(ts) + AddAll(rest);
      ReplayAppend(w, AddAll(ts), AddAll(rest));
      ReplayLevel(w, ts, l);
      var w' := w.(levels := w.levels[l := ts]);
      FilledUpTo(v.levels, w.levels, l);
      ReplayLevels(v, l + 1, w');
    }
  }

  /** Rewriting the manifest loses nothing but the obsolete numbers. */
  lemma RewriteReplays(v: Version)
    requires WellFormed(v)
    ensures Replay(EmptyVersion, Rewritten(v)) == v.(obsolete := {})
  {
    ReplayLevels(v, 0, EmptyVersion);
    assert v.levels[0..] == v.levels;
    ReplayAppend(EmptyVersion, AddAll(All(v.levels)), [SetWALCutoff(v.walCutoff)]);
    var w := Replay(EmptyVersion, AddAll(All(v.levels)));
    assert Replay(w, [SetWALCutoff(v.walCutoff)]) == Apply(Replay(w, []), SetWALCutoff(v.walCutoff)) by {
      assert [SetWALCutoff(v.walCutoff)][..0] == [];
    }
  }

  // -------------------------------------------------------------- the object

  class VersionSet {
    const levels: array<seq<TableMeta>>
    var obsolete: set<nat>
    var walCutoff: nat

    ghost predicate Valid()
      reads this, levels
    {
      levels.Length == NumLevels && WellFormed(Abs())
    }

    ghost function Abs(): Version
      reads this, levels
    {
      Version(levels[..], obsolete, walCutoff)
    }

    constructor ()
      ensures Valid() && Abs() == EmptyVersion && fresh(levels)
    {
      levels := new seq<TableMeta>[NumLevels](_ => []);
      obsolete, walCutoff := {}, 0;
      new;
      assert levels[..] == EmptyVersion.levels;
    }

    /** The version a manifest has been replayed to. */
    constructor Replayed(v: Version)
      requires WellFormed(v)
      ensures Valid() && Abs() == v && fresh(levels)
    {
      levels := new seq<TableMeta>[NumLevels](i requires 0 <= i < NumLevels => v.levels[i]);
      obsolete, walCutoff := v.obsolete, v.walCutoff;
      new;
      assert levels[..] == v.levels;
    }

    /** False is the source's "invalid level" error. */
    method AddTable(meta: TableMeta) returns (ok: bool)
      requires Valid()
      modifies levels
      ensures Valid() && Abs() == Add(old(Abs()), meta)
      ensures ok <==> meta.level < NumLevels
    {
      if meta.level >= NumLevels { return false; }
      AddTables(Abs(), meta);
      if meta.level > 0 {
        levels[meta.level] := Place(levels[meta.level], meta);
      } else {
        levels[meta.level] := levels[meta.level] + [meta];
      }
      return true;
    }

    method RemoveTable(fileNum: nat)
      requires Valid()
      modifies this`obsolete, levels
      ensures Valid() && Abs() == Remove(old(Abs()), fileNum)
    {
      ghost var was := levels[..];
      ghost var target := Remove(Abs(), fileNum);
      RemoveTables(Abs(), fileNum);
      obsolete := obsolete + {fileNum};
      for l := 0 to NumLevels
        invariant levels[..] == was && obsolete == target.obsolete
        invariant forall i :: 0 <= i < l ==> !Holds(was[i], fileNum)
      {
        var files := levels[l];
        var i := IndexOf(files, fileNum);
        if i < |files| {
          WithoutAt(files, i, fileNum);
          assert Holds(was[l], fileNum);
          FirstHolder(was, fileNum, l);
          levels[l] := files[..i] + files[i + 1..];
          assert levels[..] == was[l := Without(files, fileNum)];
          assert Abs() == target;
          return;
        }
      }
      FirstHolder(was, fileNum, NumLevels);
      assert Abs() == target;
    }

    static method IndexOf(files: seq<TableMeta>, fileNum: nat) returns (i: nat)
      ensures i <= |files| && (i < |files| ==> files[i].fileNum == fileNum)
      ensures forall j :: 0 <= j < i ==> files[j].fileNum != fileNum
    {
      i := 0;
      while i < |files|
        invariant i <= |files| && forall j :: 0 <= j < i ==> files[j].fileNum != fileNum
      {
        if files[i].fileNum == fileNum { return; }
        i := i + 1;
      }
    }

    method SetWALCutoff(num: nat)
      requires Valid()
      modifies this`walCutoff
      ensures Valid() && Abs() == Cutoff(old(Abs()), num)
    {
      if num > walCutoff { walCutoff := num; }
    }

    /** An obsolete number whose file is gone. */
    method Forget(fileNum: nat)
      requires Valid()
      modifies this`obsolete
      ensures Valid() && Abs() == old(Abs()).(obsolete := old(obsolete) - {fileNum})
    {
      obsolete := obsolete - {fileNum};
    }

    method GetAllTables() returns (all: seq<TableMeta>)
      requires Valid()
      ensures all == All(Abs().levels)
    {
      hide WellFormed, OrderedBySmallest;
      all := [];
      ghost var ls := levels[..];
      assert ls[0..] == ls;
      for l := 0 to NumLevels
        invariant all + All(ls[l..]) == All(ls)
      {
        assert ls[l..][1..] == ls[l + 1..];
        assert all + (ls[l] + All(ls[l + 1..])) == all + ls[l] + All(ls[l + 1..]);
        all := all + levels[l];
      }
      assert ls[NumLevels..] == [] && all + [] == all;
    }

    method GetOverlappingInputs(level: nat, start: bytes, end: bytes) returns (inputs: seq<TableMeta>)
      requires Valid() && level < NumLevels
      ensures inputs == Overlapping(Abs().levels[level], start, end)
    {
      inputs := [];
      var files := levels[level];
      for i := 0 to |files|
        invariant inputs == Overlapping(files[..i], start, end)
      {
        var t := files[i];
        assert files[..i + 1][..i] == files[..i];
        if !(Compare(t.largestKey, start) < 0 || Compare(t.smallestKey, end) > 0) {
          inputs := inputs + [t];
        }
      }
      assert files[..|files|] == files;
    }
  }

  lemma {:induction false} FirstHolder(levels: seq<seq<TableMeta>>, n: nat, l: nat)
    requires l <= |levels| && forall i :: 0 <= i < l ==> !Holds(levels[i], n)
    ensures l < |levels| && Holds(levels[l], n) ==> WithoutIn(levels, n) == levels[l := Without(levels[l], n)]
    ensures l == |levels| ==> WithoutIn(levels, n) == levels
  {
    if l > 0 {
      FirstHolder(levels[1..], n, l - 1);
      assert levels == [levels[0]] + levels[1..];
      if l < |levels| && Holds(levels[l], n) {
        assert levels[l := Without(levels[l], n)] == [levels[0]] + levels[1..][l - 1 := Without(levels[l], n)];
      }
    } else if levels != [] {
      assert levels[0 := Without(levels[0], n)] == [Without(levels[0], n)] + levels[1..];
    }
  }

  lemma {:induction false} WithoutAt(s: seq<TableMeta>, i: nat, n: nat)
    requires i < |s| && s[i].fileNum == n && forall j :: 0 <= j < i ==> s[j].fileNum != n
    ensures Without(s, n) == s[..i] + s[i + 1..]
  {
    if i > 0 {
      WithoutAt(s[1..], i - 1, n);
      assert s[..i] + s[i + 1..] == [s[0]] + (s[1..][..i - 1] + s[1..][i..]);
    }
  }
}
