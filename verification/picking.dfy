/** Which tables a compaction takes, said of the version alone. */
module Picking {
  import opened Bytes
  import opened InternalKeys
  import opened Versions
  import opened VersionSets
  import opened Reads
  import opened Recoveries
  import opened Compactions
  import opened CompactionCommits
  import opened Engine
  import opened EngineInvariant
  import opened EngineNumbers
  import opened EngineRuns

  // ------------------------------------------------------------- what overlaps

  /** Ranges meet, the bounds compared byte by byte. */
  predicate Meets(t: TableMeta, lo: bytes, hi: bytes) {
    Compare(t.largestKey, lo) >= 0 && Compare(t.smallestKey, hi) <= 0
  }

  lemma {:induction false} OverlappingIff(level: seq<TableMeta>, lo: bytes, hi: bytes)
    ensures forall t :: multiset(Overlapping(level, lo, hi))[t] == if Meets(t, lo, hi) then multiset(level)[t] else 0
    decreases |level|
  {
    hide Compare;
    if level != [] {
      var front, last := level[..|level| - 1], level[|level| - 1];
      OverlappingIff(front, lo, hi);
      assert level == front + [last];
      assert multiset(level) == multiset(front) + multiset{last};
      var r := Overlapping(front, lo, hi);
      assert multiset(r + [last]) == multiset(r) + multiset{last};
    }
  }

  // ------------------------------------------------------- the range given up

  /** The tables a level gives up: all of level 0, the first of a deeper one. */
  function GivenUp(v: Version, level: nat): seq<TableMeta>
    requires level < |v.levels| && v.levels[level] != []
  {
    if level == 0 then v.levels[0] else v.levels[level][..1]
  }

  /** By the key comparator. */
  ghost predicate LeastKey(ts: seq<TableMeta>, lo: bytes) {
    (exists m :: m in ts && m.smallestKey == lo) && forall m :: m in ts ==> CompareKeys(lo, m.smallestKey) <= 0
  }

  ghost predicate GreatestKey(ts: seq<TableMeta>, hi: bytes) {
    (exists m :: m in ts && m.largestKey == hi) && forall m :: m in ts ==> CompareKeys(hi, m.largestKey) >= 0
  }

  /** A whole encoded key, or none for a table without entries. */
  predicate KeyOrNone(k: bytes) { k == [] || Decode(k).Ok? }

  /** The bounds every writer records: keys in order, or none at all. */
  ghost predicate Bounded(m: TableMeta) {
    && KeyOrNone(m.smallestKey) && KeyOrNone(m.largestKey)
    && (m.smallestKey == [] <==> m.largestKey == []) && CompareKeys(m.smallestKey, m.largestKey) <= 0
  }

  ghost predicate AllBounded(ts: seq<TableMeta>) { forall m :: m in ts ==> Bounded(m) }

  lemma TiesAreEqual(a: bytes, b: bytes)
    requires KeyOrNone(a) && KeyOrNone(b) && CompareKeys(a, b) <= 0 && CompareKeys(b, a) <= 0
    ensures a == b
  {
    hide CompareKeys;
    ComparatorFlips(a, b);
    PaddedTrailer([]);
    assert Padded(a) == Padded(b);
  }

  lemma {:induction false} BoundsAmong(ts: seq<TableMeta>)
    requires ts != []
    ensures exists m :: m in ts && m.smallestKey == SmallestOf(ts)
    ensures exists m :: m in ts && m.largestKey == LargestOf(ts)
    decreases |ts|
  {
    hide CompareKeys;
    if |ts| == 1 {
      assert ts[0] in ts;
    } else {
      var front, last := ts[..|ts| - 1], ts[|ts| - 1];
      BoundsAmong(front);
      BoundsStep(ts);
      var a :| a in front && a.smallestKey == SmallestOf(front);
      var b :| b in front && b.largestKey == LargestOf(front);
      assert a in ts && b in ts && last in ts;
    }
  }

  lemma BoundsAre(ts: seq<TableMeta>, lo: bytes, hi: bytes)
    requires ts != [] && AllBounded(ts) && LeastKey(ts, lo) && GreatestKey(ts, hi)
    ensures SmallestOf(ts) == lo && LargestOf(ts) == hi
  {
    hide CompareKeys, SmallestOf, LargestOf, Decode;
    BoundsAmong(ts);
    var a :| a in ts && a.smallestKey == SmallestOf(ts);
    var b :| b in ts && b.largestKey == LargestOf(ts);
    var m :| m in ts && m.smallestKey == lo;
    var n :| n in ts && n.largestKey == hi;
    SmallestIsLeast(ts, m);
    LargestIsGreatest(ts, n);
    ComparatorFlips(LargestOf(ts), n.largestKey);
    ComparatorFlips(hi, b.largestKey);
    TiesAreEqual(lo, a.smallestKey);
    TiesAreEqual(hi, b.largestKey);
  }

  /** The inputs, with their multiplicity: what the level gives up comes first and
      whole, then exactly the tables one level down whose byte range meets its
      range, which runs from the comparator's least smallest key to its greatest
      largest key. */
  lemma PickedExactly(v: Version, level: nat, lo: bytes, hi: bytes)
    requires |v.levels| == NumLevels && level < NumLevels - 1 && v.levels[level] != []
    requires AllBounded(GivenUp(v, level)) && LeastKey(GivenUp(v, level), lo) && GreatestKey(GivenUp(v, level), hi)
    ensures var up, ins := GivenUp(v, level), Inputs(v, level).value;
            && |ins| >= |up| && ins[..|up|] == up
            && forall t :: multiset(ins[|up|..])[t]
                             == if Meets(t, lo, hi) then multiset(v.levels[level + 1])[t] else 0
  {
    hide CompareKeys, SmallestOf, LargestOf, Bounded, Meets, Overlapping;
    var up := GivenUp(v, level);
    BoundsAre(up, lo, hi);
    if level > 0 { BoundsAre([v.levels[level][0]], lo, hi); }
    OverlappingIff(v.levels[level + 1], lo, hi);
    var below := Overlapping(v.levels[level + 1], lo, hi);
    assert Inputs(v, level) == Some(up + below) by { OneTableBounds(v, level); }
    assert (up + below)[..|up|] == up && (up + below)[|up|..] == below;
  }

  lemma OneTableBounds(v: Version, level: nat)
    requires |v.levels| == NumLevels && level < NumLevels - 1 && v.levels[level] != []
    ensures var up := GivenUp(v, level);
            Inputs(v, level) == Some(up + Overlapping(v.levels[level + 1], SmallestOf(up), LargestOf(up)))
  {
    hide CompareKeys, Overlapping;
    if level > 0 { assert v.levels[level][..1] == [v.levels[level][0]]; }
  }

  lemma DescribedIsBounded(m: TableMeta, s: seq<Entry>)
    requires Describes(m, s) && Sorted(s)
    ensures Bounded(m)
  {
    hide CompareKeys, Encode, Decode, Before;
    if s == [] {
      ComparatorFlips([], []);
    } else {
      assert s[0] in s && s[|s| - 1] in s;
      EncodeDecode(s[0].key);
      EncodeDecode(s[|s| - 1].key);
      assert |Encode(s[0].key)| > 0 && |Encode(s[|s| - 1].key)| > 0;
      ComparatorOnEncodings(s[0].key, s[|s| - 1].key);
    }
  }

  lemma ReachableBounded(s: State)
    requires s.Serving? && Reachable(s)
    ensures |s.db.version.levels| == NumLevels && AllBounded(All(s.db.version.levels))
    ensures forall l, t :: 0 <= l < NumLevels && t in s.db.version.levels[l] ==> Bounded(t) && t in All(s.db.version.levels)
  {
    hide Reachable, Inv, ManifestOk, Retired, MaxNum, Describes, Bounded;
    ReachableOk(s);
    Numbers(s);
    LivePresent(s);
    var live := All(s.db.version.levels);
    forall m | m in live ensures Bounded(m) {
      assert GoodTable(m, s.disk.files[m.fileNum]);
      DescribedIsBounded(m, s.disk.files[m.fileNum]);
    }
    forall l, t | 0 <= l < NumLevels && t in s.db.version.levels[l] ensures t in live {
      AllByLevel(s.db.version.levels, t);
    }
  }

  lemma LivePresent(s: State)
    requires s.Serving? && Inv(s)
    ensures Present(All(s.db.version.levels), s.disk.files)
  {
    hide ManifestOk, JobOk, FlushOk, WalOk, Faithful, MemsOk, Retired, Healthy, Present;
  }

  /** In every reachable state the inputs are what PickedExactly says, and no table
      is taken twice. */
  lemma PicksWhatMeets(s: State, level: nat, lo: bytes, hi: bytes)
    requires s.Serving? && Reachable(s) && |s.db.version.levels| == NumLevels
    requires level < NumLevels - 1 && s.db.version.levels[level] != []
    requires LeastKey(GivenUp(s.db.version, level), lo) && GreatestKey(GivenUp(s.db.version, level), hi)
    ensures var levels, ins := s.db.version.levels, Inputs(s.db.version, level).value;
            && (forall t :: t in ins ==> t in levels[level] || t in levels[level + 1])
            && (forall t :: t in levels[level] ==> (t in ins <==> level == 0 || t == levels[level][0]))
            && (forall t :: t in levels[level + 1] ==> (t in ins <==> Meets(t, lo, hi)))
  {
    hide Reachable, CompareKeys, Meets, Bounded, Overlapping, SmallestOf, LargestOf;
    var v := s.db.version;
    var up, ins := GivenUp(v, level), Inputs(v, level).value;
    ReachableBounded(s);
    WellFormedVersion(s);
    PickedExactly(v, level, lo, hi);
    var below := ins[|up|..];
    assert ins == up + below;
    forall t ensures t in below <==> t in v.levels[level + 1] && Meets(t, lo, hi) {
      assert t in below <==> multiset(below)[t] > 0;
    }
    forall t | t in v.levels[level] ensures t !in v.levels[level + 1] { }
    if level > 0 { assert up == [v.levels[level][0]]; }
  }

  lemma WellFormedVersion(s: State)
    requires s.Serving? && Reachable(s)
    ensures WellFormed(s.db.version) && Distinct(All(s.db.version.levels))
  {
    hide Reachable, Inv, ManifestOk, Retired, MaxNum;
    ReachableOk(s);
    Numbers(s);
  }

  // ------------------------------------------------------------ enclosing tables

  /** Encoded key a is not before encoded key b byte by byte, for keys whose user
      key a is past user key b: true at once unless the one extends the other, and
      then decided between the extension and b's trailer. */
  predicate Clears(a: bytes, b: bytes) {
    var ua, ub := ExtractUserKey(a), ExtractUserKey(b);
    HasPrefix(ua, ub) ==> Compare(a[|ub|..], b[|ub|..]) >= 0
  }

  /** The table's user keys reach past the range on both sides. */
  predicate Encloses(t: TableMeta, lo: bytes, hi: bytes) {
    && Compare(ExtractUserKey(t.smallestKey), ExtractUserKey(lo)) < 0
    && Compare(ExtractUserKey(hi), ExtractUserKey(t.largestKey)) < 0
  }

  /** Comparing past a difference. */
  lemma {:induction false} CompareDecided(a: bytes, b: bytes, x: bytes, y: bytes)
    requires Compare(a, b) > 0 && !HasPrefix(a, b)
    ensures Compare(a + x, b + y) > 0
    decreases |a|
  {
    assert a != [] && b != [];
    assert (a + x)[0] == a[0] && (b + y)[0] == b[0];
    if a[0] == b[0] {
      assert HasPrefix(a[1..], b[1..]) ==> HasPrefix(a, b);
      CompareDecided(a[1..], b[1..], x, y);
      assert (a + x)[1..] == a[1..] + x && (b + y)[1..] == b[1..] + y;
    }
  }

  lemma ClearsIff(a: bytes, b: bytes)
    requires |a| >= 8 && |b| >= 8 && Compare(ExtractUserKey(b), ExtractUserKey(a)) < 0
    ensures Compare(a, b) >= 0 <==> Clears(a, b)
  {
    var ua, ub := ExtractUserKey(a), ExtractUserKey(b);
    CompareFlips(ua, ub);
    assert a == ua + a[|ua|..] && b == ub + b[|ub|..];
    if HasPrefix(ua, ub) {
      CompareAfterPrefix(ub, a[|ub|..], b[|ub|..]);
      assert a == ub + a[|ub|..];
    } else {
      CompareDecided(ua, ub, a[|ua|..], b[|ub|..]);
    }
  }

  /** An extension whose first byte is above every kind byte clears. */
  lemma TextClears(a: bytes, b: bytes)
    requires Decode(b).Ok? && |a| >= 8 && Compare(ExtractUserKey(b), ExtractUserKey(a)) < 0
    requires var ua, ub := ExtractUserKey(a), ExtractUserKey(b); HasPrefix(ua, ub) && |ub| < |ua| ==> ua[|ub|] > 2
    ensures Clears(a, b)
  {
    var ua, ub := ExtractUserKey(a), ExtractUserKey(b);
    if HasPrefix(ua, ub) {
      CompareFlips(ua, ub);
      assert |ub| < |ua|;
      assert a[|ub|] == ua[|ub|];
      FirstTrailerByte(b);
    }
  }

  /** The trailer's first byte is the kind. */
  lemma FirstTrailerByte(b: bytes)
    requires Decode(b).Ok?
    ensures |b| >= 8 && b[|b| - 8] == KindByte(Decode(b).key.kind) <= 2
  {
    var t := b[|b| - 8..|b| - 8 + 8];
    assert GetLE(t) == t[0] + 256 * GetLE(t[1..]);
    assert U64At(b, |b| - 8) % 256 == t[0];
  }

  /** The range given up runs upwards. */
  lemma RangeAscends(ts: seq<TableMeta>, lo: bytes, hi: bytes)
    requires AllBounded(ts) && LeastKey(ts, lo) && GreatestKey(ts, hi)
    ensures CompareKeys(lo, hi) <= 0
    ensures KeyOrNone(lo) && KeyOrNone(hi)
  {
    hide CompareKeys, Decode;
    var m :| m in ts && m.largestKey == hi;
    var n :| n in ts && n.smallestKey == lo;
    assert Bounded(m) && Bounded(n);
    ComparatorTransitive(lo, m.smallestKey, m.largestKey);
  }

  lemma UserKeysFollow(a: bytes, b: bytes)
    requires CompareKeys(a, b) <= 0
    ensures Compare(ExtractUserKey(a), ExtractUserKey(b)) <= 0
  {
  }

  lemma EnclosingMeets(t: TableMeta, lo: bytes, hi: bytes)
    requires Bounded(t) && Encloses(t, lo, hi) && CompareKeys(lo, hi) <= 0
    requires KeyOrNone(lo) && KeyOrNone(hi)
    ensures Meets(t, lo, hi) <==> Clears(t.largestKey, lo) && Clears(hi, t.smallestKey)
    ensures Decode(lo).Ok? && Decode(t.smallestKey).Ok? && |t.largestKey| >= 8 && |hi| >= 8
    ensures Compare(ExtractUserKey(lo), ExtractUserKey(t.largestKey)) < 0
    ensures Compare(ExtractUserKey(t.smallestKey), ExtractUserKey(hi)) < 0
  {
    hide CompareKeys, ExtractUserKey, Clears, Compare;
    var s, l := ExtractUserKey(t.smallestKey), ExtractUserKey(t.largestKey);
    var ul, uh := ExtractUserKey(lo), ExtractUserKey(hi);
    UserKeysFollow(lo, hi);
    NothingBelow(s, ul, lo);
    NothingBelow(uh, l, t.largestKey);
    CompareTransitive(ul, uh, l);
    CompareTransitive(s, ul, uh);
    NothingBelow(s, uh, hi);
    ClearsIff(t.largestKey, lo);
    ClearsIff(hi, t.smallestKey);
    CompareFlips(hi, t.smallestKey);
  }

  lemma NothingBelow(s: bytes, u: bytes, k: bytes)
    requires Compare(s, u) < 0 && u == ExtractUserKey(k)
    ensures k != []
  {
  }

  /** A table one level down whose user keys reach past the picked range on both
      sides is an input exactly when its own bounds clear those of the range. */
  lemma EnclosingIsInput(s: State, level: nat, lo: bytes, hi: bytes, t: TableMeta)
    requires s.Serving? && Reachable(s) && |s.db.version.levels| == NumLevels
    requires level < NumLevels - 1 && s.db.version.levels[level] != []
    requires LeastKey(GivenUp(s.db.version, level), lo) && GreatestKey(GivenUp(s.db.version, level), hi)
    requires t in s.db.version.levels[level + 1] && Encloses(t, lo, hi)
    ensures t in Inputs(s.db.version, level).value <==> Clears(t.largestKey, lo) && Clears(hi, t.smallestKey)
  {
    hide Reachable, LeastKey, GreatestKey, Clears, Encloses, Inputs, Meets, Bounded;
    PicksWhatMeets(s, level, lo, hi);
    GivenUpAscends(s, level, lo, hi);
    ReachableBounded(s);
    EnclosingMeets(t, lo, hi);
  }

  lemma GivenUpAscends(s: State, level: nat, lo: bytes, hi: bytes)
    requires s.Serving? && Reachable(s) && |s.db.version.levels| == NumLevels
    requires level < NumLevels - 1 && s.db.version.levels[level] != []
    requires LeastKey(GivenUp(s.db.version, level), lo) && GreatestKey(GivenUp(s.db.version, level), hi)
    ensures CompareKeys(lo, hi) <= 0 && KeyOrNone(lo) && KeyOrNone(hi)
  {
    hide Reachable, LeastKey, GreatestKey, Bounded, CompareKeys, KeyOrNone;
    ReachableBounded(s);
    var up := GivenUp(s.db.version, level);
    forall m | m in up ensures m in s.db.version.levels[level] { }
    RangeAscends(up, lo, hi);
  }

  /** Where no user key is another followed by a byte below three, as in any text,
      an enclosing table is always an input. */
  lemma EnclosingTextIsInput(s: State, level: nat, lo: bytes, hi: bytes, t: TableMeta)
    requires s.Serving? && Reachable(s) && |s.db.version.levels| == NumLevels
    requires level < NumLevels - 1 && s.db.version.levels[level] != []
    requires LeastKey(GivenUp(s.db.version, level), lo) && GreatestKey(GivenUp(s.db.version, level), hi)
    requires t in s.db.version.levels[level + 1] && Encloses(t, lo, hi)
    requires NoLowExtension(ExtractUserKey(t.largestKey), ExtractUserKey(lo))
    requires NoLowExtension(ExtractUserKey(hi), ExtractUserKey(t.smallestKey))
    ensures t in Inputs(s.db.version, level).value
  {
    hide Reachable, LeastKey, GreatestKey, Clears, Encloses, Meets, Bounded;
    EnclosingIsInput(s, level, lo, hi, t);
    GivenUpAscends(s, level, lo, hi);
    ReachableBounded(s);
    EnclosingMeets(t, lo, hi);
    TextClears(t.largestKey, lo);
    TextClears(hi, t.smallestKey);
  }

  predicate NoLowExtension(a: bytes, b: bytes) {
    HasPrefix(a, b) && |b| < |a| ==> a[|b|] > 2
  }
}
