/** The k-way merge of sorted children, with and without collapsing the versions
    of one user key. A child iterator is what it has still to yield: its Key and
    Value are the first entry of that sequence, Next drops it, Valid is that the
    sequence is not empty. */
module Merging {
  import opened Bytes
  import opened InternalKeys
  import opened Versions

  // ----------------------------------------------------- what a merge emits

  /** No two entries share an internal key. */
  ghost predicate Agree(U: set<Entry>) {
    forall a, b :: a in U && b in U && a.key == b.key ==> a == b
  }

  ghost predicate IsLeast(U: set<Entry>, e: Entry) {
    e in U && forall o :: o in U && o != e ==> Before(e.key, o.key)
  }

  lemma {:induction false} LeastExists(U: set<Entry>)
    requires Agree(U) && U != {}
    ensures exists e :: IsLeast(U, e)
    decreases |U|
  {
    var x :| x in U;
    if U == {x} {
      assert IsLeast(U, x);
    } else {
      LeastExists(U - {x});
      var m :| IsLeast(U - {x}, m);
      BeforeTotal(x.key, m.key);
      if Before(m.key, x.key) {
        assert IsLeast(U, m);
      } else {
        forall o | o in U && o != x ensures Before(x.key, o.key) {
          if o != m { BeforeTransitive(x.key, m.key, o.key); }
        }
        assert IsLeast(U, x);
      }
    }
  }

  ghost function Least(U: set<Entry>): (e: Entry)
    requires Agree(U) && U != {}
    ensures IsLeast(U, e)
  {
    LeastExists(U);
    var e :| IsLeast(U, e);
    e
  }

  /** What is left once e has been emitted. */
  ghost function After(U: set<Entry>, e: Entry, dedup: bool): (V: set<Entry>)
    ensures V <= U && e !in V
  {
    set o | o in U && o != e && (dedup ==> o.key.user != e.key.user)
  }

  /** Repeatedly the least entry of what is left. */
  ghost function Emission(U: set<Entry>, dedup: bool): seq<Entry>
    requires Agree(U)
    decreases |U|
  {
    if U == {} then []
    else
      var e := Least(U);
      assert After(U, e, dedup) < U;
      SubsetSmaller(After(U, e, dedup), U);
      [e] + Emission(After(U, e, dedup), dedup)
  }

  lemma {:induction false} SubsetSmaller<T>(a: set<T>, b: set<T>)
    requires a < b
    ensures |a| < |b|
  {
    var c := b - a;
    assert b == a + c && c != {};
  }

  /** The version of a user key that a deduplicating merge keeps. */
  ghost predicate IsHead(U: set<Entry>, e: Entry) {
    e in U && forall o :: o in U && o.key.user == e.key.user ==> o.key.num <= e.key.num
  }

  ghost predicate AllAfter(e: Entry, s: seq<Entry>) {
    forall j :: 0 <= j < |s| ==> Before(e.key, s[j].key)
  }

  lemma EmissionUnfolds(U: set<Entry>, dedup: bool) returns (e: Entry, V: set<Entry>)
    requires Agree(U) && U != {}
    ensures IsLeast(U, e) && V == After(U, e, dedup) && |V| < |U| && Agree(V)
    ensures Emission(U, dedup) == [e] + Emission(V, dedup)
  {
    e := Least(U);
    V := After(U, e, dedup);
    assert V < U;
    SubsetSmaller(V, U);
  }

  /** Without collapsing, a merge is the sorted union of its children. */
  lemma {:induction false} EmissionIsSortedUnion(U: set<Entry>)
    requires Agree(U)
    ensures Elements(Emission(U, false)) == U
    ensures Sorted(Emission(U, false))
    decreases |U|
  {
    if U != {} {
      var e, V := EmissionUnfolds(U, false);
      EmissionIsSortedUnion(V);
      assert U == V + {e};
      var t := Emission(V, false);
      assert Emission(U, false) == [e] + t;
      forall j | 0 <= j < |t| ensures Before(e.key, t[j].key) { assert t[j] in Elements(t); }
      ConsSorted(e, t);
      ElementsCons(e, t);
    }
  }

  lemma ConsSorted(e: Entry, t: seq<Entry>)
    requires Sorted(t) && AllAfter(e, t)
    ensures Sorted([e] + t)
  {
  }

  lemma ElementsCons(e: Entry, t: seq<Entry>)
    ensures Elements([e] + t) == {e} + Elements(t)
  {
    assert forall x :: x in [e] + t <==> x == e || x in t;
  }

  /** Collapsing, it emits exactly the highest-numbered version of every user
      key, still in order. */
  lemma {:induction false} EmissionIsHeads(U: set<Entry>)
    requires Coherent(U)
    ensures Sorted(Emission(U, true))
    ensures forall e :: e in Emission(U, true) <==> IsHead(U, e)
    decreases |U|
  {
    if U != {} {
      var e, V := EmissionUnfolds(U, true);
      EmissionIsHeads(V);
      var t := Emission(V, true);
      forall j | 0 <= j < |t| ensures Before(e.key, t[j].key) { assert IsHead(V, t[j]); }
      ConsSorted(e, t);
      forall x ensures x in Emission(U, true) <==> IsHead(U, x) {
        HeadOfRest(U, e, V, x);
        assert x in [e] + t <==> x == e || x in t;
      }
    }
  }

  lemma HeadOfRest(U: set<Entry>, e: Entry, V: set<Entry>, x: Entry)
    requires Coherent(U) && IsLeast(U, e) && V == After(U, e, true)
    ensures IsHead(U, x) <==> x == e || IsHead(V, x)
  {
    CompareFlips(e.key.user, e.key.user);
    if x == e {
      forall o | o in U && o.key.user == e.key.user ensures o.key.num <= e.key.num { }
    } else if x in U && x.key.user == e.key.user {
      assert Before(e.key, x.key);
      assert e.key.num > x.key.num;
    }
  }

  lemma NoElements(s: seq<Entry>)
    ensures Elements(s) == {} <==> s == []
  {
    if s != [] { assert s[0] in Elements(s); }
  }

  lemma {:induction false} SortedUnique(a: seq<Entry>, b: seq<Entry>)
    requires Sorted(a) && Sorted(b) && Elements(a) == Elements(b)
    ensures a == b
    decreases |a|
  {
    if a == [] {
      NoElements(b);
    } else {
      assert a[0] in Elements(a);
      assert b != [];
      assert b[0] in Elements(b);
      BeforeTotal(a[0].key, b[0].key);
      assert a[0] == b[0];
      assert a == [a[0]] + a[1..] && b == [b[0]] + b[1..];
      SortedTail(a);
      SortedTail(b);
      SortedUnique(a[1..], b[1..]);
    }
  }

  lemma SortedTail(a: seq<Entry>)
    requires Sorted(a) && a != []
    ensures Sorted(a[1..]) && AllAfter(a[0], a[1..])
    ensures Elements(a[1..]) == Elements(a) - {a[0]}
  {
    assert a == [a[0]] + a[1..];
    forall j | 0 <= j < |a| - 1 ensures Before(a[0].key, a[1..][j].key) { }
    forall x | x in a[1..] ensures x != a[0] { BeforeTotal(a[0].key, x.key); }
    assert forall x :: x in a <==> x == a[0] || x in a[1..];
  }

  // ------------------------------------------------------------ the iterator

  ghost predicate Children(rest: seq<seq<Entry>>) {
    && (forall i :: 0 <= i < |rest| ==> Sorted(rest[i]))
    && Agree(Union(rest))
  }

  class MergeIterator {
    const sources: seq<seq<Entry>>
    const dedup: bool
    const rest: array<seq<Entry>>
    const valid: array<bool>
    var curr: Option<Entry>
    var initialized: bool

    ghost predicate Shape()
      reads this, rest, valid
    {
      && rest.Length == valid.Length == |sources|
      && Children(sources)
    }

    ghost predicate Valid()
      reads this, rest, valid
    {
      && Shape()
      && Children(rest[..])
      && (initialized ==> forall i :: 0 <= i < valid.Length ==> valid[i] == (rest[i] != []))
      && (!initialized ==> curr == None)
      && (initialized && curr == None ==> Union(rest[..]) == {})
    }

    /** Everything still to be emitted, the current entry first. */
    ghost function Rest(): seq<Entry>
      requires Valid()
      reads this, rest, valid
    {
      if curr == None then [] else [curr.value] + Emission(Union(rest[..]), dedup)
    }

    constructor (sources: seq<seq<Entry>>, dedup: bool)
      requires Children(sources)
      ensures Valid() && !initialized && fresh(rest) && fresh(valid)
      ensures this.sources == sources && this.dedup == dedup
    {
      this.sources := sources;
      this.dedup := dedup;
      curr, initialized := None, false;
      rest := new seq<Entry>[|sources|](i requires 0 <= i < |sources| => sources[i]);
      valid := new bool[|sources|](_ => false);
      new;
      assert rest[..] == sources;
    }

    method SeekToFirst()
      requires Valid()
      modifies this, rest, valid
      ensures Valid() && initialized
      ensures Rest() == Emission(Union(sources), dedup)
    {
      for i := 0 to rest.Length
        invariant Shape()
        invariant forall j :: 0 <= j < i ==> rest[j] == sources[j] && valid[j] == (rest[j] != [])
      {
        rest[i] := sources[i];
        valid[i] := rest[i] != [];
      }
      assert rest[..] == sources;
      initialized := true;
      Advance();
    }

    method Next()
      requires Valid()
      modifies this, rest, valid
      ensures Valid() && initialized == old(initialized)
      ensures Rest() == if old(Rest()) == [] then [] else old(Rest())[1..]
    {
      if !initialized { return; }
      if curr == None { assert Emission(Union(rest[..]), dedup) == []; }
      Advance();
    }

    method Advance()
      requires Shape() && Children(rest[..]) && initialized
      requires forall i :: 0 <= i < valid.Length ==> valid[i] == (rest[i] != [])
      modifies this`curr, rest, valid
      ensures Valid()
      ensures Rest() == Emission(Union(old(rest[..])), dedup)
    {
      ghost var U := Union(rest[..]);
      var best := Smallest();
      if best == -1 {
        curr := None;
        assert U == {};
        return;
      }
      var e := rest[best][0];
      curr := Some(e);
      assert e in U;
      SkipKey(e);
      if dedup { SkipVersions(e); }
      assert Union(rest[..]) == After(U, e, dedup);
      LeastUnique(U, e);
    }

    /** The child whose next entry comes first, or -1 when all are exhausted. */
    method Smallest() returns (best: int)
      requires Shape() && Children(rest[..])
      requires forall i :: 0 <= i < valid.Length ==> valid[i] == (rest[i] != [])
      ensures -1 <= best < rest.Length
      ensures best == -1 ==> Union(rest[..]) == {}
      ensures best >= 0 ==> rest[best] != [] && IsLeast(Union(rest[..]), rest[best][0])
    {
      best := -1;
      OrderFacts();
      for i := 0 to valid.Length
        invariant -1 <= best < i
        invariant best == -1 ==> forall j :: 0 <= j < i ==> rest[j] == []
        invariant best >= 0 ==> rest[best] != []
        invariant best >= 0 ==> forall j :: 0 <= j < i && rest[j] != [] ==>
                    rest[j][0].key == rest[best][0].key || Before(rest[best][0].key, rest[j][0].key)
      {
        if valid[i] {
          if best == -1 {
            best := i;
          } else {
            BeforeTotal(rest[i][0].key, rest[best][0].key);
            if Before(rest[i][0].key, rest[best][0].key) { best := i; }
          }
        }
      }
      if best >= 0 {
        var e := rest[best][0];
        assert rest[best] in rest[..] && e in rest[best];
        forall o | o in Union(rest[..]) && o != e ensures Before(e.key, o.key) {
          var s: seq<Entry> :| s in rest[..] && o in s;
          var j :| 0 <= j < rest.Length && rest[j] == s;
          var m :| 0 <= m < |s| && s[m] == o;
          if m > 0 { assert Before(s[0].key, s[m].key); }
          assert s[0].key == e.key || Before(e.key, s[0].key);
          if m == 0 { assert o.key != e.key; }
        }
      }
    }

    method SkipKey(e: Entry)
      requires Shape() && Children(rest[..]) && IsLeast(Union(rest[..]), e)
      requires forall i :: 0 <= i < valid.Length ==> valid[i] == (rest[i] != [])
      modifies rest, valid
      ensures Children(rest[..]) && Union(rest[..]) == Union(old(rest[..])) - {e}
      ensures forall i :: 0 <= i < valid.Length ==> valid[i] == (rest[i] != [])
    {
      ghost var was := rest[..];
      for i := 0 to rest.Length
        invariant forall j :: 0 <= j < i ==> Sorted(rest[j]) && Elements(rest[j]) == Elements(was[j]) - {e}
        invariant forall j :: i <= j < rest.Length ==> rest[j] == was[j]
        invariant forall j :: 0 <= j < valid.Length ==> valid[j] == (rest[j] != [])
      {
        if valid[i] && rest[i][0].key == e.key {
          InUnion(was, i, rest[i][0]);
          SortedTail(rest[i]);
          rest[i] := rest[i][1..];
          valid[i] := rest[i] != [];
        } else if e in rest[i] {
          var m :| 0 <= m < |rest[i]| && rest[i][m] == e;
          InUnion(was, i, rest[i][0]);
          BeforeTotal(e.key, rest[i][0].key);
          assert false;
        }
      }
      UnionPointwise(was, rest[..], {e});
    }

    /** The inner loop for one child. */
    method SkipVersionsIn(i: nat, e: Entry)
      requires rest.Length == valid.Length && i < rest.Length && Sorted(rest[i])
      requires forall x :: x in rest[i] ==> Before(e.key, x.key)
      requires valid[i] == (rest[i] != [])
      modifies rest, valid
      ensures forall j :: 0 <= j < rest.Length && j != i ==> rest[j] == old(rest[j]) && valid[j] == old(valid[j])
      ensures Sorted(rest[i]) && valid[i] == (rest[i] != [])
      ensures Elements(rest[i]) == set x | x in old(rest[i]) && x.key.user != e.key.user
    {
      while valid[i]
        invariant Sorted(rest[i]) && valid[i] == (rest[i] != [])
        invariant forall x :: x in rest[i] ==> x in old(rest[i])
        invariant forall x :: x in old(rest[i]) && x !in rest[i] ==> x.key.user == e.key.user
        invariant forall j :: 0 <= j < rest.Length && j != i ==> rest[j] == old(rest[j]) && valid[j] == old(valid[j])
        decreases |rest[i]|
      {
        var s := rest[i];
        if s[0].key.user != e.key.user {
          NoMoreVersions(e, s);
          break;
        }
        assert s == [s[0]] + s[1..];
        SortedTail(s);
        rest[i] := s[1..];
        valid[i] := rest[i] != [];
      }
    }

    method SkipVersions(e: Entry)
      requires Shape() && Children(rest[..])
      requires forall o :: o in Union(rest[..]) ==> Before(e.key, o.key)
      requires forall i :: 0 <= i < valid.Length ==> valid[i] == (rest[i] != [])
      modifies rest, valid
      ensures Children(rest[..])
      ensures Union(rest[..]) == set o | o in Union(old(rest[..])) && o.key.user != e.key.user
      ensures forall i :: 0 <= i < valid.Length ==> valid[i] == (rest[i] != [])
    {
      ghost var was := rest[..];
      ghost var gone := set o | o in Union(was) && o.key.user == e.key.user;
      for i := 0 to rest.Length
        invariant forall j :: 0 <= j < i ==> Sorted(rest[j]) && Elements(rest[j]) == Elements(was[j]) - gone
        invariant forall j :: i <= j < rest.Length ==> rest[j] == was[j]
        invariant forall j :: 0 <= j < valid.Length ==> valid[j] == (rest[j] != [])
      {
        forall x | x in was[i] ensures x in Union(was) { InUnion(was, i, x); }
        SkipVersionsIn(i, e);
      }
      UnionPointwise(was, rest[..], gone);
    }
  }

  lemma InUnion(rest: seq<seq<Entry>>, i: nat, e: Entry)
    requires i < |rest| && e in rest[i]
    ensures e in Union(rest)
  {
    assert rest[i] in rest;
  }

  /** In a child whose first entry has moved past e's user key, every entry has. */
  lemma NoMoreVersions(e: Entry, s: seq<Entry>)
    requires Sorted(s) && s != [] && Before(e.key, s[0].key) && s[0].key.user != e.key.user
    ensures forall x :: x in s ==> x.key.user != e.key.user
  {
    forall x | x in s ensures x.key.user != e.key.user {
      var m :| 0 <= m < |s| && s[m] == x;
      if m > 0 && x.key.user == e.key.user {
        assert Before(s[0].key, s[m].key);
        CompareFlips(e.key.user, s[0].key.user);
      }
    }
  }

  lemma UnionPointwise(a: seq<seq<Entry>>, b: seq<seq<Entry>>, gone: set<Entry>)
    requires |a| == |b|
    requires forall i :: 0 <= i < |a| ==> Elements(b[i]) == Elements(a[i]) - gone
    ensures Union(b) == Union(a) - gone
  {
    forall x | x in Union(b) ensures x in Union(a) - gone {
      var s: seq<Entry> :| s in b && x in s;
      var i :| 0 <= i < |b| && b[i] == s;
      assert x in Elements(b[i]);
      InUnion(a, i, x);
    }
    forall x | x in Union(a) - gone ensures x in Union(b) {
      var s: seq<Entry> :| s in a && x in s;
      var i :| 0 <= i < |a| && a[i] == s;
      assert x in Elements(b[i]);
      InUnion(b, i, x);
    }
  }

  lemma LeastUnique(U: set<Entry>, e: Entry)
    requires Agree(U) && IsLeast(U, e)
    ensures Least(U) == e
  {
    BeforeTotal(Least(U).key, e.key);
  }
}
