/** The least-recently-used block cache: a recency list, an index into it, and a
    running total of the sizes held. */
module Caches {
  import opened Bytes

  datatype Pair = Pair(key: string, value: bytes)

  // --------------------------------------------------- the recency sequence

  function Total(r: seq<Pair>): nat {
    if r == [] then 0 else |r[0].value| + Total(r[1..])
  }

  function Drop(r: seq<Pair>, k: string): seq<Pair> {
    if r == [] then [] else if r[0].key == k then r[1..] else [r[0]] + Drop(r[1..], k)
  }

  /** Evicts from the cold end until the rest fits. */
  function Fit(r: seq<Pair>, capacity: int): seq<Pair>
    decreases |r|
  {
    if r == [] || Total(r) <= capacity then r else Fit(r[..|r| - 1], capacity)
  }

  ghost predicate HasKey(r: seq<Pair>, k: string) { exists i :: 0 <= i < |r| && r[i].key == k }

  ghost predicate DistinctKeys(r: seq<Pair>) {
    forall i, j :: 0 <= i < j < |r| ==> r[i].key != r[j].key
  }

  lemma {:induction false} TotalConcat(a: seq<Pair>, b: seq<Pair>)
    ensures Total(a + b) == Total(a) + Total(b)
  {
    if a == [] { assert a + b == b; } else { TotalConcat(a[1..], b); assert (a + b)[1..] == a[1..] + b; }
  }

  lemma TotalOne(p: Pair)
    ensures Total([p]) == |p.value|
  {
  }

  /** Survivors are the longest most-recently-used run that fits. */
  lemma {:induction false} FitIsLongest(r: seq<Pair>, capacity: int)
    ensures Fit(r, capacity) <= r
    ensures Total(Fit(r, capacity)) <= capacity || Fit(r, capacity) == []
    ensures forall n :: |Fit(r, capacity)| < n <= |r| ==> Total(r[..n]) > capacity
    decreases |r|
  {
    if r != [] && Total(r) > capacity {
      var f := r[..|r| - 1];
      FitIsLongest(f, capacity);
      forall n | |Fit(f, capacity)| < n <= |r| ensures Total(r[..n]) > capacity {
        if n == |r| { assert r[..n] == r; } else { assert r[..n] == f[..n]; }
      }
    }
  }

  /** What is held never exceeds the capacity, exactly when the capacity is one
      that an empty cache meets. */
  lemma UsageBound(r: seq<Pair>, capacity: int)
    ensures capacity >= 0 ==> Total(Fit(r, capacity)) <= capacity
    ensures capacity < 0 ==> Fit(r, capacity) == [] && Total(Fit(r, capacity)) > capacity
  {
    FitIsLongest(r, capacity);
  }

  // ------------------------------------------------ runs of cache operations

  datatype Op = Get(key: string) | Put(key: string, value: bytes)

  ghost function Touch(r: seq<Pair>, k: string): seq<Pair> {
    if HasKey(r, k) then
      var i :| 0 <= i < |r| && r[i].key == k;
      [r[i]] + Drop(r, k)
    else r
  }

  ghost function Step(r: seq<Pair>, op: Op, capacity: int): seq<Pair> {
    match op
    case Get(k) => Touch(r, k)
    case Put(k, v) => Fit([Pair(k, v)] + Drop(r, k), capacity)
  }

  ghost function Run(ops: seq<Op>, capacity: int): seq<Pair>
    decreases |ops|
  {
    if ops == [] then [] else Step(Run(ops[..|ops| - 1], capacity), ops[|ops| - 1], capacity)
  }

  function LastPut(ops: seq<Op>, k: string): Option<bytes>
    decreases |ops|
  {
    if ops == [] then None
    else
      var op := ops[|ops| - 1];
      if op.Put? && op.key == k then Some(op.value) else LastPut(ops[..|ops| - 1], k)
  }

  lemma {:induction false} DropFacts(r: seq<Pair>, k: string)
    requires DistinctKeys(r)
    ensures DistinctKeys(Drop(r, k)) && !HasKey(Drop(r, k), k)
    ensures forall p :: p in Drop(r, k) <==> p in r && p.key != k
    ensures HasKey(r, k) ==> |Drop(r, k)| == |r| - 1
  {
    if r != [] {
      assert r == [r[0]] + r[1..];
      if r[0].key != k {
        DropFacts(r[1..], k);
        var d := Drop(r[1..], k);
        forall j | 0 <= j < |d| ensures d[j].key != r[0].key { assert d[j] in r[1..]; }
        if i :| 0 <= i < |r| && r[i].key == k { assert r[1..][i - 1].key == k; }
      }
    }
  }

  lemma TouchMembers(r: seq<Pair>, k: string)
    requires DistinctKeys(r)
    ensures DistinctKeys(Touch(r, k)) && forall p :: p in Touch(r, k) <==> p in r
  {
    DropFacts(r, k);
    if i :| 0 <= i < |r| && r[i].key == k {
      TouchAt(r, k, i);
      assert forall p :: p in Touch(r, k) <==> p == r[i] || p in Drop(r, k);
    }
  }

  lemma PutMembers(r: seq<Pair>, k: string, v: bytes, capacity: int)
    requires DistinctKeys(r)
    ensures var f := Fit([Pair(k, v)] + Drop(r, k), capacity);
            DistinctKeys(f) && forall p :: p in f ==> p == Pair(k, v) || (p in r && p.key != k)
  {
    DropFacts(r, k);
    var full := [Pair(k, v)] + Drop(r, k);
    FitIsLongest(full, capacity);
    forall j | 0 <= j < |Drop(r, k)| ensures Drop(r, k)[j].key != k { assert Drop(r, k)[j] in Drop(r, k); }
    assert forall p :: p in full <==> p == Pair(k, v) || p in Drop(r, k);
  }

  /** In every run, the index stays a function and a hit returns the value last
      put under its key. */
  lemma {:induction false} HitIsLastPut(ops: seq<Op>, capacity: int)
    ensures DistinctKeys(Run(ops, capacity))
    ensures forall p :: p in Run(ops, capacity) ==> LastPut(ops, p.key) == Some(p.value)
    decreases |ops|
  {
    if ops != [] {
      var front, op := ops[..|ops| - 1], ops[|ops| - 1];
      HitIsLastPut(front, capacity);
      var r := Run(front, capacity);
      match op {
        case Get(k) => TouchMembers(r, k);
        case Put(k, v) => PutMembers(r, k, v, capacity);
      }
    }
  }

  // -------------------------------------------------------------- the object

  /** A list element and the entry it carries. */
  class Element {
    const key: string
    var value: bytes
    var size: nat

    constructor (key: string, value: bytes)
      ensures this.key == key && this.value == value && size == |value|
    {
      this.key, this.value, size := key, value, |value|;
    }
  }

  /** The pairs the elements of a list stand for. */
  ghost predicate Mirrors(list: seq<Element>, held: seq<Pair>)
    reads list
  {
    && |held| == |list|
    && forall i :: 0 <= i < |list| ==> held[i] == Pair(list[i].key, list[i].value) && list[i].size == |list[i].value|
  }

  ghost predicate Indexed(list: seq<Element>, items: map<string, Element>) {
    && (forall e :: e in list ==> e.key in items && items[e.key] == e)
    && (forall k :: k in items ==> items[k].key == k && items[k] in list)
  }

  function Unlink(list: seq<Element>, k: string): seq<Element> {
    if list == [] then [] else if list[0].key == k then list[1..] else [list[0]] + Unlink(list[1..], k)
  }

  lemma {:induction false} UnlinkDrops(list: seq<Element>, held: seq<Pair>, k: string)
    requires Mirrors(list, held)
    ensures Mirrors(Unlink(list, k), Drop(held, k))
  {
    if list != [] {
      assert Mirrors(list[1..], held[1..]);
      UnlinkDrops(list[1..], held[1..], k);
      assert held[0].key == list[0].key;
    }
  }

  lemma {:induction false} UnlinkMembers(list: seq<Element>, e: Element)
    requires e in list && forall i, j :: 0 <= i < j < |list| ==> list[i].key != list[j].key
    ensures forall x :: x in Unlink(list, e.key) <==> x in list && x != e
    ensures forall j :: 0 <= j < |Unlink(list, e.key)| ==> Unlink(list, e.key)[j] in list
    ensures forall i, j :: 0 <= i < j < |Unlink(list, e.key)| ==> Unlink(list, e.key)[i].key != Unlink(list, e.key)[j].key
  {
    assert list == [list[0]] + list[1..];
    if list[0].key == e.key {
      assert list[0] == e;
    } else {
      UnlinkMembers(list[1..], e);
      var u := Unlink(list[1..], e.key);
      forall j | 0 <= j < |u| ensures u[j].key != list[0].key {
        assert u[j] in list[1..];
        var m :| 0 <= m < |list| - 1 && list[1..][m] == u[j];
      }
    }
  }

  lemma FrontMirrors(e: Element, list: seq<Element>, held: seq<Pair>)
    requires Mirrors(list, held) && e.size == |e.value| && DistinctKeys(held) && !HasKey(held, e.key)
    ensures Mirrors([e] + list, [Pair(e.key, e.value)] + held)
    ensures DistinctKeys([Pair(e.key, e.value)] + held)
    ensures Total([Pair(e.key, e.value)] + held) == e.size + Total(held)
  {
    forall j | 0 <= j < |held| ensures held[j].key != e.key { }
  }

  lemma {:induction false} DropTotal(r: seq<Pair>, i: nat)
    requires i < |r| && DistinctKeys(r)
    ensures Total(r) == |r[i].value| + Total(Drop(r, r[i].key))
  {
    if i > 0 { DropTotal(r[1..], i - 1); }
  }

  lemma ReplaceTotal(r: seq<Pair>, p: Pair)
    requires r != [] && DistinctKeys(r) && p.key == r[0].key
    ensures Total([p] + r[1..]) == Total(r) - |r[0].value| + |p.value|
    ensures DistinctKeys([p] + r[1..])
  {
    assert ([p] + r[1..])[1..] == r[1..];
  }

  lemma {:induction false} DropAbsent(r: seq<Pair>, k: string)
    requires !HasKey(r, k)
    ensures Drop(r, k) == r
  {
    if r != [] {
      assert r[0].key != k;
      forall i | 0 <= i < |r[1..]| ensures r[1..][i].key != k { assert r[1..][i] == r[i + 1]; }
      DropAbsent(r[1..], k);
    }
  }

  class LRUCache {
    const capacity: int
    var usage: int
    /** Front first. */
    var list: seq<Element>
    var items: map<string, Element>
    ghost var held: seq<Pair>

    ghost predicate Valid()
      reads this, list
    {
      && DistinctKeys(held) && Mirrors(list, held) && Indexed(list, items)
      && usage == Total(held)
    }

    constructor (capacity: int)
      ensures Valid() && this.capacity == capacity && held == [] && list == []
    {
      this.capacity, usage, list, items, held := capacity, 0, [], map[], [];
    }

    ghost predicate Linked(elem: Element, i: nat)
      reads this
    {
      i < |list| && list[i] == elem
    }

    /** Everything but the named element, and its share of the total. */
    lemma Unlinked(elem: Element, i: nat)
      requires Valid() && Linked(elem, i)
      ensures held[i] == Pair(elem.key, elem.value) && Mirrors(Unlink(list, elem.key), Drop(held, elem.key))
      ensures DistinctKeys(Drop(held, elem.key)) && !HasKey(Drop(held, elem.key), elem.key)
      ensures Total(held) == elem.size + Total(Drop(held, elem.key))
      ensures forall x :: x in Unlink(list, elem.key) <==> x in list && x != elem
    {
      assert forall a, b :: 0 <= a < b < |list| ==> held[a].key == list[a].key && held[b].key == list[b].key;
      UnlinkDrops(list, held, elem.key);
      UnlinkMembers(list, elem);
      DropFacts(held, elem.key);
      DropTotal(held, i);
    }

    method MoveToFront(elem: Element, ghost i: nat)
      requires Valid() && Linked(elem, i)
      modifies this`list, this`held
      ensures Valid() && list == [elem] + Unlink(old(list), elem.key)
      ensures held == [old(held)[i]] + Drop(old(held), elem.key)
    {
      Unlinked(elem, i);
      FrontMirrors(elem, Unlink(list, elem.key), Drop(held, elem.key));
      list := [elem] + Unlink(list, elem.key);
      held := [held[i]] + Drop(held, elem.key);
    }

    /** The list position of an indexed key. */
    lemma Position(key: string) returns (i: nat)
      requires Valid() && key in items
      ensures Linked(items[key], i) && held[i].key == key
    {
      i :| 0 <= i < |list| && list[i] == items[key];
    }

    lemma Absent(key: string)
      requires Valid() && key !in items
      ensures !HasKey(held, key)
    {
      forall i | 0 <= i < |held| ensures held[i].key != key { assert list[i] in list; }
    }

    method Get(key: string) returns (value: Option<bytes>)
      requires Valid()
      modifies this`list, this`held
      ensures Valid() && held == Touch(old(held), key)
      ensures value.Some? <==> HasKey(old(held), key)
      ensures value.Some? ==> Pair(key, value.value) in old(held)
    {
      if key in items {
        var elem := items[key];
        ghost var i := Position(key);
        TouchAt(held, key, i);
        MoveToFront(elem, i);
        return Some(elem.value);
      }
      Absent(key);
      return None;
    }

    method Put(key: string, value: bytes)
      requires Valid()
      modifies this, list
      ensures Valid() && held == Fit([Pair(key, value)] + Drop(old(held), key), capacity)
      ensures forall e :: e in list && e !in old(list) ==> fresh(e)
    {
      if key in items {
        Update(key, value);
      } else {
        PushFront(key, value);
      }
      Evict();
    }

    method Update(key: string, value: bytes)
      requires Valid() && key in items
      modifies this, list
      ensures Valid() && held == [Pair(key, value)] + Drop(old(held), key)
      ensures forall e :: e in list ==> e in old(list)
    {
      var ent := items[key];
      ghost var i := Position(key);
      Unlinked(ent, i);
      MoveToFront(ent, i);
      Replace(ent, value);
    }

    /** The front element's value and size, and the total with them. */
    method Replace(ent: Element, value: bytes)
      requires Valid() && list != [] && list[0] == ent
      modifies this`usage, this`held, ent
      ensures Valid() && held == [Pair(ent.key, value)] + old(held)[1..]
    {
      hide Drop, HasKey, Total, Indexed;
      ghost var rest := held[1..];
      assert held[0].key == list[0].key;
      ReplaceTotal(held, Pair(ent.key, value));
      forall j | 0 < j < |list| ensures list[j] != ent { assert held[j].key == list[j].key; }
      hide DistinctKeys;
      usage := usage - ent.size;
      ent.value := value;
      ent.size := |value|;
      usage := usage + ent.size;
      held := [Pair(ent.key, value)] + rest;
    }

    method PushFront(key: string, value: bytes)
      requires Valid() && key !in items
      modifies this
      ensures Valid() && held == [Pair(key, value)] + Drop(old(held), key)
      ensures forall e :: e in list && e !in old(list) ==> fresh(e)
    {
      Absent(key);
      DropAbsent(held, key);
      var ent := new Element(key, value);
      FrontMirrors(ent, list, held);
      list := [ent] + list;
      items := items[key := ent];
      usage := usage + ent.size;
      held := [Pair(key, value)] + held;
    }

    method Evict()
      requires Valid()
      modifies this
      ensures Valid() && held == Fit(old(held), capacity) && list <= old(list)
    {
      while usage > capacity && |list| > 0
        invariant Valid() && list <= old(list) && Fit(held, capacity) == Fit(old(held), capacity)
        decreases |list|
      {
        EvictBack();
      }
    }

    method EvictBack()
      requires Valid() && |list| > 0
      modifies this
      ensures Valid() && held == old(held)[..|old(held)| - 1] && list == old(list)[..|old(list)| - 1]
    {
      hide Total;
      var ent := list[|list| - 1];
      ghost var was := held;
      list := list[..|list| - 1];
      items := items - {ent.key};
      usage := usage - ent.size;
      held := was[..|was| - 1];
      assert was == held + [was[|was| - 1]];
      TotalConcat(held, [was[|was| - 1]]);
      TotalOne(was[|was| - 1]);
    }
  }

  lemma TouchAt(r: seq<Pair>, k: string, i: nat)
    requires i < |r| && r[i].key == k && DistinctKeys(r)
    ensures Touch(r, k) == [r[i]] + Drop(r, k)
  {
    assert HasKey(r, k);
    var j :| 0 <= j < |r| && r[j].key == k && Touch(r, k) == [r[j]] + Drop(r, k);
    assert i == j;
  }
}
