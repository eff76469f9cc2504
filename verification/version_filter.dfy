/** The filter that hides what a snapshot must not see, over a memtable that
    writers keep inserting into. */
module VersionFilters {
  import opened Bytes
  import opened InternalKeys
  import opened Versions
  import opened Skiplists

  /** Keeps one entry buffered and the child already moved past it. */
  class VersionFilterIterator {
    const child: Iterator
    const readSeq: nat
    var current: Option<Entry>

    ghost predicate Valid()
      reads this, child, child.list, child.list.spine
    {
      && child.Valid()
      && (current.None? ==> VisibleAt(child.Rest(), readSeq) == [])
    }

    /** What the reader is still to see, the buffered entry first. */
    ghost function Remaining(): seq<Entry>
      requires Valid()
      reads this, child, child.list, child.list.spine
    {
      if current.None? then [] else [current.value] + VisibleAt(child.Rest(), readSeq)
    }

    constructor (list: Skiplist, readSeq: nat)
      requires list.Valid()
      ensures Valid() && fresh(child) && child.list == list && this.readSeq == readSeq
    {
      child := new Iterator(list);
      this.readSeq, current := readSeq, None;
    }

    method SeekToFirst()
      requires Valid()
      modifies this, child
      ensures Valid() && Remaining() == VisibleAt(child.list.contents, readSeq)
    {
      child.SeekToFirst();
      Advance();
    }

    method Next()
      requires Valid()
      modifies this, child
      ensures Valid() && Remaining() == if old(Remaining()) == [] then [] else old(Remaining())[1..]
    {
      Advance();
    }

    method Advance()
      requires child.Valid()
      modifies this, child
      ensures Valid() && Remaining() == VisibleAt(old(child.Rest()), readSeq)
    {
      hide VisibleAt;
      var found := NextVisible();
      current := found;
    }

    /** Moves the child past the first entry the reader may see. */
    method NextVisible() returns (found: Option<Entry>)
      requires child.Valid()
      modifies child
      ensures child.Valid()
      ensures var all := VisibleAt(old(child.Rest()), readSeq);
              if found.None? then all == [] && VisibleAt(child.Rest(), readSeq) == [] else all == [found.value] + VisibleAt(child.Rest(), readSeq)
    {
      found := None;
      while child.HasCurrent()
        invariant child.Valid() && found == None
        invariant VisibleAt(child.Rest(), readSeq) == VisibleAt(old(child.Rest()), readSeq)
        decreases |child.Rest()|
      {
        child.CurrentIsFirst();
        VisibleStep(child.Rest(), readSeq);
        var e := child.Current();
        child.Next();
        if e.key.num <= readSeq { return Some(e); }
      }
      child.CurrentIsFirst();
    }
  }

  lemma VisibleStep(s: seq<Entry>, r: nat)
    requires s != []
    ensures VisibleAt(s, r) == if s[0].key.num <= r then [s[0]] + VisibleAt(s[1..], r) else VisibleAt(s[1..], r)
  {
    assert [] + VisibleAt(s[1..], r) == VisibleAt(s[1..], r);
  }

  // ------------------------------------------------- reads while writers run

  /** Entry p of s stands at p' of t; past the end of one is past the end of
      the other. */
  ghost predicate SamePlace(s: seq<Entry>, p: nat, t: seq<Entry>, p': nat) {
    && p <= |s| && p' <= |t| && (p < |s| <==> p' < |t|)
    && (p < |s| ==> s[p].key == t[p'].key)
  }

  /** How many entries of s come before key. */
  function Rank(s: seq<Entry>, key: InternalKey): (q: nat)
    ensures q <= |s| && (forall j :: 0 <= j < q ==> Before(s[j].key, key)) && (q < |s| ==> !Before(s[q].key, key))
  {
    if s != [] && Before(s[0].key, key) then 1 + Rank(s[1..], key) else 0
  }

  /** An entry above r inserted anywhere leaves what r can see from a given
      entry on as it was. */
  lemma InsertIsUnseen(s: seq<Entry>, e: Entry, r: nat, p: nat, p': nat)
    requires Sorted(s) && Sorted(InsertSorted(s, e)) && e.key.num > r
    requires SamePlace(s, p, InsertSorted(s, e), p')
    ensures VisibleAt(InsertSorted(s, e)[p'..], r) == VisibleAt(s[p..], r)
  {
    var q := Rank(s, e.key);
    var s' := InsertSorted(s, e);
    InsertSortedAt(s, e, q);
    hide InsertSorted, Before, VisibleAt, Sorted;
    if p == |s| {
      assert s'[p'..] == s[p..];
    } else if p < q || (p == q && s[q].key == e.key) {
      StrictAt(s', p, p');
      TailInsert(s, e, p, q);
      WholeInsert(s[p..], e, r);
    } else {
      StrictAt(s', if s[q].key == e.key then p else p + 1, p');
      assert s'[p'..] == s[p..];
    }
  }

  lemma TailSlices(s: seq<Entry>, e: Entry, p: nat, q: nat)
    requires p <= q <= |s| && p < |s|
    ensures (s[..q] + [e] + s[q..])[p..] == s[p..][..q - p] + [e] + s[p..][q - p..]
    ensures q < |s| ==> s[q := e][p..] == s[p..][q - p := e]
  {
  }

  lemma TailInsert(s: seq<Entry>, e: Entry, p: nat, q: nat)
    requires q == Rank(s, e.key) && p <= q && p < |s| && (p == q ==> s[q].key == e.key)
    ensures p <= |InsertSorted(s, e)| && InsertSorted(s, e)[p..] == InsertSorted(s[p..], e)
  {
    InsertSortedAt(s, e, q);
    InsertSortedAt(s[p..], e, q - p);
    hide InsertSorted, Before, Rank;
    TailSlices(s, e, p, q);
  }

  lemma StrictAt(s: seq<Entry>, i: nat, j: nat)
    requires Sorted(s) && i < |s| && j < |s| && s[i].key == s[j].key
    ensures i == j
  {
    if i < j { BeforeTotal(s[i].key, s[j].key); }
    if j < i { BeforeTotal(s[j].key, s[i].key); }
  }

  lemma {:induction false} WholeInsert(s: seq<Entry>, e: Entry, r: nat)
    requires e.key.num > r
    ensures VisibleAt(InsertSorted(s, e), r) == VisibleAt(s, r)
  {
    if s != [] && Before(s[0].key, e.key) {
      WholeInsert(s[1..], e, r);
      assert InsertSorted(s, e)[1..] == InsertSorted(s[1..], e);
    } else {
      assert InsertSorted(s, e)[1..] == if s != [] && s[0].key == e.key then s[1..] else s;
      assert forall v: seq<Entry> :: [] + v == v;
    }
  }

  /** A writer's insert under a running reader. */
  method InsertDuring(it: VersionFilterIterator, key: InternalKey, value: bytes)
    requires it.Valid() && key.num > it.readSeq
    modifies it.child.list, it.child.list.spine
    ensures it.Valid() && it.Remaining() == old(it.Remaining())
    ensures it.child.list.contents == InsertSorted(old(it.child.list.contents), Entry(key, value))
    ensures it.child.list.spine == old(it.child.list.spine) ||
            exists pos: nat :: GrownAt(old(it.child.list.spine), it.child.list.spine, pos, key) && fresh(it.child.list.spine[pos])
  {
    ghost var held, was := it.child.list.contents, it.child.list.spine;
    ghost var p: nat :| it.child.AtPosition(p);
    assert it.child.AtPosition(p);
    it.child.RestAt(p);
    ContentsSorted(it.child.list);
    it.child.list.Insert(key, value);
    StandsStill(it, held, was, key, value, p);
  }

  lemma StandsStill(it: VersionFilterIterator, held: seq<Entry>, was: seq<Node>, key: InternalKey, value: bytes, p: nat)
    requires it.child.list.Valid() && it.child.list.contents == InsertSorted(held, Entry(key, value))
    requires Sorted(held) && |was| == |held| + 1 && forall j :: 0 <= j < |held| ==> held[j].key == was[j + 1].key
    requires it.child.list.spine == was || exists pos: nat :: 1 <= pos && GrownAt(was, it.child.list.spine, pos, key)
    requires p < |was| && it.child.node == At(was, p + 1) && key.num > it.readSeq
    requires it.current.None? ==> VisibleAt(held[p..], it.readSeq) == []
    ensures it.Valid()
    ensures it.Remaining() == if it.current.None? then [] else [it.current.value] + VisibleAt(held[p..], it.readSeq)
  {
    var p' := Moved(it.child, was, key, p);
    it.child.RestAt(p');
    ContentsSorted(it.child.list);
    InsertIsUnseen(held, Entry(key, value), it.readSeq, p, p');
  }

  /** The node an iterator holds is still in the list, at most one place on. */
  lemma Moved(child: Iterator, was: seq<Node>, key: InternalKey, p: nat) returns (p': nat)
    requires child.list.Valid() && p < |was| && child.node == At(was, p + 1)
    requires child.list.spine == was || exists pos: nat :: 1 <= pos && GrownAt(was, child.list.spine, pos, key)
    ensures child.AtPosition(p')
    ensures if p + 1 < |was| then p' + 1 < |child.list.spine| && child.list.spine[p' + 1] == was[p + 1] else p' + 1 == |child.list.spine|
  {
    if child.list.spine == was {
      p' := p;
    } else {
      var pos: nat :| 1 <= pos && GrownAt(was, child.list.spine, pos, key);
      p' := if p + 1 == |was| || pos <= p + 1 then p + 1 else p;
    }
  }

  datatype Step = Write(key: InternalKey, value: bytes) | Read

  lemma Buffered(it: VersionFilterIterator)
    requires it.Valid()
    ensures it.current.None? <==> it.Remaining() == []
    ensures it.current.Some? ==> it.Remaining() == [it.current.value] + it.Remaining()[1..]
  {
  }

  method Act(it: VersionFilterIterator, s: Step, seen: seq<Entry>) returns (seen': seq<Entry>)
    requires it.Valid() && (s.Write? ==> s.key.num > it.readSeq)
    modifies it, it.child, it.child.list, it.child.list.spine
    ensures it.Valid() && seen' + it.Remaining() == seen + old(it.Remaining())
    ensures forall p :: 0 <= p < |it.child.list.spine| ==> it.child.list.spine[p] in old(it.child.list.spine) || fresh(it.child.list.spine[p])
  {
    hide InsertSorted, VersionFilterIterator.Valid, VersionFilterIterator.Remaining;
    var first := it.current;
    Buffered(it);
    seen' := seen;
    match s {
      case Write(key, value) => InsertDuring(it, key, value);
      case Read =>
        if it.current.Some? {
          seen' := seen + [first.value];
          it.Next();
        }
    }
  }

  /** Any interleaving: what has been read, followed by what is still to come,
      is always exactly what was visible when the scan began. */
  method Interleave(it: VersionFilterIterator, schedule: seq<Step>) returns (seen: seq<Entry>)
    requires it.Valid() && forall s :: s in schedule && s.Write? ==> s.key.num > it.readSeq
    modifies it, it.child, it.child.list, it.child.list.spine
    ensures it.Valid() && seen + it.Remaining() == old(it.Remaining())
  {
    seen := [];
    assert [] + it.Remaining() == it.Remaining();
    for i := 0 to |schedule|
      invariant it.Valid() && seen + it.Remaining() == old(it.Remaining())
      invariant forall p :: 0 <= p < |it.child.list.spine| ==> it.child.list.spine[p] in old(it.child.list.spine) || fresh(it.child.list.spine[p])
    {
      assert schedule[i] in schedule;
      seen := Act(it, schedule[i], seen);
    }
  }
}
