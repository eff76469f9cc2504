/** The in-memory index: a linked list with up to twelve levels of shortcuts,
    relinked in place by Insert while iterators hold on to nodes. */
module Skiplists {
  import opened Bytes
  import opened InternalKeys
  import opened Versions

  const MaxLevel: nat := 12

  // ------------------------------------------------ what the list represents

  /** Puts e in key order, replacing an entry with the same key. */
  function InsertSorted(s: seq<Entry>, e: Entry): seq<Entry> {
    if s == [] then [e]
    else if Before(s[0].key, e.key) then [s[0]] + InsertSorted(s[1..], e)
    else if s[0].key == e.key then [e] + s[1..]
    else [e] + s
  }

  lemma {:induction false} InsertSortedAt(s: seq<Entry>, e: Entry, p: nat)
    requires p <= |s| && (forall j :: 0 <= j < p ==> Before(s[j].key, e.key))
    requires p < |s| ==> !Before(s[p].key, e.key)
    ensures InsertSorted(s, e) == if p < |s| && s[p].key == e.key then s[p := e] else s[..p] + [e] + s[p..]
  {
    if p > 0 {
      InsertSortedAt(s[1..], e, p - 1);
      assert InsertSorted(s, e) == [s[0]] + InsertSorted(s[1..], e);
      hide InsertSorted, Before;
      assert s == [s[0]] + s[1..];
      if p < |s| && s[p].key == e.key {
        assert s[p := e] == [s[0]] + s[1..][p - 1 := e];
      } else {
        assert s[..p] + [e] + s[p..] == [s[0]] + (s[1..][..p - 1] + [e] + s[1..][p - 1..]);
      }
    }
  }

  /** Inserting keeps the order strict, adds e, and keeps everything under
      another key. */
  lemma {:induction false} InsertSortedFacts(s: seq<Entry>, e: Entry)
    requires Sorted(s)
    ensures Sorted(InsertSorted(s, e))
    ensures forall x :: x in InsertSorted(s, e) <==> x == e || (x in s && x.key != e.key)
  {
    if s != [] {
      assert s == [s[0]] + s[1..];
      BeforeTotal(s[0].key, e.key);
      var r := InsertSorted(s[1..], e);
      if Before(s[0].key, e.key) {
        InsertSortedFacts(s[1..], e);
        forall j | 0 <= j < |r| ensures Before(s[0].key, r[j].key) { assert r[j] in r; }
      } else if s[0].key == e.key {
        forall x | x in s[1..] ensures x.key != e.key { BeforeTotal(s[0].key, x.key); }
      } else {
        forall j | 0 <= j < |s| ensures Before(e.key, s[j].key) && s[j].key != e.key {
          if j > 0 { BeforeTransitive(e.key, s[0].key, s[j].key); }
          BeforeTotal(e.key, s[j].key);
        }
      }
    }
  }

  /** Key bytes (user key and trailer) plus value bytes. */
  function Weight(s: seq<Entry>): nat {
    if s == [] then 0 else |s[0].key.user| + 8 + |s[0].value| + Weight(s[1..])
  }

  lemma {:induction false} WeightConcat(a: seq<Entry>, b: seq<Entry>)
    ensures Weight(a + b) == Weight(a) + Weight(b)
  {
    if a == [] { assert a + b == b; } else { WeightConcat(a[1..], b); assert (a + b)[1..] == a[1..] + b; }
  }

  // --------------------------------------------------------------- the nodes

  class Node {
    const key: InternalKey
    var value: bytes
    /** The number of levels the node takes part in, fixed when it is made. */
    const height: nat
    var next: seq<Node?>

    constructor (key: InternalKey, value: bytes, height: nat)
      ensures this.key == key && this.value == value && this.height == height
      ensures next == seq(height, _ => null)
    {
      this.key, this.value, this.height := key, value, height;
      next := seq(height, _ => null);
    }
  }

  /** r is the first position at or after from whose node reaches level i. */
  ghost predicate IsFirst(spine: seq<Node>, from: nat, i: nat, r: nat) {
    && from <= r <= |spine|
    && (r < |spine| ==> spine[r].height > i)
    && forall m :: from <= m < r ==> spine[m].height <= i
  }

  lemma {:induction false} FirstExists(spine: seq<Node>, from: nat, i: nat)
    requires from <= |spine|
    ensures exists r :: IsFirst(spine, from, i, r)
    decreases |spine| - from
  {
    if from == |spine| || spine[from].height > i {
      assert IsFirst(spine, from, i, from);
    } else {
      FirstExists(spine, from + 1, i);
      var r: nat :| IsFirst(spine, from + 1, i, r);
      assert IsFirst(spine, from, i, r);
    }
  }

  ghost function Following(spine: seq<Node>, from: nat, i: nat): (r: nat)
    requires from <= |spine|
    ensures IsFirst(spine, from, i, r)
  {
    FirstExists(spine, from, i);
    var r: nat :| IsFirst(spine, from, i, r);
    r
  }

  ghost function At(spine: seq<Node>, r: nat): Node? { if r < |spine| then spine[r] else null }

  lemma FollowingIs(spine: seq<Node>, from: nat, i: nat, r: nat)
    requires IsFirst(spine, from, i, r)
    ensures Following(spine, from, i) == r
  {
    var f := Following(spine, from, i);
    assert f < |spine| ==> spine[f].height > i;
    assert r < |spine| ==> spine[r].height > i;
  }

  /** The list with n spliced in at pos. */
  ghost function Spliced(was: seq<Node>, pos: nat, n: Node): (s: seq<Node>)
    requires pos <= |was|
    ensures |s| == |was| + 1
    ensures forall m :: 0 <= m < |s| ==> s[m] == if m < pos then was[m] else if m == pos then n else was[m - 1]
  {
    was[..pos] + [n] + was[pos..]
  }

  /** How the links of one level move when n is spliced in: past it, */
  lemma FollowingAbove(was: seq<Node>, pos: nat, n: Node, from: nat, i: nat)
    requires pos <= from <= |was|
    ensures Following(Spliced(was, pos, n), from + 1, i) == Following(was, from, i) + 1
  {
    FollowingIs(Spliced(was, pos, n), from + 1, i, Following(was, from, i) + 1);
  }

  /** ... and up to it. */
  lemma FollowingBelow(was: seq<Node>, pos: nat, n: Node, from: nat, i: nat)
    requires from <= pos <= |was|
    ensures var f := Following(was, from, i);
            Following(Spliced(was, pos, n), from, i) == if f < pos then f else if n.height > i then pos else f + 1
  {
    var f := Following(was, from, i);
    FollowingIs(Spliced(was, pos, n), from, i, if f < pos then f else if n.height > i then pos else f + 1);
  }

  /** The shape of the node list: the head, then keys in strict order. */
  ghost predicate Nodes(head: Node, spine: seq<Node>, level: nat) {
    && |spine| >= 1 && spine[0] == head && head.height == MaxLevel
    && 1 <= level <= MaxLevel
    && (forall p :: 0 <= p < |spine| ==> 1 <= spine[p].height <= MaxLevel)
    && (forall p :: 1 <= p < |spine| ==> spine[p].height <= level)
    && (forall p, q :: 0 <= p < q < |spine| ==> spine[p] != spine[q])
    && Ordered(spine)
  }

  ghost predicate Ordered(spine: seq<Node>) {
    forall p, q :: 1 <= p < q < |spine| ==> Before(spine[p].key, spine[q].key)
  }

  /** Every link on every level leads to the next node of that level, so the
      chain of level i + 1 skips through a part of the chain of level i. */
  ghost predicate Linked(spine: seq<Node>)
    reads spine`next
  {
    && (forall p :: 0 <= p < |spine| ==> |spine[p].next| == spine[p].height)
    && forall p, i :: 0 <= p < |spine| && 0 <= i < spine[p].height ==>
         spine[p].next[i] == At(spine, Following(spine, p + 1, i))
  }

  ghost function Links(spine: seq<Node>): (r: seq<seq<Node?>>)
    reads spine`next
    ensures |r| == |spine| && forall p :: 0 <= p < |spine| ==> r[p] == spine[p].next
  {
    if spine == [] then [] else Links(spine[..|spine| - 1]) + [spine[|spine| - 1].next]
  }

  /** r is what the nodes after the head hold. */
  ghost predicate AreEntries(spine: seq<Node>, r: seq<Entry>)
    reads spine`value
  {
    && |r| == |spine| - 1
    && forall j :: 0 <= j < |r| ==> r[j] == Entry(spine[j + 1].key, spine[j + 1].value)
  }

  /** c is a place on level i to descend from when looking for key. */
  ghost predicate Left(spine: seq<Node>, c: nat, i: nat, key: InternalKey) {
    c < |spine| && spine[c].height > i && (c == 0 || Before(spine[c].key, key))
  }

  /** And the last such place on level i. */
  ghost predicate LastLeft(spine: seq<Node>, c: nat, i: nat, key: InternalKey) {
    && Left(spine, c, i, key)
    && var r := Following(spine, c + 1, i); r < |spine| ==> !Before(spine[r].key, key)
  }

  /** The places found on the first n levels. */
  ghost predicate Places(spine: seq<Node>, update: seq<Node>, at: seq<nat>, n: nat, key: InternalKey) {
    && |update| == |at| == MaxLevel && n <= MaxLevel
    && forall j :: 0 <= j < n ==> LastLeft(spine, at[j], j, key) && update[j] == spine[at[j]]
  }

  /** Where key belongs: everything before pos is before it, nothing after is. */
  ghost predicate Belongs(spine: seq<Node>, pos: nat, key: InternalKey) {
    && 1 <= pos <= |spine|
    && (forall p :: 1 <= p < pos ==> Before(spine[p].key, key))
    && (pos < |spine| ==> !Before(spine[pos].key, key))
  }

  /** Level 0 has every node, so the place found there splits the list. */
  lemma BottomPosition(spine: seq<Node>, c: nat, key: InternalKey)
    requires Ordered(spine) && (forall p :: 0 <= p < |spine| ==> spine[p].height >= 1)
    requires LastLeft(spine, c, 0, key)
    ensures Belongs(spine, c + 1, key) && Following(spine, c + 1, 0) == c + 1
  {
    FollowingIs(spine, c + 1, 0, c + 1);
    forall p | 1 <= p <= c ensures Before(spine[p].key, key) {
      if p < c { BeforeTransitive(spine[p].key, spine[c].key, key); }
    }
  }

  /** Every place recorded by the descent is left of pos and the last one
      there on its level. */
  lemma PlacesBelow(spine: seq<Node>, update: seq<Node>, at: seq<nat>, lvl: nat, key: InternalKey, pos: nat)
    requires Ordered(spine) && Places(spine, update, at, lvl, key) && Belongs(spine, pos, key)
    ensures forall j :: 0 <= j < lvl ==> at[j] < pos && spine[at[j]].height > j && Following(spine, at[j] + 1, j) >= pos
  {
    forall j | 0 <= j < lvl ensures at[j] < pos && spine[at[j]].height > j && Following(spine, at[j] + 1, j) >= pos {
      assert LastLeft(spine, at[j], j, key);
      if at[j] > pos { BeforeTransitive(spine[pos].key, spine[at[j]].key, key); }
    }
  }

  class Skiplist {
    const head: Node
    var level: nat
    var count: nat
    var sizeBytes: int
    /** All nodes in level-0 order, the head first. */
    ghost var spine: seq<Node>

    /** What the list holds: level 0 after the head. */
    ghost var contents: seq<Entry>

    ghost predicate Valid()
      reads this, spine
    {
      && Nodes(head, spine, level) && Linked(spine) && AreEntries(spine, contents)
      && count == |contents| && sizeBytes == Weight(contents)
    }

    constructor ()
      ensures Valid() && contents == [] && fresh(spine)
    {
      head := new Node(InternalKey([], 0, Value), [], MaxLevel);
      level, count, sizeBytes := 1, 0, 0;
      new;
      spine, contents := [head], [];
    }

    /** Coin flips, at most eleven of them. */
    static method RandomLevel() returns (lvl: nat)
      ensures 1 <= lvl <= MaxLevel
    {
      lvl := 1;
      while lvl < MaxLevel
        invariant 1 <= lvl <= MaxLevel
      {
        var heads: bool := *;
        if !heads { break; }
        lvl := lvl + 1;
      }
    }

    /** Along one level, past every node before key. */
    method Forward(from: Node, ghost c: nat, i: nat, key: InternalKey) returns (current: Node, ghost d: nat)
      requires Nodes(head, spine, level) && Linked(spine) && Left(spine, c, i, key) && spine[c] == from
      ensures LastLeft(spine, d, i, key) && spine[d] == current
    {
      current, d := from, c;
      while current.next[i] != null && Before(current.next[i].key, key)
        invariant Left(spine, d, i, key) && spine[d] == current
        decreases |spine| - d
      {
        d := Following(spine, d + 1, i);
        current := current.next[i];
      }
    }

    method Insert(key: InternalKey, value: bytes)
      requires Valid()
      modifies this, spine
      ensures Valid()
      ensures contents == InsertSorted(old(contents), Entry(key, value))
      ensures spine == old(spine) || exists pos: nat :: 1 <= pos && GrownAt(old(spine), spine, pos, key) && fresh(spine[pos])
    {
      hide Weight, InsertSorted, Linked;
      var update: seq<Node>;
      ghost var at, c;
      update, at, c := Descend(key);
      var current := Below(update[0], c, key);
      if current != null && current.key == key {
        Overwrite(current, c, value);
        return;
      }
      InsertNew(key, value, update, at, c + 1);
    }

    method InsertNew(key: InternalKey, value: bytes, update: seq<Node>, ghost at: seq<nat>, ghost pos: nat)
      requires Valid() && Places(spine, update, at, level, key)
      requires Belongs(spine, pos, key) && (pos < |spine| ==> spine[pos].key != key)
      modifies this, spine`next
      ensures Valid() && GrownAt(old(spine), spine, pos, key) && fresh(spine[pos])
      ensures contents == InsertSorted(old(contents), Entry(key, value))
    {
      hide Weight, InsertSorted, Before, Linked;
      var left := update;
      ghost var at' := at;
      var lvl := RandomLevel();
      if lvl > level {
        left, at' := RaiseLevel(update, at, lvl, key);
      }
      ghost var grown := LinkIn(key, value, lvl, left, at', pos);
      Counted(grown, key, value);
    }

    /** The node the descent stops in front of. */
    method Below(last: Node, ghost c: nat, key: InternalKey) returns (current: Node?)
      requires Nodes(head, spine, level) && Linked(spine) && LastLeft(spine, c, 0, key) && last == spine[c]
      ensures Belongs(spine, c + 1, key) && current == At(spine, c + 1)
    {
      BottomPosition(spine, c, key);
      current := last.next[0];
    }

    /** From the top level down, the last node before key on each level. */
    method Descend(key: InternalKey) returns (update: seq<Node>, ghost at: seq<nat>, ghost c: nat)
      requires Nodes(head, spine, level) && Linked(spine)
      ensures Places(spine, update, at, level, key) && c == at[0] && LastLeft(spine, c, 0, key) && update[0] == spine[c]
    {
      update, at := seq(MaxLevel, _ => head), seq(MaxLevel, _ => 0);
      var current := head;
      c := 0;
      for i := level downto 0
        invariant c < |spine| && spine[c] == current && (i > 0 ==> Left(spine, c, i - 1, key))
        invariant |update| == |at| == MaxLevel
        invariant forall j :: i <= j < level ==> LastLeft(spine, at[j], j, key) && update[j] == spine[at[j]]
        invariant i < level ==> at[i] == c
      {
        current, c := Forward(current, c, i, key);
        update, at := update[i := current], at[i := c];
      }
    }

    /** Levels the list did not use yet start at the head. */
    method RaiseLevel(update: seq<Node>, ghost at: seq<nat>, lvl: nat, key: InternalKey)
      returns (update': seq<Node>, ghost at': seq<nat>)
      requires Nodes(head, spine, level) && level < lvl <= MaxLevel && Places(spine, update, at, level, key)
      modifies this`level
      ensures Nodes(head, spine, level) && level == lvl && Places(spine, update', at', lvl, key) && at'[0] == at[0]
    {
      update', at' := update, at;
      for i := level to lvl
        invariant Places(spine, update', at', i, key) && at'[0] == at[0]
      {
        FollowingIs(spine, 1, i, |spine|);
        update', at' := update'[i := head], at'[i := 0];
        assert LastLeft(spine, 0, i, key);
      }
      level := lvl;
    }

    method Overwrite(node: Node, ghost c: nat, value: bytes)
      requires Valid() && c + 1 < |spine| && node == spine[c + 1] && Belongs(spine, c + 1, node.key)
      modifies this`sizeBytes, this`contents, node`value
      ensures Valid()
      ensures contents == InsertSorted(old(contents), Entry(node.key, value))
    {
      hide Weight, InsertSorted, Before;
      OverwrittenEntries(spine, contents, c, value);
      sizeBytes := sizeBytes - (|node.value| - |value|);
      node.value := value;
      contents := contents[c := Entry(node.key, value)];
    }

    /** The bookkeeping once a node has been linked in. */
    method Counted(ghost grown: seq<Node>, key: InternalKey, value: bytes)
      requires Nodes(head, grown, level) && Linked(grown) && AreEntries(grown, InsertSorted(contents, Entry(key, value)))
      requires count == |contents| && sizeBytes == Weight(contents)
      requires var now := InsertSorted(contents, Entry(key, value));
               |now| == |contents| + 1 && Weight(now) == Weight(contents) + |key.user| + 8 + |value|
      modifies this
      ensures Valid() && spine == grown
      ensures contents == InsertSorted(old(contents), Entry(key, value))
    {
      spine, contents := grown, InsertSorted(contents, Entry(key, value));
      count := count + 1;
      sizeBytes := sizeBytes + (|key.user| + 8) + |value|;
    }

    method LinkIn(key: InternalKey, value: bytes, lvl: nat, update: seq<Node>, ghost at: seq<nat>, ghost pos: nat)
      returns (ghost grown: seq<Node>)
      requires Nodes(head, spine, level) && Linked(spine) && AreEntries(spine, contents)
      requires 1 <= lvl <= level && Places(spine, update, at, lvl, key)
      requires Belongs(spine, pos, key) && (pos < |spine| ==> spine[pos].key != key)
      modifies spine`next
      ensures Nodes(head, grown, level) && Linked(grown) && GrownAt(spine, grown, pos, key) && fresh(grown[pos])
      ensures var now := InsertSorted(contents, Entry(key, value));
              && AreEntries(grown, now)
              && |now| == |contents| + 1 && Weight(now) == Weight(contents) + |key.user| + 8 + |value|
    {
      var newNode := MakeNode(key, value, lvl, update, at, pos);
      SplicedNodes(head, spine, level, pos, newNode);
      SplicedEntries(spine, contents, pos, newNode);
      grown := Spliced(spine, pos, newNode);
    }

    method MakeNode(key: InternalKey, value: bytes, lvl: nat, update: seq<Node>, ghost at: seq<nat>, ghost pos: nat)
      returns (newNode: Node)
      requires Nodes(head, spine, level) && Linked(spine) && lvl <= level && Places(spine, update, at, lvl, key)
      requires Belongs(spine, pos, key)
      modifies spine`next
      ensures fresh(newNode) && newNode.key == key && newNode.value == value && newNode.height == lvl
      ensures Linked(Spliced(spine, pos, newNode))
    {
      PlacesBelow(spine, update, at, lvl, key, pos);
      newNode := new Node(key, value, lvl);
      ghost var links := Links(spine);
      Relink(newNode, update, at, links);
      SplicedLinked(spine, links, pos, newNode, at);
    }

    /** On each of its levels, the new node takes over the link that passed it. */
    method Relink(newNode: Node, update: seq<Node>, ghost at: seq<nat>, ghost links: seq<seq<Node?>>)
      requires (forall p, q :: 0 <= p < q < |spine| ==> spine[p] != spine[q]) && newNode !in spine
      requires newNode.height == |newNode.next| <= |at| == |update|
      requires forall j :: 0 <= j < newNode.height ==>
                 at[j] < |spine| && spine[at[j]].height > j && update[j] == spine[at[j]]
      requires |links| == |spine| && forall p :: 0 <= p < |spine| ==> links[p] == spine[p].next && |links[p]| == spine[p].height
      modifies newNode`next, spine`next
      ensures Relinked(spine, links, newNode, at, newNode.height)
    {
      for i := 0 to newNode.height
        invariant Relinked(spine, links, newNode, at, i)
      {
        var left := update[i];
        assert left.next[i] == links[at[i]][i];
        newNode.next := newNode.next[i := left.next[i]];
        left.next := left.next[i := newNode];
      }
    }
  }

  /** Old nodes keep their order; one node, holding key, stands between them. */
  ghost predicate GrownAt(was: seq<Node>, spine: seq<Node>, pos: nat, key: InternalKey) {
    && pos <= |was| && |spine| == |was| + 1
    && spine == Spliced(was, pos, spine[pos]) && spine[pos].key == key
  }

  /** The links once the first n levels have been redirected through newNode. */
  ghost predicate Relinked(was: seq<Node>, links: seq<seq<Node?>>, newNode: Node, at: seq<nat>, n: nat)
    requires n <= newNode.height <= |at| && |links| == |was|
    requires forall p :: 0 <= p < |was| ==> |links[p]| == was[p].height
    requires forall j :: 0 <= j < newNode.height ==> at[j] < |was| && was[at[j]].height > j
    reads was`next, newNode`next
  {
    && |newNode.next| == newNode.height
    && (forall j :: 0 <= j < n ==> newNode.next[j] == links[at[j]][j])
    && (forall p :: 0 <= p < |was| ==> |was[p].next| == was[p].height)
    && forall p, j {:trigger was[p].next[j]} :: 0 <= p < |was| && 0 <= j < was[p].height ==>
         was[p].next[j] == if j < n && at[j] == p then newNode else links[p][j]
  }

  lemma SplicedLinked(was: seq<Node>, links: seq<seq<Node?>>, pos: nat, n: Node, at: seq<nat>)
    requires 1 <= pos <= |was| == |links| && |at| == MaxLevel && n.height <= MaxLevel
    requires forall p :: 0 <= p < |was| ==> |links[p]| == was[p].height
    requires forall p, i :: 0 <= p < |was| && 0 <= i < was[p].height ==> links[p][i] == At(was, Following(was, p + 1, i))
    requires forall j :: 0 <= j < n.height ==> at[j] < pos && was[at[j]].height > j && Following(was, at[j] + 1, j) >= pos
    requires Relinked(was, links, n, at, n.height)
    ensures Linked(Spliced(was, pos, n))
  {
    var s := Spliced(was, pos, n);
    forall p, i | 0 <= p < |s| && 0 <= i < s[p].height
      ensures s[p].next[i] == At(s, Following(s, p + 1, i))
    {
      SpliceLinks(was, pos, n, at, p, i);
      if p == pos {
        assert n.next[i] == links[at[i]][i];
      } else {
        var q: nat := if p < pos then p else p - 1;
        assert s[p] == was[q];
        assert was[q].next[i] == if i < n.height && at[i] == q then n else links[q][i];
      }
    }
  }

  lemma SplicedNodes(head: Node, was: seq<Node>, level: nat, pos: nat, n: Node)
    requires Nodes(head, was, level) && n !in was && 1 <= n.height <= level
    requires Belongs(was, pos, n.key) && (pos < |was| ==> was[pos].key != n.key)
    ensures Nodes(head, Spliced(was, pos, n), level)
  {
    hide Before;
    SpliceOrders(was, pos, n);
    var s := Spliced(was, pos, n);
    assert forall m :: 0 <= m < |s| ==> s[m] == n || s[m] in was;
  }

  /** The entries after a splice are the old ones with the new one inserted in
      key order, and weigh as much more as the new one does. */
  lemma OverwrittenEntries(spine: seq<Node>, held: seq<Entry>, c: nat, value: bytes)
    requires c + 1 < |spine| && Belongs(spine, c + 1, spine[c + 1].key) && AreEntries(spine, held)
    ensures var e := Entry(spine[c + 1].key, value);
            && InsertSorted(held, e) == held[c := e]
            && Weight(held[c := e]) == Weight(held) - |spine[c + 1].value| + |value|
  {
    hide InsertSorted;
    var e := Entry(spine[c + 1].key, value);
    InsertSortedAt(held, e, c);
    assert held == held[..c] + ([held[c]] + held[c + 1..]);
    assert held[c := e] == held[..c] + ([e] + held[c + 1..]);
    WeightConcat(held[..c], [held[c]] + held[c + 1..]);
    WeightConcat(held[..c], [e] + held[c + 1..]);
  }

  lemma SplicedEntries(was: seq<Node>, held: seq<Entry>, pos: nat, n: Node)
    requires Belongs(was, pos, n.key) && (pos < |was| ==> was[pos].key != n.key)
    requires AreEntries(was, held)
    ensures var now := InsertSorted(held, Entry(n.key, n.value));
            && AreEntries(Spliced(was, pos, n), now)
            && |now| == |held| + 1 && Weight(now) == Weight(held) + |n.key.user| + 8 + |n.value|
  {
    hide InsertSorted, Before, Weight;
    var e, p := Entry(n.key, n.value), pos - 1;
    InsertSortedAt(held, e, p);
    WeightGrows(held, p, e);
  }

  lemma WeightGrows(held: seq<Entry>, p: nat, e: Entry)
    requires p <= |held|
    ensures Weight(held[..p] + [e] + held[p..]) == Weight(held) + |e.key.user| + 8 + |e.value|
  {
    assert Weight([e]) == |e.key.user| + 8 + |e.value| + Weight([]);
    hide Weight;
    var a, b := held[..p], held[p..];
    WeightConcat(a, b);
    WeightConcat(a + [e], b);
    WeightConcat(a, [e]);
    assert held == a + b;
    assert Weight([]) == 0 by { NoWeight(); }
  }

  lemma NoWeight()
    ensures Weight([]) == 0
  {
  }

  lemma SpliceOrders(was: seq<Node>, pos: nat, n: Node)
    requires Ordered(was) && Belongs(was, pos, n.key) && (pos < |was| ==> was[pos].key != n.key)
    ensures Ordered(Spliced(was, pos, n))
  {
    var s := Spliced(was, pos, n);
    if pos < |was| { BeforeTotal(was[pos].key, n.key); }
    forall p, q | 1 <= p < q < |s| ensures Before(s[p].key, s[q].key) {
      if p == pos && q > pos + 1 { BeforeTransitive(n.key, was[pos].key, was[q - 1].key); }
      if p < pos < q && pos < |was| { BeforeTransitive(s[p].key, n.key, was[pos].key); }
    }
  }

  /** Before pos, only the last node of a level links to the new node. */
  lemma LinkBefore(was: seq<Node>, pos: nat, n: Node, a: nat, p: nat, i: nat)
    requires p < pos <= |was| && i < was[p].height
    requires i < n.height ==> a < pos && was[a].height > i && Following(was, a + 1, i) >= pos
    ensures Following(Spliced(was, pos, n), p + 1, i) ==
              if i < n.height && a == p then pos
              else if Following(was, p + 1, i) < pos then Following(was, p + 1, i) else Following(was, p + 1, i) + 1
    ensures i < n.height && a != p ==> Following(was, p + 1, i) < pos
  {
    FollowingBelow(was, pos, n, p + 1, i);
    var f := Following(was, p + 1, i);
  }

  /** Where link i of the node at p leads after the splice, read off the links
      of the old list. */
  lemma SpliceLinks(was: seq<Node>, pos: nat, n: Node, at: seq<nat>, p: nat, i: nat)
    requires 1 <= pos <= |was| && |at| == MaxLevel && n.height <= MaxLevel
    requires forall j :: 0 <= j < n.height ==> at[j] < pos && was[at[j]].height > j && Following(was, at[j] + 1, j) >= pos
    requires p <= |was|
    requires i < Spliced(was, pos, n)[p].height
    ensures var s := Spliced(was, pos, n);
            At(s, Following(s, p + 1, i)) ==
              if p == pos then At(was, Following(was, at[i] + 1, i))
              else if i < n.height && at[i] == p then n
              else At(was, Following(was, (if p < pos then p else p - 1) + 1, i))
  {
    if p == pos {
      FollowingIs(was, pos, i, Following(was, at[i] + 1, i));
      FollowingAbove(was, pos, n, pos, i);
    } else if p > pos {
      FollowingAbove(was, pos, n, p, i);
    } else {
      LinkBefore(was, pos, n, if i < n.height then at[i] else 0, p, i);
    }
  }

  // ------------------------------------------------------- chains by level

  /** The nodes met by following link i from n are exactly c. */
  ghost predicate Chain(n: Node?, i: nat, c: seq<Node>)
    reads c`next
  {
    && n == At(c, 0)
    && forall j :: 0 <= j < |c| ==> i < |c[j].next| && c[j].next[i] == At(c, j + 1)
  }

  /** The nodes that reach level i, in list order. */
  ghost function Reaching(nodes: seq<Node>, i: nat): seq<Node> {
    if nodes == [] then [] else (if nodes[0].height > i then [nodes[0]] else []) + Reaching(nodes[1..], i)
  }

  /** Each level's chain is all and only the nodes that reach it. */
  lemma {:induction false} LevelChain(spine: seq<Node>, p: nat, i: nat)
    requires Linked(spine) && p <= |spine|
    ensures Chain(At(spine, Following(spine, p, i)), i, Reaching(spine[p..], i))
    decreases |spine| - p
  {
    if p == |spine| {
      FollowingIs(spine, p, i, p);
    } else {
      LevelChain(spine, p + 1, i);
      assert spine[p..][1..] == spine[p + 1..];
      var rest := Reaching(spine[p + 1..], i);
      hide Chain;
      if spine[p].height > i {
        FollowingIs(spine, p, i, p);
        assert spine[p].next[i] == At(spine, Following(spine, p + 1, i));
        ChainCons(spine[p], i, rest);
      } else {
        FollowingIs(spine, p, i, Following(spine, p + 1, i));
        assert [] + rest == rest;
      }
    }
  }

  lemma ChainCons(n: Node, i: nat, rest: seq<Node>)
    requires i < |n.next| && Chain(n.next[i], i, rest)
    ensures Chain(n, i, [n] + rest)
  {
    var c := [n] + rest;
    forall j | 0 <= j < |c| ensures i < |c[j].next| && c[j].next[i] == At(c, j + 1) {
      if j > 0 { assert c[j] == rest[j - 1]; }
    }
  }

  lemma {:induction false} HigherLevelsThin(nodes: seq<Node>, i: nat)
    ensures Reaching(Reaching(nodes, i), i + 1) == Reaching(nodes, i + 1)
  {
    if nodes != [] {
      HigherLevelsThin(nodes[1..], i);
      var rest := Reaching(nodes[1..], i);
      assert [] + rest == rest && ([nodes[0]] + rest)[1..] == rest;
      var thin := Reaching(nodes[1..], i + 1);
      assert [] + thin == thin;
    }
  }

  /** The level theorem: from the head, link i walks exactly the nodes that
      reach level i, and the walk one level up is that walk without the nodes
      that stop short of it. */
  lemma LevelsAreChains(list: Skiplist, i: nat)
    requires list.Valid() && i < MaxLevel
    ensures Chain(list.head.next[i], i, Reaching(list.spine[1..], i))
    ensures Reaching(Reaching(list.spine[1..], i), i + 1) == Reaching(list.spine[1..], i + 1)
  {
    LevelChain(list.spine, 1, i);
    HigherLevelsThin(list.spine[1..], i);
  }

  /** The list holds distinct keys in comparator order, and both counters say
      exactly what it holds. */
  lemma ContentsSorted(list: Skiplist)
    requires list.Valid()
    ensures Sorted(list.contents)
    ensures list.count == |list.contents| && list.sizeBytes == Weight(list.contents)
  {
    forall i, j | 0 <= i < j < |list.contents| ensures Before(list.contents[i].key, list.contents[j].key) {
      assert Before(list.spine[i + 1].key, list.spine[j + 1].key);
    }
  }

  // ---------------------------------------------------------------- iterators

  class Iterator {
    const list: Skiplist
    var node: Node?

    ghost predicate Valid()
      reads this, list, list.spine
    {
      list.Valid() && exists p :: AtPosition(p)
    }

    /** p is where the iterator stands, counting entries; |contents| is the end. */
    ghost predicate AtPosition(p: nat)
      reads this, list
    {
      p < |list.spine| && node == At(list.spine, p + 1)
    }

    /** Everything from the current entry on. */
    ghost function Rest(): seq<Entry>
      requires Valid()
      reads this, list, list.spine
    {
      var p: nat :| AtPosition(p);
      list.contents[p..]
    }

    lemma RestAt(p: nat)
      requires Valid() && AtPosition(p)
      ensures Rest() == list.contents[p..]
    {
      var q: nat :| AtPosition(q) && Rest() == list.contents[q..];
      assert AtPosition(q);
      assert p == q;
    }

    constructor (list: Skiplist)
      requires list.Valid()
      ensures Valid() && this.list == list && Rest() == []
    {
      this.list, node := list, null;
      new;
      assert AtPosition(|list.spine| - 1);
      RestAt(|list.spine| - 1);
    }

    method SeekToFirst()
      requires Valid()
      modifies this
      ensures Valid() && Rest() == list.contents
    {
      FollowingIs(list.spine, 1, 0, 1);
      node := list.head.next[0];
      assert AtPosition(0);
      RestAt(0);
    }

    /** The first entry not before target, found through the levels. */
    method Seek(target: InternalKey) returns (ghost p: nat)
      requires Valid()
      modifies this
      ensures Valid() && p <= |list.contents| && Rest() == list.contents[p..]
      ensures forall j :: 0 <= j < p ==> Before(list.contents[j].key, target)
      ensures p < |list.contents| ==> !Before(list.contents[p].key, target)
    {
      hide Before;
      var update, _, c := list.Descend(target);
      BottomPosition(list.spine, c, target);
      node := update[0].next[0];
      p := c;
      assert AtPosition(p);
      RestAt(p);
    }

    method Next()
      requires Valid()
      modifies this
      ensures Valid() && Rest() == if old(Rest()) == [] then [] else old(Rest())[1..]
    {
      ghost var p: nat :| AtPosition(p);
      assert AtPosition(p);
      RestAt(p);
      if node != null {
        FollowingIs(list.spine, p + 2, 0, p + 2);
        node := node.next[0];
        assert AtPosition(p + 1);
        RestAt(p + 1);
      }
    }

    predicate HasCurrent()
      reads this
    {
      node != null
    }

    function Current(): Entry
      requires HasCurrent()
      reads this, node
    {
      Entry(node.key, node.value)
    }

    lemma CurrentIsFirst()
      requires Valid()
      ensures HasCurrent() <==> Rest() != []
      ensures HasCurrent() ==> Rest()[0] == Current()
    {
      var p: nat :| AtPosition(p);
      assert AtPosition(p);
      RestAt(p);
    }
  }
}
