/** The live snapshots: a doubly linked list, newest first, from which any one can
    be unlinked in place. */
module Snapshots {

  class Snapshot {
    const readSeq: nat
    var prev: Snapshot?
    var next: Snapshot?
    /** Whether the snapshot still belongs to a database. */
    var live: bool

    constructor (readSeq: nat)
      ensures this.readSeq == readSeq && prev == null && next == null && live
    {
      this.readSeq, prev, next, live := readSeq, null, null, true;
    }
  }

  function Without(s: seq<Snapshot>, i: nat): seq<Snapshot>
    requires i < |s|
  {
    s[..i] + s[i + 1..]
  }

  /** The i-th snapshot, or null off either end. */
  function At(s: seq<Snapshot>, i: int): Snapshot? {
    if 0 <= i < |s| then s[i] else null
  }

  function ReadSeqs(s: seq<Snapshot>): seq<nat> {
    seq(|s|, i requires 0 <= i < |s| => s[i].readSeq)
  }

  /** The read bound no live or future snapshot is below: the least of the live
      ones, or the next sequence number when there is none. */
  function OldestOf(seqs: seq<nat>, nextSeq: nat): nat {
    if seqs == [] then nextSeq
    else
      var o := OldestOf(seqs[..|seqs| - 1], nextSeq);
      if seqs[|seqs| - 1] < o then seqs[|seqs| - 1] else o
  }

  lemma {:induction false} OldestIsLeast(seqs: seq<nat>, nextSeq: nat)
    ensures forall s :: s in seqs ==> OldestOf(seqs, nextSeq) <= s
    ensures OldestOf(seqs, nextSeq) <= nextSeq
    ensures OldestOf(seqs, nextSeq) == nextSeq || OldestOf(seqs, nextSeq) in seqs
    decreases |seqs|
  {
    if seqs != [] {
      OldestIsLeast(seqs[..|seqs| - 1], nextSeq);
      assert seqs == seqs[..|seqs| - 1] + [seqs[|seqs| - 1]];
    }
  }

  lemma Neighbours(s: seq<Snapshot>, i: nat)
    requires i < |s|
    ensures At(s, i - 1) != null <==> i > 0
    ensures i > 0 ==> At(s, i - 1) == s[i - 1]
    ensures At(s, i + 1) != null <==> i + 1 < |s|
    ensures i + 1 < |s| ==> At(s, i + 1) == s[i + 1]
    ensures i == 0 ==> At(s, 0) == s[0]
  {
  }

  /** Forward links skip number i. */
  ghost predicate NextsSkip(s: seq<Snapshot>, i: nat)
    reads s`next
  {
    forall j :: 0 <= j < |s| ==> s[j].next == if j == i - 1 then At(s, i + 1) else At(s, j + 1)
  }

  /** Backward links skip number i. */
  ghost predicate PrevsSkip(s: seq<Snapshot>, i: nat)
    reads s`prev
  {
    forall j :: 0 <= j < |s| ==> s[j].prev == if j == i + 1 then At(s, i - 1) else At(s, j - 1)
  }

  /** What follows number j, and what comes before it, once number i is out. */
  lemma ClosedAt(s: seq<Snapshot>, i: nat, j: nat)
    requires i < |s| && j < |s| - 1
    ensures |Without(s, i)| == |s| - 1
    ensures var k := if j < i then j else j + 1;
            && Without(s, i)[j] == s[k]
            && At(Without(s, i), j + 1) == (if k == i - 1 then At(s, i + 1) else At(s, k + 1))
            && At(Without(s, i), j - 1) == (if k == i + 1 then At(s, i - 1) else At(s, k - 1))
  {
    var w := Without(s, i);
    assert w[j] == s[if j < i then j else j + 1];
    if j + 1 < |w| { assert w[j + 1] == s[if j + 1 < i then j + 1 else j + 2]; }
    if j > 0 { assert w[j - 1] == s[if j - 1 < i then j - 1 else j]; }
  }

  lemma Closed(s: seq<Snapshot>, i: nat)
    requires i < |s|
    ensures |Without(s, i)| == |s| - 1
    ensures forall j :: 0 <= j < |s| - 1 ==>
              var k := if j < i then j else j + 1;
              && Without(s, i)[j] == s[k]
              && At(Without(s, i), j + 1) == (if k == i - 1 then At(s, i + 1) else At(s, k + 1))
              && At(Without(s, i), j - 1) == (if k == i + 1 then At(s, i - 1) else At(s, k - 1))
    ensures At(Without(s, i), 0) == if i == 0 then At(s, 1) else At(s, 0)
  {
    forall j | 0 <= j < |s| - 1
      ensures var k := if j < i then j else j + 1;
              && Without(s, i)[j] == s[k]
              && At(Without(s, i), j + 1) == (if k == i - 1 then At(s, i + 1) else At(s, k + 1))
              && At(Without(s, i), j - 1) == (if k == i + 1 then At(s, i - 1) else At(s, k - 1))
    {
      ClosedAt(s, i, j);
    }
    if |s| > 1 { ClosedAt(s, i, 0); }
  }

  /** A new head moves every other place down by one. */
  lemma Consed(s: Snapshot, t: seq<Snapshot>)
    ensures At([s] + t, -1) == null && At([s] + t, 0) == s
    ensures forall j :: 0 <= j <= |t| ==> At([s] + t, j + 1) == At(t, j)
    ensures t != [] ==> At(t, 0) == t[0] == ([s] + t)[1]
    ensures t == [] ==> At(t, 0) == null
  {
  }

  class SnapshotList {
    var head: Snapshot?
    /** The snapshots in list order. */
    ghost var spine: seq<Snapshot>

    ghost predicate Valid()
      reads this, spine
    {
      && (forall i, j :: 0 <= i < j < |spine| ==> spine[i] != spine[j])
      && head == At(spine, 0)
      && (forall i :: 0 <= i < |spine| ==> spine[i].live)
      && (forall i :: 0 <= i < |spine| ==> spine[i].next == At(spine, i + 1) && spine[i].prev == At(spine, i - 1))
    }

    constructor ()
      ensures Valid() && spine == []
    {
      head, spine := null, [];
    }

    method GetSnapshot(nextSeq: nat) returns (s: Snapshot)
      requires Valid() && nextSeq >= 1
      modifies this, spine
      ensures Valid() && fresh(s) && spine == [s] + old(spine) && s.readSeq == nextSeq - 1
    {
      hide At;
      s := new Snapshot(nextSeq - 1);
      ghost var was := spine;
      Consed(s, was);
      s.next := head;
      if head != null { head.prev := s; }
      head := s;
      spine := [s] + was;
      forall i | 0 <= i < |spine|
        ensures spine[i].live && spine[i].next == At(spine, i + 1) && spine[i].prev == At(spine, i - 1)
      {
        if i > 0 { assert spine[i] == was[i - 1]; }
      }
    }

    /** Takes a live snapshot out of the list, wherever it stands, and leaves the
        others in order. */
    method ReleaseSnapshot(s: Snapshot, ghost i: nat)
      requires Valid() && i < |spine| && spine[i] == s
      modifies this, spine
      ensures Valid() && spine == Without(old(spine), i)
      ensures !s.live && s.prev == null && s.next == null
    {
      hide At, Without;
      ghost var was := spine;
      Unlink(s, i);
      s.live, s.prev, s.next := false, null, null;
      spine := Without(spine, i);
      Closed(was, i);
    }

    method Unlink(s: Snapshot, ghost i: nat)
      requires Valid() && i < |spine| && spine[i] == s
      modifies this`head, spine
      ensures NextsSkip(spine, i) && PrevsSkip(spine, i) && head == (if i == 0 then At(spine, 1) else At(spine, 0))
      ensures forall j :: 0 <= j < |spine| ==> spine[j].live
    {
      hide At, NextsSkip, PrevsSkip;
      LinkPast(s, i);
      LinkBack(s, i);
    }

    /** The forward half. */
    method LinkPast(s: Snapshot, ghost i: nat)
      requires Valid() && i < |spine| && spine[i] == s
      modifies this`head, spine`next
      ensures head == (if i == 0 then At(spine, 1) else At(spine, 0))
      ensures NextsSkip(spine, i) && s.next == At(spine, i + 1)
    {
      Neighbours(spine, i);
      hide At;
      if s.prev != null {
        s.prev.next := s.next;
      } else {
        head := s.next;
      }
    }

    /** The backward half. */
    method LinkBack(s: Snapshot, ghost i: nat)
      requires i < |spine| && spine[i] == s && s.next == At(spine, i + 1)
      requires forall i, j :: 0 <= i < j < |spine| ==> spine[i] != spine[j]
      requires forall j :: 0 <= j < |spine| ==> spine[j].prev == At(spine, j - 1)
      modifies spine`prev
      ensures PrevsSkip(spine, i)
    {
      Neighbours(spine, i);
      hide At;
      if s.next != null {
        s.next.prev := s.prev;
      }
    }

    method GetOldestSnapshotSeq(nextSeq: nat) returns (oldest: nat)
      requires Valid()
      ensures oldest == OldestOf(ReadSeqs(spine), nextSeq)
    {
      oldest := nextSeq;
      var s := head;
      ghost var i := 0;
      ghost var seqs := ReadSeqs(spine);
      while s != null
        invariant i <= |spine| && s == At(spine, i)
        invariant oldest == OldestOf(seqs[..i], nextSeq)
        decreases |spine| - i
      {
        assert seqs[..i + 1][..i] == seqs[..i];
        if s.readSeq < oldest { oldest := s.readSeq; }
        s := s.next;
        i := i + 1;
      }
      assert seqs[..i] == seqs;
    }
  }
}
