/** What a read means: among the entries a set of sources holds, the newest
    version of a user key at or below a sequence number, a tombstone counting as
    absent. Every layer below is judged by whether it keeps this answer. */
module Versions {
  import opened Bytes
  import opened InternalKeys

  datatype Entry = Entry(key: InternalKey, value: bytes)

  /** Strictly ascending in the internal key order. */
  ghost predicate Sorted(s: seq<Entry>) {
    forall i, j :: 0 <= i < j < |s| ==> Before(s[i].key, s[j].key)
  }

  ghost function Elements(s: seq<Entry>): set<Entry> { set e | e in s }

  ghost function Union(sources: seq<seq<Entry>>): set<Entry> {
    set s, e | s in sources && e in s :: e
  }

  /** User key and sequence number determine the entry. */
  ghost predicate Coherent(S: set<Entry>) {
    forall a, b :: a in S && b in S && a.key.user == b.key.user && a.key.num == b.key.num ==> a == b
  }

  predicate Visible(e: Entry, k: bytes, r: nat) {
    e.key.user == k && e.key.num <= r
  }

  ghost predicate Newest(S: set<Entry>, k: bytes, r: nat, e: Entry) {
    e in S && Visible(e, k, r) && forall o :: o in S && Visible(o, k, r) ==> o.key.num <= e.key.num
  }

  function Payload(e: Entry): Option<bytes> {
    if e.key.kind.Value? then Some(e.value) else None
  }

  /** The abstract read. */
  ghost function Answer(S: set<Entry>, k: bytes, r: nat): Option<bytes> {
    if exists e :: Newest(S, k, r, e) then
      var e :| Newest(S, k, r, e);
      Payload(e)
    else None
  }

  lemma {:induction false} NewestExists(S: set<Entry>, k: bytes, r: nat, v: Entry) returns (e: Entry)
    requires v in S && Visible(v, k, r)
    ensures Newest(S, k, r, e)
    decreases |S|
  {
    if forall o :: o in S && Visible(o, k, r) ==> o.key.num <= v.key.num {
      e := v;
    } else {
      var o :| o in S && Visible(o, k, r) && o.key.num > v.key.num;
      e := NewestExists(S - {v}, k, r, o);
      assert Newest(S, k, r, e);
    }
  }

  /** The choice inside Answer does not matter. */
  lemma AnswerIs(S: set<Entry>, k: bytes, r: nat, e: Entry)
    requires Coherent(S) && Newest(S, k, r, e)
    ensures Answer(S, k, r) == Payload(e)
  {
    var c :| Newest(S, k, r, c) && Answer(S, k, r) == Payload(c);
    assert Newest(S, k, r, c);
    assert c in S;
    assert c.key.num == e.key.num;
  }

  lemma AnswerAbsent(S: set<Entry>, k: bytes, r: nat)
    requires forall e :: e in S ==> !Visible(e, k, r)
    ensures Answer(S, k, r) == None
  {
  }

  /** Two sets with the same newest visible version give the same answer. */
  lemma SameNewest(S: set<Entry>, T: set<Entry>, k: bytes, r: nat)
    requires Coherent(S) && Coherent(T)
    requires forall e :: Newest(S, k, r, e) ==> Newest(T, k, r, e)
    requires (forall e :: e in S ==> !Visible(e, k, r)) ==> Answer(T, k, r) == None
    ensures Answer(S, k, r) == Answer(T, k, r)
  {
    if v :| v in S && Visible(v, k, r) {
      var e := NewestExists(S, k, r, v);
      AnswerIs(S, k, r, e);
      AnswerIs(T, k, r, e);
    } else {
      AnswerAbsent(S, k, r);
    }
  }

  /** Sources that answer like the whole history H still do once every history
      entry above some sequence number c is put back. This is why replaying a
      log from any earlier cutoff, any number of times, cannot revive what
      compaction has dropped. */
  lemma SuffixCompletion(L: set<Entry>, H: set<Entry>, c: nat, R: set<Entry>, k: bytes, r: nat)
    requires Coherent(H) && L <= H
    requires R == L + set h | h in H && h.key.num > c
    requires Answer(L, k, r) == Answer(H, k, r)
    ensures Answer(R, k, r) == Answer(H, k, r)
  {
    if v :| v in H && Visible(v, k, r) {
      var h := NewestExists(H, k, r, v);
      AnswerIs(H, k, r, h);
      if h in R {
        assert Newest(R, k, r, h);
        AnswerIs(R, k, r, h);
      } else {
        forall e | Newest(R, k, r, e) ensures Newest(L, k, r, e) { }
        if w :| w in L && Visible(w, k, r) {
          var l := NewestExists(L, k, r, w);
          assert Newest(R, k, r, l);
          AnswerIs(L, k, r, l);
          AnswerIs(R, k, r, l);
        } else {
          AnswerAbsent(L, k, r);
          AnswerAbsent(R, k, r);
        }
      }
    } else {
      AnswerAbsent(R, k, r);
      AnswerAbsent(H, k, r);
    }
  }

  /** A write numbered above everything present is the answer for every read
      that can see it, and invisible to every other. */
  lemma AnswerAfterWrite(S: set<Entry>, n: Entry, k: bytes, r: nat)
    requires Coherent(S) && forall e :: e in S ==> e.key.num < n.key.num
    ensures Coherent(S + {n})
    ensures Answer(S + {n}, k, r) == if Visible(n, k, r) then Payload(n) else Answer(S, k, r)
  {
    var T := S + {n};
    if Visible(n, k, r) {
      assert Newest(T, k, r, n);
      AnswerIs(T, k, r, n);
    } else {
      forall e | Newest(S, k, r, e) ensures Newest(T, k, r, e) { }
      if forall e :: e in S ==> !Visible(e, k, r) { AnswerAbsent(T, k, r); }
      SameNewest(S, T, k, r);
    }
  }

  /** Reading latest is reading at any number no entry exceeds. */
  lemma LatestAnswer(S: set<Entry>, k: bytes, r: nat, r': nat)
    requires Coherent(S)
    requires forall e :: e in S ==> e.key.num <= r && e.key.num <= r'
    ensures Answer(S, k, r) == Answer(S, k, r')
  {
    forall e | Newest(S, k, r, e) ensures Newest(S, k, r', e) { }
    if forall e :: e in S ==> !Visible(e, k, r) { AnswerAbsent(S, k, r'); }
    if v :| v in S && Visible(v, k, r) {
      var e := NewestExists(S, k, r, v);
      AnswerIs(S, k, r, e);
      AnswerIs(S, k, r', e);
    }
  }

  /** What a version filter at r lets through, in order. */
  function VisibleAt(s: seq<Entry>, r: nat): seq<Entry> {
    if s == [] then []
    else (if s[0].key.num <= r then [s[0]] else []) + VisibleAt(s[1..], r)
  }

  lemma {:induction false} VisibleAtMembers(s: seq<Entry>, r: nat, e: Entry)
    ensures e in VisibleAt(s, r) <==> e in s && e.key.num <= r
  {
    if s != [] {
      VisibleAtMembers(s[1..], r, e);
      assert e in s <==> e == s[0] || e in s[1..];
      var v := VisibleAt(s[1..], r);
      assert [] + v == v;
      assert e in [s[0]] + v <==> e == s[0] || e in v;
    }
  }

  lemma {:induction false} VisibleAtSorted(s: seq<Entry>, r: nat)
    requires Sorted(s)
    ensures Sorted(VisibleAt(s, r))
  {
    if s != [] {
      assert s == [s[0]] + s[1..];
      VisibleAtSorted(s[1..], r);
      var v := VisibleAt(s[1..], r);
      assert [] + v == v;
      forall j | 0 <= j < |v| ensures Before(s[0].key, v[j].key) { VisibleAtMembers(s[1..], r, v[j]); }
    }
  }
}
