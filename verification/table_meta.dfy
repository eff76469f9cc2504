/** What a table's writer records about it while the entries go by. */
module TableMetas {
  import opened Bytes
  import opened InternalKeys
  import opened Versions
  import opened Blocks
  import opened VersionSets
  import opened Reads

  ghost predicate Encodable(s: seq<Entry>) {
    forall e :: e in s ==> e.key.num < MaxSeq
  }

  /** What the table file stores for each entry. */
  ghost function PairsOf(s: seq<Entry>): (ps: seq<Blocks.Pair>)
    requires Encodable(s)
    ensures |ps| == |s|
  {
    seq(|s|, i requires 0 <= i < |s| => Blocks.Pair(Encode(s[i].key), s[i].value))
  }

  /** A table stores its entries without loss. */
  lemma PairsDetermine(s: seq<Entry>, t: seq<Entry>)
    requires Encodable(s) && Encodable(t) && PairsOf(s) == PairsOf(t)
    ensures s == t
  {
    forall i | 0 <= i < |s| ensures s[i] == t[i] {
      assert PairsOf(s)[i] == PairsOf(t)[i];
      EncodeDecode(s[i].key);
      EncodeDecode(t[i].key);
    }
  }

  /** Entries are sorted exactly when the keys stored for them ascend by the
      comparator on encoded keys. */
  lemma PairsAscend(s: seq<Entry>)
    requires Encodable(s)
    ensures Sorted(s) <==> forall i, j :: 0 <= i < j < |s| ==> CompareKeys(PairsOf(s)[i].key, PairsOf(s)[j].key) < 0
  {
    hide CompareKeys, Encode, Before;
    forall i, j | 0 <= i < j < |s| ensures Before(s[i].key, s[j].key) <==> CompareKeys(PairsOf(s)[i].key, PairsOf(s)[j].key) < 0 {
      assert s[i] in s && s[j] in s;
      ComparatorOnEncodings(s[i].key, s[j].key);
    }
  }

  function LowSeq(s: seq<Entry>): nat {
    if s == [] then MaxUint64
    else
      var low, n := LowSeq(s[..|s| - 1]), s[|s| - 1].key.num;
      if n < low then n else low
  }

  function HighSeq(s: seq<Entry>): nat {
    if s == [] then 0
    else
      var high, n := HighSeq(s[..|s| - 1]), s[|s| - 1].key.num;
      if n > high then n else high
  }

  /** The recorded bounds are the least and the greatest sequence number. */
  lemma {:induction false} SeqBounds(s: seq<Entry>)
    requires Encodable(s)
    ensures forall e :: e in s ==> LowSeq(s) <= e.key.num <= HighSeq(s)
    ensures s != [] ==> (exists e :: e in s && e.key.num == LowSeq(s)) && exists e :: e in s && e.key.num == HighSeq(s)
    decreases |s|
  {
    if s != [] {
      var front, last := s[..|s| - 1], s[|s| - 1];
      assert s == front + [last];
      assert last in s;
      SeqBounds(front);
      if front != [] {
        var a :| a in front && a.key.num == LowSeq(front);
        var b :| b in front && b.key.num == HighSeq(front);
        assert a in s && b in s;
      }
    }
  }

  function MetaOf(fileNum: nat, level: nat, s: seq<Entry>, size: int): (m: TableMeta)
    requires s != [] ==> s[0].key.num < MaxSeq && s[|s| - 1].key.num < MaxSeq
  {
    TableMeta(fileNum, level, LowSeq(s), HighSeq(s),
              if s == [] then [] else Encode(s[0].key),
              if s == [] then [] else Encode(s[|s| - 1].key), size)
  }

  lemma MetaDescribes(fileNum: nat, level: nat, s: seq<Entry>, size: int)
    requires Encodable(s)
    ensures s != [] ==> s[0].key.num < MaxSeq && s[|s| - 1].key.num < MaxSeq
    ensures Describes(MetaOf(fileNum, level, s, size), s)
  {
  }

  /** The record after one more entry, field by field as the writers do it. */
  function Extended(m: TableMeta, e: Entry): TableMeta
    requires e.key.num < MaxSeq
  {
    m.(smallestKey := if |m.smallestKey| == 0 then Encode(e.key) else m.smallestKey,
       largestKey := Encode(e.key),
       smallestSeq := if e.key.num < m.smallestSeq then e.key.num else m.smallestSeq,
       largestSeq := if e.key.num > m.largestSeq then e.key.num else m.largestSeq)
  }

  lemma MetaExtends(fileNum: nat, level: nat, s: seq<Entry>, size: int, e: Entry)
    requires Encodable(s + [e])
    ensures Encodable(s) && e.key.num < MaxSeq
    ensures s != [] ==> s[0].key.num < MaxSeq && s[|s| - 1].key.num < MaxSeq
    ensures MetaOf(fileNum, level, s + [e], size) == Extended(MetaOf(fileNum, level, s, size), e)
  {
    assert (s + [e])[..|s|] == s;
    assert e in s + [e] && forall x :: x in s ==> x in s + [e];
  }
}
