/** The write history: the batches ever logged, numbered on from 1, and the entries
    they stand for. */
module Histories {
  import opened Bytes
  import opened InternalKeys
  import opened Versions
  import opened Skiplists
  import opened WalRecords
  import WalLogs

  /** The internal type of a logical one; the source panics on any other. */
  function ConvertLogicalType(typ: byte): Kind
    requires typ == TypePut || typ == TypeDelete
  {
    if typ == TypePut then Value else Tombstone
  }

  ghost predicate Known(b: Batch) {
    b.records != [] && forall i :: 0 <= i < |b.records| ==> b.records[i].typ == TypePut || b.records[i].typ == TypeDelete
  }

  /** Record i of a batch as an entry; a delete's value is not kept. */
  function EntryOf(b: Batch, i: nat): Entry
    requires i < |b.records| && (b.records[i].typ == TypePut || b.records[i].typ == TypeDelete)
  {
    Entry(InternalKey(b.records[i].key, b.seqStart + i, ConvertLogicalType(b.records[i].typ)), Normal(b.records[i]).value)
  }

  function Count(bs: seq<Batch>): nat {
    if bs == [] then 0 else Count(bs[..|bs| - 1]) + |bs[|bs| - 1].records|
  }

  /** Consecutive numbers, no batch empty. */
  ghost predicate Numbered(bs: seq<Batch>) {
    forall j :: 0 <= j < |bs| ==> Known(bs[j]) && bs[j].seqStart == 1 + Count(bs[..j])
  }

  /** Everything a batch wrote. */
  ghost function EntriesIn(b: Batch): set<Entry>
    requires Known(b)
  {
    set i | 0 <= i < |b.records| :: EntryOf(b, i)
  }

  /** Everything batches a to b (exclusive) wrote. */
  ghost function Written(bs: seq<Batch>, a: nat, b: nat): set<Entry>
    requires a <= b <= |bs| && Numbered(bs)
  {
    set j, i | a <= j < b && 0 <= i < |bs[j].records| :: EntryOf(bs[j], i)
  }

  ghost function Entire(bs: seq<Batch>): set<Entry>
    requires Numbered(bs)
  {
    Written(bs, 0, |bs|)
  }

  lemma {:induction false} CountGrows(bs: seq<Batch>, a: nat, b: nat)
    requires a <= b <= |bs|
    ensures Count(bs[..a]) <= Count(bs[..b])
    ensures a < b ==> Count(bs[..a]) + |bs[b - 1].records| <= Count(bs[..b])
    decreases b
  {
    if a < b {
      assert bs[..b][..b - 1] == bs[..b - 1];
      CountGrows(bs, a, b - 1);
    }
  }

  lemma {:induction false} CountStep(bs: seq<Batch>, j: nat)
    requires j < |bs|
    ensures Count(bs[..j + 1]) == Count(bs[..j]) + |bs[j].records|
  {
    assert bs[..j + 1][..j] == bs[..j];
  }

  /** Numbers place an entry: within a stretch of batches exactly when its number
      lies within the stretch's counts. */
  lemma {:induction false} WrittenRange(bs: seq<Batch>, a: nat, b: nat)
    requires Numbered(bs) && a <= b <= |bs|
    ensures forall e :: e in Written(bs, a, b) <==> e in Entire(bs) && Count(bs[..a]) < e.key.num <= Count(bs[..b])
  {
    hide Count, EntryOf;
    forall e | e in Written(bs, a, b) ensures e in Entire(bs) && Count(bs[..a]) < e.key.num <= Count(bs[..b]) {
      var j, i :| a <= j < b && 0 <= i < |bs[j].records| && e == EntryOf(bs[j], i);
      Placed(bs, j, i);
      CountGrows(bs, a, j);
      CountGrows(bs, j + 1, b);
    }
    forall e | e in Entire(bs) && Count(bs[..a]) < e.key.num <= Count(bs[..b]) ensures e in Written(bs, a, b) {
      var j, i :| 0 <= j < |bs| && 0 <= i < |bs[j].records| && e == EntryOf(bs[j], i);
      Placed(bs, j, i);
      if j < a { CountGrows(bs, j + 1, a); }
      if b <= j { CountGrows(bs, b, j); }
    }
  }

  lemma {:induction false} Placed(bs: seq<Batch>, j: nat, i: nat)
    requires Numbered(bs) && j < |bs| && i < |bs[j].records|
    ensures Count(bs[..j]) < EntryOf(bs[j], i).key.num <= Count(bs[..j + 1])
  {
    CountStep(bs, j);
  }

  /** A number belongs to one entry. */
  lemma {:induction false} NumberIsEntry(bs: seq<Batch>, d: Entry, e: Entry)
    requires Numbered(bs) && d in Entire(bs) && e in Entire(bs) && d.key.num == e.key.num
    ensures d == e
  {
    hide Count;
    var j, i :| 0 <= j < |bs| && 0 <= i < |bs[j].records| && d == EntryOf(bs[j], i);
    var l, m :| 0 <= l < |bs| && 0 <= m < |bs[l].records| && e == EntryOf(bs[l], m);
    Placed(bs, j, i);
    Placed(bs, l, m);
    if j < l { CountGrows(bs, j + 1, l); }
    if l < j { CountGrows(bs, l + 1, j); }
  }

  lemma {:induction false} HistoryFacts(bs: seq<Batch>)
    requires Numbered(bs)
    ensures Coherent(Entire(bs))
    ensures forall e :: e in Entire(bs) ==> 1 <= e.key.num <= Count(bs)
  {
    WrittenRange(bs, 0, |bs|);
    assert bs[..|bs|] == bs && bs[..0] == [];
    forall d, e | d in Entire(bs) && e in Entire(bs) && d.key.user == e.key.user && d.key.num == e.key.num ensures d == e {
      NumberIsEntry(bs, d, e);
    }
  }

  /** The last number of a nonempty history has been written. */
  lemma {:induction false} LastNumber(bs: seq<Batch>) returns (e: Entry)
    requires Numbered(bs) && bs != []
    ensures e in Written(bs, |bs| - 1, |bs|) && e in Entire(bs) && e.key.num == Count(bs)
  {
    var n := |bs| - 1;
    e := EntryOf(bs[n], |bs[n].records| - 1);
  }

  lemma {:induction false} WrittenSplits(bs: seq<Batch>, a: nat, b: nat, c: nat)
    requires Numbered(bs) && a <= b <= c <= |bs|
    ensures Written(bs, a, c) == Written(bs, a, b) + Written(bs, b, c)
  {
  }

  lemma {:induction false} NumberedPrefix(bs: seq<Batch>, n: nat)
    requires Numbered(bs) && n <= |bs|
    ensures Numbered(bs[..n])
    ensures forall a, b :: 0 <= a <= b <= n ==> Written(bs[..n], a, b) == Written(bs, a, b)
  {
    forall j | 0 <= j < n ensures bs[..n][j].seqStart == 1 + Count(bs[..n][..j]) { assert bs[..n][..j] == bs[..j]; }
  }

  lemma {:induction false} Appended(bs: seq<Batch>, b: Batch)
    requires Numbered(bs) && Known(b) && b.seqStart == 1 + Count(bs)
    ensures Numbered(bs + [b]) && Count(bs + [b]) == Count(bs) + |b.records|
    ensures forall x, y :: 0 <= x <= y <= |bs| ==> Written(bs + [b], x, y) == Written(bs, x, y)
    ensures Written(bs + [b], |bs|, |bs| + 1) == EntriesIn(b)
    ensures Entire(bs + [b]) == Entire(bs) + EntriesIn(b)
  {
    hide Known, EntryOf;
    var after := bs + [b];
    assert after[..|bs|] == bs;
    forall j | 0 <= j < |after| ensures Known(after[j]) && after[j].seqStart == 1 + Count(after[..j]) {
      if j < |bs| { assert after[..j] == bs[..j]; }
    }
    assert Written(after, |bs|, |bs| + 1) == EntriesIn(b) by { assert after[|bs|] == b; }
    WrittenSplits(after, 0, |bs|, |bs| + 1);
  }

  /** The number a batch ends on, without wrapping round. */
  lemma {:induction false} BatchEnds(bs: seq<Batch>, j: nat)
    requires Numbered(bs) && Count(bs) < MaxSeq && j < |bs|
    ensures WalLogs.BatchMax(bs[j]) == Count(bs[..j + 1])
  {
    assert bs[j].seqStart == 1 + Count(bs[..j]) && bs[j].records != [];
    hide Count, Numbered, Known;
    CountStep(bs, j);
    CountGrows(bs, j + 1, |bs|);
    assert bs[..|bs|] == bs;
  }

  // ----------------------------------------------------- filling a memtable

  /** No number reaches the 56-bit limit at which encoding a key panics. */
  ghost predicate Storable(b: Batch) {
    Known(b) && b.seqStart + |b.records| <= MaxSeq
  }

  function WithRecords(mem: seq<Entry>, b: Batch, i: nat): seq<Entry>
    requires Known(b) && i <= |b.records|
    decreases |b.records| - i
  {
    if i == |b.records| then mem else WithRecords(InsertSorted(mem, EntryOf(b, i)), b, i + 1)
  }

  /** The memtable after a whole batch. */
  function WithBatch(mem: seq<Entry>, b: Batch): seq<Entry>
    requires Known(b)
  {
    WithRecords(mem, b, 0)
  }

  lemma {:induction false} InsertedAmong(s: seq<Entry>, e: Entry)
    ensures forall x :: x in InsertSorted(s, e) ==> x == e || x in s
  {
    if s != [] { InsertedAmong(s[1..], e); }
  }

  lemma {:induction false} WithRecordsAmong(mem: seq<Entry>, b: Batch, i: nat)
    requires Known(b) && i <= |b.records|
    ensures forall e :: e in WithRecords(mem, b, i) ==> e in mem || e in EntriesIn(b)
    decreases |b.records| - i
  {
    hide InsertSorted;
    if i < |b.records| {
      InsertedAmong(mem, EntryOf(b, i));
      WithRecordsAmong(InsertSorted(mem, EntryOf(b, i)), b, i + 1);
    }
  }

  lemma WithBatchAmong(mem: seq<Entry>, b: Batch)
    requires Storable(b) && forall e :: e in mem ==> e.key.num < MaxSeq
    ensures forall e :: e in WithBatch(mem, b) ==> e.key.num < MaxSeq
  {
    WithRecordsAmong(mem, b, 0);
  }

  lemma {:induction false} WithRecordsFacts(mem: seq<Entry>, b: Batch, i: nat)
    requires Known(b) && i <= |b.records| && Sorted(mem)
    requires forall e, j :: e in mem && i <= j < |b.records| ==> e.key != EntryOf(b, j).key
    ensures Sorted(WithRecords(mem, b, i))
    ensures forall e :: e in WithRecords(mem, b, i) <==> e in mem || exists j :: i <= j < |b.records| && e == EntryOf(b, j)
    decreases |b.records| - i
  {
    hide Before, InsertSorted, Sorted;
    if i < |b.records| {
      var n := EntryOf(b, i);
      InsertSortedFacts(mem, n);
      var mem' := InsertSorted(mem, n);
      WithRecordsFacts(mem', b, i + 1);
      forall e ensures e in WithRecords(mem, b, i) <==> e in mem || exists j :: i <= j < |b.records| && e == EntryOf(b, j) {
        if e in mem { assert e.key != n.key; }
      }
    }
  }

  /** Applying a batch numbered above everything present adds its entries and
      disturbs nothing. */
  lemma {:induction false} WithBatchFacts(mem: seq<Entry>, b: Batch)
    requires Known(b) && Sorted(mem) && forall e :: e in mem ==> e.key.num < b.seqStart
    ensures Sorted(WithBatch(mem, b)) && Elements(WithBatch(mem, b)) == Elements(mem) + EntriesIn(b)
  {
    hide Sorted;
    WithRecordsFacts(mem, b, 0);
  }
}
