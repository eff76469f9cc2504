/** Writing a memtable out as a level-0 table, in the background and in recovery. */
module Flushes {
  import opened Bytes
  import opened InternalKeys
  import opened Versions
  import opened VersionSets
  import opened TableMetas
  import opened Skiplists
  import Blocks
  import Readers
  import Tables

  /** The background flush records 0 as the smallest number of an empty table. */
  function FlushMeta(fileNum: nat, s: seq<Entry>, size: int): (m: TableMeta)
    requires s != [] ==> s[0].key.num < MaxSeq && s[|s| - 1].key.num < MaxSeq
  {
    var m := MetaOf(fileNum, 0, s, size);
    if s == [] then m.(smallestSeq := 0) else m
  }

  /** The file is a table of exactly these entries. */
  ghost predicate IsTableOf(codec: Tables.Codec, file: bytes, s: seq<Entry>) {
    && Encodable(s)
    && exists blocks, filter ::
         Tables.NonEmpty(blocks) && Tables.Flat(blocks) == PairsOf(s) && file == Tables.TableBytes(codec, blocks, filter)
  }

  /** The builder and the record after the first n entries. */
  ghost predicate Midway(builder: Tables.Builder, codec: Tables.Codec, s: seq<Entry>, n: nat, fileNum: nat,
                         meta: TableMeta)
    reads builder, builder.dataBlock, builder.indexBlock, builder.metaIndexBlock
  {
    builder.Valid() && !builder.closed && builder.codec == codec && Recorded(s, n, fileNum, meta, builder.contents)
  }

  /** One entry to the builder and into the record. */
  method WriteEntry(builder: Tables.Builder, ghost codec: Tables.Codec, ghost s: seq<Entry>, ghost n: nat,
                    ghost fileNum: nat,
                    e: Entry, meta: TableMeta) returns (meta': TableMeta)
    requires Encodable(s) && n < |s| && e == s[n] && Midway(builder, codec, s, n, fileNum, meta)
    modifies builder, builder.dataBlock, builder.indexBlock
    ensures Midway(builder, codec, s, n + 1, fileNum, meta')
  {
    hide Recorded, Tables.Builder.Valid, Extended, Encodable;
    OneMore(s, n, fileNum, meta, builder.contents);
    var _ := builder.Add(Encode(e.key), e.value);
    meta' := Extended(meta, e);
  }

  /** The loop both writers share: every entry goes to the builder and into the
      record. */
  method WriteEntries(codec: Tables.Codec, createFilter: seq<bytes> -> bytes, mt: Skiplist, fileNum: nat)
    returns (builder: Tables.Builder, meta: TableMeta)
    requires mt.Valid() && Encodable(mt.contents)
    ensures fresh(builder) && builder.Valid() && builder.closed && builder.codec == codec
    ensures builder.contents == PairsOf(mt.contents)
    ensures meta == MetaOf(fileNum, 0, mt.contents, 0)
  {
    hide *;
    ghost var s := mt.contents;
    builder := new Tables.Builder(codec, createFilter);
    var it := new Iterator(mt);
    it.SeekToFirst();
    meta := TableMeta(fileNum, 0, MaxUint64, 0, [], [], 0);
    ghost var n := 0;
    Empty(fileNum, s);
    Begun(builder, codec, s, fileNum, meta);
    it.CurrentIsFirst();
    while it.HasCurrent()
      invariant it.Valid() && it.list == mt && mt.contents == s && n <= |s| && it.Rest() == s[n..]
      invariant it.HasCurrent() <==> n < |s|
      invariant it.HasCurrent() ==> it.Current() == s[n]
      invariant Midway(builder, codec, s, n, fileNum, meta) && Encodable(s)
      invariant fresh(builder) && fresh(builder.dataBlock) && fresh(builder.indexBlock) && fresh(builder.metaIndexBlock) && fresh(it)
      decreases |s| - n
    {
      meta := WriteEntry(builder, codec, s, n, fileNum, it.Current(), meta);
      n := n + 1;
      it.Next();
      it.CurrentIsFirst();
    }
    Done(builder, codec, s, n, fileNum, meta);
    builder.Close();
  }

  /** The first n entries are recorded and added. */
  ghost predicate Recorded(s: seq<Entry>, n: nat, fileNum: nat, meta: TableMeta, added: seq<Blocks.Pair>) {
    n <= |s| && Encodable(s[..n]) && added == PairsOf(s[..n]) && meta == MetaOf(fileNum, 0, s[..n], 0)
  }

  lemma Empty(fileNum: nat, s: seq<Entry>)
    ensures Recorded(s, 0, fileNum, TableMeta(fileNum, 0, MaxUint64, 0, [], [], 0), [])
  {
    assert s[..0] == [];
  }

  lemma Begun(builder: Tables.Builder, codec: Tables.Codec, s: seq<Entry>, fileNum: nat, meta: TableMeta)
    requires builder.Valid() && !builder.closed && builder.codec == codec && Recorded(s, 0, fileNum, meta, builder.contents)
    ensures Midway(builder, codec, s, 0, fileNum, meta)
  {
  }

  lemma Done(builder: Tables.Builder, codec: Tables.Codec, s: seq<Entry>, n: nat, fileNum: nat, meta: TableMeta)
    requires Encodable(s) && n == |s| && Midway(builder, codec, s, n, fileNum, meta)
    ensures builder.Valid() && !builder.closed && builder.codec == codec
    ensures builder.contents == PairsOf(s) && meta == MetaOf(fileNum, 0, s, 0)
  {
    assert s[..n] == s;
  }

  lemma OneMore(s: seq<Entry>, n: nat, fileNum: nat, meta: TableMeta, added: seq<Blocks.Pair>)
    requires Encodable(s) && n < |s| && Recorded(s, n, fileNum, meta, added)
    ensures s[n].key.num < MaxSeq
    ensures Recorded(s, n + 1, fileNum, Extended(meta, s[n]), added + [Blocks.Pair(Encode(s[n].key), s[n].value)])
  {
    assert s[n] in s;
    assert s[..n + 1] == s[..n] + [s[n]];
    forall e | e in s[..n + 1] ensures e.key.num < MaxSeq { assert e in s; }
    MetaExtends(fileNum, 0, s[..n], 0, s[n]);
  }

  method FlushMemtable(codec: Tables.Codec, createFilter: seq<bytes> -> bytes, mt: Skiplist, fileNum: nat)
    returns (file: bytes, meta: TableMeta)
    requires mt.Valid() && Encodable(mt.contents)
    ensures meta == FlushMeta(fileNum, mt.contents, |file|)
    ensures IsTableOf(codec, file, mt.contents)
  {
    hide PairsOf, LowSeq, HighSeq, Tables.TableBytes, Tables.Flat, Tables.NonEmpty, Skiplist.Valid;
    var builder;
    builder, meta := WriteEntries(codec, createFilter, mt, fileNum);
    file := builder.out;
    meta := meta.(fileSize := |file|);
    if mt.count == 0 { meta := meta.(smallestSeq := 0); }
    Countable(mt);
  }

  /** Recovery's writer takes the size from the builder, which leaves out the footer. */
  method WriteMemtableToSSTable(codec: Tables.Codec, createFilter: seq<bytes> -> bytes, mt: Skiplist, fileNum: nat)
    returns (file: bytes, meta: TableMeta)
    requires mt.Valid() && Encodable(mt.contents)
    ensures meta == MetaOf(fileNum, 0, mt.contents, |file| - Tables.FooterSize)
    ensures IsTableOf(codec, file, mt.contents)
  {
    hide PairsOf, LowSeq, HighSeq, Tables.TableBytes, Tables.Flat, Tables.NonEmpty, Skiplist.Valid;
    var builder;
    builder, meta := WriteEntries(codec, createFilter, mt, fileNum);
    file := builder.out;
    meta := meta.(fileSize := builder.Size());
  }

  /** The table lies within the format's field widths. */
  ghost predicate InFormat(codec: Tables.Codec, file: bytes, s: seq<Entry>)
    requires Encodable(s)
  {
    forall blocks, filter ::
      Tables.NonEmpty(blocks) && Tables.Flat(blocks) == PairsOf(s) && file == Tables.TableBytes(codec, blocks, filter) ==>
      Readers.TableFits(codec, blocks, filter)
  }

  /** Up to a gigabyte always does. */
  lemma SmallInFormat(codec: Tables.Codec, file: bytes, s: seq<Entry>)
    requires Encodable(s) && Tables.Cost(PairsOf(s)) <= Tables.CostLimit && |file| <= MaxUint32
    ensures InFormat(codec, file, s)
  {
    hide PairsOf, Tables.Flat, Tables.NonEmpty, Tables.Cost, Readers.TableFits;
    forall blocks, filter | Tables.NonEmpty(blocks) && Tables.Flat(blocks) == PairsOf(s) && file == Tables.TableBytes(codec, blocks, filter)
      ensures Readers.TableFits(codec, blocks, filter)
    {
      assert |Tables.FilterBytes(filter)| <= |file|;
      Readers.SmallTableFits(codec, blocks, filter);
    }
  }

  /** A table written from a memtable iterates to the memtable's entries, in the
      comparator's order. */
  method ReadBack(codec: Tables.Codec, file: bytes, ghost s: seq<Entry>) returns (ps: seq<Blocks.Pair>)
    requires Tables.Sound(codec) && IsTableOf(codec, file, s) && InFormat(codec, file, s)
    ensures ps == PairsOf(s)
    ensures Sorted(s) ==> forall i, j :: 0 <= i < j < |ps| ==> CompareKeys(ps[i].key, ps[j].key) < 0
  {
    hide PairsOf, Sorted, Tables.Flat, Tables.NonEmpty, Tables.Cost, Tables.Sound, Readers.TableFits;
    ghost var blocks, filter :|
      Tables.NonEmpty(blocks) && Tables.Flat(blocks) == PairsOf(s) && file == Tables.TableBytes(codec, blocks, filter);
    ps := Readers.ReadTable(codec, file, blocks, filter);
    PairsAscend(s);
  }

  lemma Countable(mt: Skiplist)
    requires mt.Valid()
    ensures mt.count == |mt.contents|
  {
  }
}
