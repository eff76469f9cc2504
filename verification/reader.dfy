/** Reading tables back: the footer, blocks with and without a cache, and the
    two-level iterator. */
module Readers {
  import opened Bytes
  import opened Blocks
  import opened Tables

  // ------------------------------------------------------ what a built file says

  /** The sizes the format's 32- and 64-bit fields can hold. */
  ghost predicate TableFits(c: Codec, blocks: seq<seq<Pair>>, filter: Option<bytes>)
    requires NonEmpty(blocks)
  {
    && |TableBytes(c, blocks, filter)| <= MaxUint64
    && (forall i :: 0 <= i < |blocks| ==> Fits(blocks[i]))
    && Fits(IndexEntries(c, blocks, |blocks|))
    && Fits(MetaEntries(|Laid(c, blocks)|, filter))
  }

  lemma MetaCost(at: nat, filter: Option<bytes>)
    ensures Cost(MetaEntries(at, filter)) <= 97
  {
    hide EncodeHandle;
    match filter {
      case None =>
      case Some(f) =>
        var es := MetaEntries(at, filter);
        assert es[..0] == [];
    }
  }

  /** Tables with up to a gigabyte of entries do fit. */
  lemma SmallTableFits(c: Codec, blocks: seq<seq<Pair>>, filter: Option<bytes>)
    requires NonEmpty(blocks) && Cost(Flat(blocks)) <= CostLimit && |FilterBytes(filter)| <= MaxUint32
    ensures TableFits(c, blocks, filter)
  {
    hide Finished, Stored, Cost, Flat, Laid, Fits, IndexEntries, MetaEntries;
    LaidSize(c, blocks);
    IndexCost(c, blocks, |blocks|);
    assert blocks[..|blocks|] == blocks;
    MetaCost(|Laid(c, blocks)|, filter);
    var index, meta := IndexEntries(c, blocks, |blocks|), MetaEntries(|Laid(c, blocks)|, filter);
    BlockSize(index);
    BlockSize(meta);
    StoredSize(c, Finished(index));
    StoredSize(c, Finished(meta));
  }

  function ReadFooter(file: bytes): Option<Footer> {
    if |file| < FooterSize then None else DecodeFooter(file[|file| - FooterSize..])
  }

  lemma FiveParts(a: bytes, b: bytes, c: bytes, d: bytes, e: bytes)
    ensures var f := a + b + c + d + e;
            && f[|f| - |e|..] == e
            && f[|a|..|a| + |b|] == b
            && f == (a + b) + c + (d + e)
            && f == (a + b + c) + d + e
            && f == a + (b + c + d + e)
  {
  }

  /** The footer of a built file leads to its meta index, and that to the filter. */
  lemma TableReads(c: Codec, blocks: seq<seq<Pair>>, filter: Option<bytes>)
    requires Sound(c) && NonEmpty(blocks) && TableFits(c, blocks, filter)
    ensures var file := TableBytes(c, blocks, filter);
            var data := Laid(c, blocks);
            var index := IndexEntries(c, blocks, |blocks|);
            var footer := FooterOf(c, data, filter, index);
            && ReadFooter(file) == Some(footer)
            && ReadBlock(c, file, footer.index) == Content(Finished(index))
            && ReadBlock(c, file, footer.metaindex) == Content(Finished(MetaEntries(|data|, filter)))
            && |data| + |FilterBytes(filter)| <= |file|
            && file[|data|..|data| + |FilterBytes(filter)|] == FilterBytes(filter)
  {
    hide Finished, Stored, Laid, EncodeFooter, ReadBlock, DecodeFooter, Fits, IndexEntries, MetaEntries, FilterBytes;
    var data, f, index := Laid(c, blocks), FilterBytes(filter), IndexEntries(c, blocks, |blocks|);
    var m, x := Finished(MetaEntries(|data|, filter)), Finished(index);
    var footer := FooterOf(c, data, filter, index);
    FiveParts(data, f, Stored(c, m), Stored(c, x), EncodeFooter(footer));
    StoredReadsBack(c, data + f, m, Stored(c, x) + EncodeFooter(footer));
    StoredReadsBack(c, data + f + Stored(c, m), x, EncodeFooter(footer));
    FooterRoundTrip(footer);
  }

  /** Index entry i leads to data block i. */
  lemma DataBlockReads(c: Codec, blocks: seq<seq<Pair>>, filter: Option<bytes>, i: nat)
    requires Sound(c) && NonEmpty(blocks) && TableFits(c, blocks, filter) && i < |blocks|
    ensures var file := TableBytes(c, blocks, filter);
            ReadBlock(c, file, DecodeHandle(IndexEntries(c, blocks, |blocks|)[i].value)) == Content(Finished(blocks[i]))
  {
    hide Finished, Stored, EncodeFooter, ReadBlock, Fits, MetaEntries, FilterBytes, EncodeHandle, DecodeHandle,
         FooterOf;
    var data, f := Laid(c, blocks), FilterBytes(filter);
    var index := IndexEntries(c, blocks, |blocks|);
    var m, x := Stored(c, Finished(MetaEntries(|data|, filter))), Stored(c, Finished(index));
    var footer := EncodeFooter(FooterOf(c, data, filter, index));
    FiveParts(data, f, m, x, footer);
    var after := LaidSplits(c, blocks, i);
    var before, mine := Laid(c, blocks[..i]), Finished(blocks[i]);
    var rest := f + m + x + footer;
    assert before + Stored(c, mine) + after + rest == before + Stored(c, mine) + (after + rest);
    StoredReadsBack(c, before, mine, after + rest);
    var h := HandleOf(c, blocks, i);
    HandleRoundTrip(h, []);
    assert EncodeHandle(h) + [] == EncodeHandle(h);
  }

  // ------------------------------------------------------------- the iterator

  lemma {:induction false} FlatAt(blocks: seq<seq<Pair>>, b: nat)
    requires b < |blocks|
    ensures |Flat(blocks[..b])| + |blocks[b]| <= |Flat(blocks)|
    ensures Flat(blocks)[|Flat(blocks[..b])|..|Flat(blocks[..b])| + |blocks[b]|] == blocks[b]
    ensures Flat(blocks[..b + 1]) == Flat(blocks[..b]) + blocks[b]
    decreases |blocks|
  {
    var n := |blocks| - 1;
    assert blocks[..b + 1][..b] == blocks[..b];
    if b < n {
      var front := blocks[..n];
      FlatAt(front, b);
      assert front[..b] == blocks[..b] && front[..b + 1] == blocks[..b + 1];
    } else {
      assert blocks[..b + 1] == blocks;
    }
  }

  class TableIterator {
    const codec: Codec
    const file: bytes
    const index: BlockIterator
    var data: BlockIterator?
    var valid: bool
    var err: bool
    /** What the file was built from, and where the iterator stands. */
    ghost const blocks: seq<seq<Pair>>
    ghost const filter: Option<bytes>
    ghost var block: nat
    ghost var entry: nat

    /** The file is a built table and the index its index block. */
    ghost predicate Built() {
      && Sound(codec) && NonEmpty(blocks) && TableFits(codec, blocks, filter)
      && file == TableBytes(codec, blocks, filter)
      && index.Built() && index.Readable() && index.es == IndexEntries(codec, blocks, |blocks|)
    }

    ghost predicate Loaded()
      reads this, index, data
    {
      && block <= |blocks| && index.At(block) && !index.err && !err
      && (block == |blocks| ==> data == null && !valid)
      && (block < |blocks| ==>
            && data != null && data != index && data.es == blocks[block]
            && data.Built() && data.Readable() && !data.err)
    }

    ghost predicate Valid()
      reads this, index, data
    {
      && Built() && Loaded()
      && (block < |blocks| ==> entry < |blocks[block]| && valid && data.At(entry))
      && (block == |blocks| ==> entry == 0)
    }

    /** How many entries lie behind. */
    ghost function Position(): nat
      reads this
    {
      |Flat(blocks[..if block < |blocks| then block else |blocks|])| + entry
    }

    predicate IsValid()
      reads this
    {
      valid && !err
    }

    constructor (codec: Codec, file: bytes, index: BlockIterator, ghost blocks: seq<seq<Pair>>,
                 ghost filter: Option<bytes>)
      ensures !err && !valid && data == null
      ensures this.codec == codec && this.file == file && this.index == index && this.blocks == blocks && this.filter == filter
    {
      this.codec, this.file, this.index, this.blocks, this.filter := codec, file, index, blocks, filter;
      data, valid, err := null, false, false;
      block, entry := 0, 0;
    }

    method LoadDataBlock()
      requires index.IsValid() ==> |index.value| >= 16
      modifies this`data, this`valid, this`err
      ensures old(data) != data && data != null ==> fresh(data)
      ensures !index.IsValid() ==> data == null && !valid && err == old(err)
      ensures index.IsValid() && !ReadBlock(codec, file, DecodeHandle(index.value)).Content? ==> err && !valid && data == old(data)
      ensures Built() && block < |blocks| && index.At(block) && !index.err && !old(err) ==>
                && !err && data != null && fresh(data) && data.es == blocks[block]
                && data.Built() && data.Readable() && !data.err
    {
      hide Finished, Stored, Laid, ReadBlock, DecodeHandle, TableBytes, Fits, Built, BlockIterator.At;
      if Built() && block < |blocks| && index.At(block) && !index.err { IndexLeads(block); }
      if !index.IsValid() {
        data, valid := null, false;
        return;
      }
      match ReadBlock(codec, file, DecodeHandle(index.value)) {
        case Content(content) =>
          data := new BlockIterator(content, if block < |blocks| then blocks[block] else []);
        case _ =>
          err, valid := true, false;
      }
    }

    /** Key and Value are those of the entry at this position; past the last one
        the iterator is invalid. */
    lemma CurrentEntry()
      requires Valid()
      ensures Position() <= |Flat(blocks)|
      ensures IsValid() <==> Position() < |Flat(blocks)|
      ensures IsValid() ==> data != null && Pair(data.key, data.value) == Flat(blocks)[Position()]
    {
      hide Finished, TableBytes, TableFits, IndexEntries, Flat, BlockIterator.Built;
      if block < |blocks| {
        FlatAt(blocks, block);
        var p := |Flat(blocks[..block])|;
        assert Flat(blocks)[p..p + |blocks[block]|][entry] == blocks[block][entry];
      } else {
        assert blocks[..block] == blocks;
      }
    }

    lemma IndexLeads(b: nat)
      requires Built() && b < |blocks| && index.At(b) && !index.err
      ensures index.IsValid() && |index.value| >= 16 && Fits(blocks[b])
      ensures ReadBlock(codec, file, DecodeHandle(index.value)) == Content(Finished(blocks[b]))
    {
      hide Finished, Stored, Laid, ReadBlock, DecodeHandle, TableBytes, Fits, HandleOf, BlockIterator.Built;
      DataBlockReads(codec, blocks, filter, b);
    }

    lemma IndexValueSize(b: nat)
      requires Built() && index.At(b)
      ensures index.IsValid() ==> |index.value| >= 16
    {
      hide TableFits, TableBytes, HandleOf;
    }

    /** From an index entry, or past the last, to the first entry of its block. */
    method EnterBlock()
      requires Built() && block <= |blocks| && index.At(block) && !index.err && !err && index != data
      modifies this`data, this`valid, this`err, this`entry
      ensures Valid() && entry == 0 && block == old(block)
      ensures data == null || fresh(data)
    {
      hide Finished, TableBytes, TableFits, IndexEntries, Flat, ParseEntry, BlockIterator.At, BlockIterator.Built;
      IndexValueSize(block);
      index.Standing(block);
      LoadDataBlock();
      entry := 0;
      if data != null {
        data.SeekToFirst();
        data.Standing(0);
        valid := data.IsValid();
      } else {
        valid := false;
      }
    }

    method SeekToFirst()
      requires Built() && !err && !index.err && index != data
      modifies this, index
      ensures Valid() && Position() == 0
      ensures data == null || fresh(data)
    {
      hide Finished, TableBytes, TableFits, IndexEntries, ParseEntry;
      index.SeekToFirst();
      block := 0;
      EnterBlock();
      FlatStarts(blocks);
    }

    /** Moves on one entry, into the next block if need be. */
    method Next()
      requires Valid()
      modifies this, index, data
      ensures Valid()
      ensures Position() == if old(IsValid()) then old(Position()) + 1 else old(Position())
      ensures data == null || data == old(data) || fresh(data)
    {
      hide Finished, TableBytes, TableFits, IndexEntries, Flat, ParseEntry, Fits, BlockIterator.At, BlockIterator.Built;
      if data == null { return; }
      data.Next(entry);
      entry := entry + 1;
      data.Standing(entry);
      if !data.IsValid() {
        FlatAt(blocks, block);
        index.Next(block);
        block := block + 1;
        EnterBlock();
      } else {
        valid := true;
      }
    }
  }

  /** Opens a table: null when its footer or its index block does not read. */
  method NewIterator(codec: Codec, file: bytes, ghost blocks: seq<seq<Pair>>, ghost filter: Option<bytes>)
    returns (it: TableIterator?)
    requires Sound(codec) && NonEmpty(blocks)
    ensures TableFits(codec, blocks, filter) && file == TableBytes(codec, blocks, filter) ==>
              && it != null && fresh(it) && fresh(it.index) && it.Built() && it.blocks == blocks
              && !it.err && !it.index.err && it.data == null
  {
    hide Finished, TableBytes, Fits, IndexEntries, Flat, ReadBlock, ReadFooter, FooterOf, MetaEntries, FilterBytes,
         Laid;
    if TableFits(codec, blocks, filter) && file == TableBytes(codec, blocks, filter) {
      TableReads(codec, blocks, filter);
    }
    match ReadFooter(file) {
      case None => return null;
      case Some(footer) =>
        match ReadBlock(codec, file, footer.index) {
          case Content(content) =>
            var index := new BlockIterator(content, IndexEntries(codec, blocks, |blocks|));
            it := new TableIterator(codec, file, index, blocks, filter);
          case _ => return null;
        }
    }
  }

  // ------------------------------------------------------------ the round trip

  function FilterOf(createFilter: seq<bytes> -> bytes, es: seq<Pair>): Option<bytes> {
    if es == [] then None else Some(createFilter(UserKeys(es)))
  }

  /** Builds a table from a list of entries. */
  method BuildTable(codec: Codec, createFilter: seq<bytes> -> bytes, es: seq<Pair>)
    returns (file: bytes, ghost blocks: seq<seq<Pair>>, ghost filter: Option<bytes>)
    ensures NonEmpty(blocks) && WellCut(blocks) && Flat(blocks) == es && file == TableBytes(codec, blocks, filter)
    ensures filter == FilterOf(createFilter, es)
  {
    hide Finished, TableBytes, Flat, WellCut, NonEmpty, UserKeys, Builder.Filling;
    var b := new Builder(codec, createFilter);
    for i := 0 to |es|
      invariant b.Valid() && !b.closed && fresh(b) && fresh(b.dataBlock) && fresh(b.indexBlock) && fresh(b.metaIndexBlock)
      invariant b.contents == es[..i] && b.codec == codec && b.createFilter == createFilter
    {
      var _ := b.Add(es[i].key, es[i].value);
      assert es[..i + 1] == es[..i] + [Pair(es[i].key, es[i].value)];
    }
    assert es[..|es|] == es;
    b.Close();
    file, blocks, filter := b.out, b.blocks, b.Filter();
  }

  /** Walks a table from its first entry. */
  method ReadTable(codec: Codec, file: bytes, ghost blocks: seq<seq<Pair>>, ghost filter: Option<bytes>)
    returns (es: seq<Pair>)
    requires Sound(codec) && NonEmpty(blocks) && TableFits(codec, blocks, filter)
    requires file == TableBytes(codec, blocks, filter)
    ensures es == Flat(blocks)
  {
    hide Finished, TableBytes, TableFits, Flat, NonEmpty, Sound, TableIterator.Built, TableIterator.Position,
         TableIterator.Valid;
    var it := NewIterator(codec, file, blocks, filter);
    es := [];
    it.SeekToFirst();
    ghost var n := 0;
    it.CurrentEntry();
    while it.IsValid()
      invariant it.Valid() && it.blocks == blocks && fresh(it) && fresh(it.index) && (it.data != null ==> fresh(it.data))
      invariant n == it.Position() <= |Flat(blocks)| && es == Flat(blocks)[..n]
      invariant it.IsValid() <==> n < |Flat(blocks)|
      invariant it.IsValid() ==> it.data != null && Pair(it.data.key, it.data.value) == Flat(blocks)[n]
      decreases |Flat(blocks)| - n
    {
      es := es + [Pair(it.data.key, it.data.value)];
      it.Next();
      n := n + 1;
      it.CurrentEntry();
    }
  }

  /** However the builder cuts these entries, the table stays within the format's
      field widths. */
  ghost predicate FitsFormat(codec: Codec, createFilter: seq<bytes> -> bytes, es: seq<Pair>) {
    forall blocks :: NonEmpty(blocks) && WellCut(blocks) && Flat(blocks) == es ==> TableFits(codec, blocks, FilterOf(createFilter, es))
  }

  /** Up to a gigabyte always does. */
  lemma SmallFitsFormat(codec: Codec, createFilter: seq<bytes> -> bytes, es: seq<Pair>)
    requires Cost(es) <= CostLimit && |createFilter(UserKeys(es))| <= MaxUint32
    ensures FitsFormat(codec, createFilter, es)
  {
    hide Cost, TableFits, WellCut, Flat, NonEmpty, UserKeys;
    forall blocks | NonEmpty(blocks) && WellCut(blocks) && Flat(blocks) == es ensures TableFits(codec, blocks, FilterOf(createFilter, es)) {
      SmallTableFits(codec, blocks, FilterOf(createFilter, es));
    }
  }

  /** What a table is for: it gives back exactly the entries it was built from, in
      order, for any entries whose table fits the format's fields. */
  method RoundTrip(codec: Codec, createFilter: seq<bytes> -> bytes, es: seq<Pair>) returns (back: seq<Pair>)
    requires Sound(codec) && FitsFormat(codec, createFilter, es)
    ensures back == es
  {
    hide TableBytes, TableFits, WellCut, Flat, NonEmpty, UserKeys;
    var file, blocks, filter := BuildTable(codec, createFilter, es);
    back := ReadTable(codec, file, blocks, filter);
  }

  lemma FlatStarts(blocks: seq<seq<Pair>>)
    ensures Flat(blocks[..0]) == []
  {
  }
}
