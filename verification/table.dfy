/** Tables: data blocks, a filter, a meta index, an index of block handles and a
    footer; the builder that lays them out and the iterator that walks them. */
module Tables {
  import opened Bytes
  import opened Blocks
  import opened Framing
  import InternalKeys

  // ---------------------------------------------------- handles and footer

  datatype BlockHandle = BlockHandle(offset: nat, length: nat)
  datatype Footer = Footer(metaindex: BlockHandle, index: BlockHandle)

  const MagicNumber: nat := 0x5645524E_00000008
  const FooterSize: nat := 40

  function EncodeHandle(h: BlockHandle): (b: bytes) ensures |b| == 16 { PutU64(h.offset) + PutU64(h.length) }

  function DecodeHandle(b: bytes): BlockHandle
    requires |b| >= 16
  {
    BlockHandle(U64At(b, 0), U64At(b, 8))
  }

  function EncodeFooter(f: Footer): (b: bytes) ensures |b| == FooterSize {
    EncodeHandle(f.metaindex) + EncodeHandle(f.index) + PutU64(MagicNumber)
  }

  /** None for a corrupt footer: too short, or another magic number. */
  function DecodeFooter(b: bytes): Option<Footer> {
    if |b| < FooterSize || U64At(b, 32) != MagicNumber then None
    else Some(Footer(DecodeHandle(b[0..]), DecodeHandle(b[16..])))
  }

  ghost predicate InRange(h: BlockHandle) { h.offset <= MaxUint64 && h.length <= MaxUint64 }

  lemma HandleRoundTrip(h: BlockHandle, rest: bytes)
    requires InRange(h)
    ensures DecodeHandle(EncodeHandle(h) + rest) == h
  {
    var b := EncodeHandle(h) + rest;
    assert b[0..8] == PutU64(h.offset) && b[8..16] == PutU64(h.length);
    U64RoundTrip(b, 0, h.offset);
    U64RoundTrip(b, 8, h.length);
  }

  lemma FooterRoundTrip(f: Footer)
    requires InRange(f.metaindex) && InRange(f.index)
    ensures DecodeFooter(EncodeFooter(f)) == Some(f)
  {
    hide EncodeHandle, DecodeHandle, PutU64, U64At;
    var b, m := EncodeFooter(f), PutU64(MagicNumber);
    FooterSlices(EncodeHandle(f.metaindex), EncodeHandle(f.index), m);
    U64RoundTrip(b, 32, MagicNumber);
    HandleRoundTrip(f.metaindex, EncodeHandle(f.index) + m);
    HandleRoundTrip(f.index, m);
  }

  /** A footer's forty bytes, and the only bytes a footer is accepted from. */
  lemma FooterLayout(f: Footer, b: bytes)
    requires InRange(f.metaindex) && InRange(f.index)
    ensures var e := EncodeFooter(f);
            && |e| == 40 && U64At(e, 0) == f.metaindex.offset && U64At(e, 8) == f.metaindex.length
            && U64At(e, 16) == f.index.offset && U64At(e, 24) == f.index.length && U64At(e, 32) == 0x5645524E_00000008
    ensures DecodeFooter(b).Some? <==> |b| >= 40 && U64At(b, 32) == 0x5645524E_00000008
  {
    hide PutU64, U64At, GetLE;
    var e := EncodeFooter(f);
    var s := [f.metaindex.offset, f.metaindex.length, f.index.offset, f.index.length, MagicNumber];
    FooterFields(PutU64(s[0]), PutU64(s[1]), PutU64(s[2]), PutU64(s[3]), PutU64(s[4]));
    U64RoundTrip(e, 0, s[0]);
    U64RoundTrip(e, 8, s[1]);
    U64RoundTrip(e, 16, s[2]);
    U64RoundTrip(e, 24, s[3]);
    U64RoundTrip(e, 32, s[4]);
  }

  lemma FooterFields(p: bytes, q: bytes, r: bytes, s: bytes, t: bytes)
    requires |p| == |q| == |r| == |s| == |t| == 8
    ensures var b := (p + q) + (r + s) + t;
            b[0..0 + 8] == p && b[8..8 + 8] == q && b[16..16 + 8] == r && b[24..24 + 8] == s && b[32..32 + 8] == t
  {
  }

  lemma FooterSlices(x: bytes, y: bytes, z: bytes)
    requires |x| == |y| == 16 && |z| == 8
    ensures var b := x + y + z; b[0..] == x + (y + z) && b[16..] == y + z && b[32..40] == z
  {
  }

  // ---------------------------------------------------------- stored blocks

  /** The checksum and the compression a build uses. */
  datatype Codec = Codec(crc: Checksum, compress: bytes -> bytes, decompress: bytes -> Option<bytes>)

  ghost predicate Sound(c: Codec) {
    forall x :: c.decompress(c.compress(x)) == Some(x)
  }

  /** Compressed when that saves more than two bytes, then a type byte and the
      checksum of both. */
  function Stored(c: Codec, content: bytes): bytes {
    var z := c.compress(content);
    var body := if |z| < |content| - 2 then z + [1] else content + [0];
    body + PutU32(c.crc(body))
  }

  lemma StoredSize(c: Codec, content: bytes)
    ensures 5 <= |Stored(c, content)| <= |content| + 5
  {
  }

  datatype ReadResult = Content(content: bytes) | ReadFailed | TooShort | ChecksumMismatch | BadCompression | UnknownType

  function ReadBlock(c: Codec, file: bytes, h: BlockHandle): ReadResult {
    if h.offset + h.length > |file| then ReadFailed
    else
      var data := file[h.offset..h.offset + h.length];
      if |data| < 5 then TooShort
      else
        var body := data[..|data| - 4];
        if c.crc(body) != U32At(data, |data| - 4) then ChecksumMismatch
        else if body[|body| - 1] == 0 then Content(body[..|body| - 1])
        else if body[|body| - 1] == 1 then
          match c.decompress(body[..|body| - 1])
          case None => BadCompression
          case Some(x) => Content(x)
        else UnknownType
  }

  lemma StoredReadsBack(c: Codec, before: bytes, content: bytes, after: bytes)
    requires Sound(c)
    ensures ReadBlock(c, before + Stored(c, content) + after, BlockHandle(|before|, |Stored(c, content)|)) == Content(content)
  {
    var z := c.compress(content);
    var body := if |z| < |content| - 2 then z + [1] else content + [0];
    var data := Stored(c, content);
    var sum := PutU32(c.crc(body));
    assert data == body + sum && |data| - 4 == |body|;
    assert (before + data + after)[|before|..|before| + |data|] == data;
    assert data[|body|..|body| + 4] == sum;
    U32RoundTrip(data, |data| - 4, c.crc(body));
    assert data[..|data| - 4] == body;
    assert body[..|body| - 1] == if |z| < |content| - 2 then z else content;
  }

  /** What is written for a block: compressed exactly when that saves more than two
      bytes, a byte saying so, and the checksum of all before it. */
  lemma StoredExactly(c: Codec, content: bytes)
    ensures var z, data := c.compress(content), Stored(c, content);
            && |data| >= 5 && U32At(data, |data| - 4) == c.crc(data[..|data| - 4])
            && data[..|data| - 4] == if |z| + 2 < |content| then z + [1] else content + [0]
  {
    var z, data := c.compress(content), Stored(c, content);
    var body := if |z| < |content| - 2 then z + [1] else content + [0];
    assert data == body + PutU32(c.crc(body)) && data[..|data| - 4] == body;
    assert data[|data| - 4..|data| - 4 + 4] == PutU32(c.crc(body));
    U32RoundTrip(data, |data| - 4, c.crc(body));
  }

  /** A block is read exactly when its checksum is that of its bytes and its type
      byte is one of the two, the second with bytes that decompress. */
  lemma ReadsIntactOnly(c: Codec, file: bytes, h: BlockHandle)
    requires h.offset + h.length <= |file| && h.length >= 5
    ensures var data := file[h.offset..h.offset + h.length];
            var body, kind := data[..h.length - 5], data[h.length - 5];
            var intact := U32At(data, h.length - 4) == c.crc(data[..h.length - 4]);
            && (!intact <==> ReadBlock(c, file, h) == ChecksumMismatch)
            && (intact && kind == 0 ==> ReadBlock(c, file, h) == Content(body))
            && (intact && kind == 1 && c.decompress(body).Some? ==> ReadBlock(c, file, h) == Content(c.decompress(body).value))
            && (ReadBlock(c, file, h).Content? ==> intact && (kind == 0 || (kind == 1 && c.decompress(body).Some?)))
  {
    hide GetLE;
    var data := file[h.offset..h.offset + h.length];
    assert data[..h.length - 4][..h.length - 5] == data[..h.length - 5];
  }

  // ------------------------------------------------------------- the layout

  function Laid(c: Codec, blocks: seq<seq<Pair>>): bytes
    decreases |blocks|
  {
    if blocks == [] then [] else Laid(c, blocks[..|blocks| - 1]) + Stored(c, Finished(blocks[|blocks| - 1]))
  }

  function HandleOf(c: Codec, blocks: seq<seq<Pair>>, i: nat): BlockHandle
    requires i < |blocks|
  {
    BlockHandle(|Laid(c, blocks[..i])|, |Stored(c, Finished(blocks[i]))|)
  }

  /** One index entry per block: its last key and its handle. */
  function IndexEntry(c: Codec, blocks: seq<seq<Pair>>, i: nat): Pair
    requires i < |blocks| && blocks[i] != []
  {
    Pair(blocks[i][|blocks[i]| - 1].key, EncodeHandle(HandleOf(c, blocks, i)))
  }

  ghost predicate NonEmpty(blocks: seq<seq<Pair>>) {
    forall i :: 0 <= i < |blocks| ==> blocks[i] != []
  }

  ghost function IndexEntries(c: Codec, blocks: seq<seq<Pair>>, n: nat): (es: seq<Pair>)
    requires NonEmpty(blocks) && n <= |blocks|
    ensures |es| == n
  {
    seq(n, i requires 0 <= i < n => IndexEntry(c, blocks, i))
  }

  function Flat(blocks: seq<seq<Pair>>): seq<Pair>
    decreases |blocks|
  {
    if blocks == [] then [] else Flat(blocks[..|blocks| - 1]) + blocks[|blocks| - 1]
  }

  lemma {:induction false} LaidSplits(c: Codec, blocks: seq<seq<Pair>>, i: nat) returns (after: bytes)
    requires i < |blocks|
    ensures Laid(c, blocks) == Laid(c, blocks[..i]) + Stored(c, Finished(blocks[i])) + after
    decreases |blocks|
  {
    hide Stored, Finished;
    var n := |blocks| - 1;
    if i == n {
      after := [];
    } else {
      var front := blocks[..n];
      var a := LaidSplits(c, front, i);
      assert front[..i] == blocks[..i];
      var last := Stored(c, Finished(blocks[n]));
      after := a + last;
      assert Laid(c, blocks[..i]) + Stored(c, Finished(blocks[i])) + a + last
          == Laid(c, blocks[..i]) + Stored(c, Finished(blocks[i])) + (a + last);
    }
  }

  lemma HandleOfAppended(c: Codec, blocks: seq<seq<Pair>>, b: seq<Pair>, i: nat)
    requires i <= |blocks|
    ensures i < |blocks| ==> HandleOf(c, blocks + [b], i) == HandleOf(c, blocks, i)
    ensures HandleOf(c, blocks + [b], |blocks|) == BlockHandle(|Laid(c, blocks)|, |Stored(c, Finished(b))|)
  {
    hide Stored, Finished, Laid;
    if i < |blocks| { assert (blocks + [b])[..i] == blocks[..i]; }
    assert (blocks + [b])[..|blocks|] == blocks;
  }

  // ----------------------------------------------------------- size accounting

  /** An upper bound on what entries can take up in a block. */
  function Cost(es: seq<Pair>): nat
    decreases |es|
  {
    if es == [] then 0 else Cost(es[..|es| - 1]) + |es[|es| - 1].key| + |es[|es| - 1].value| + 64
  }

  const CostLimit: nat := 0x4000_0000

  lemma {:induction false} CostConcat(a: seq<Pair>, b: seq<Pair>)
    ensures Cost(a + b) == Cost(a) + Cost(b)
    decreases |b|
  {
    if b == [] {
      assert a + b == a;
    } else {
      assert (a + b)[..|a + b| - 1] == a + b[..|b| - 1];
      CostConcat(a, b[..|b| - 1]);
    }
  }

  lemma {:induction false} UvarintSize(x: nat, i: nat)
    requires i <= 9 && x < VarintLimit(i)
    ensures |PutUvarint(x)| <= 10 - i
    decreases 9 - i
  {
    if x >= 128 { UvarintSize(x / 128, i + 1); }
  }

  lemma {:induction false} EncodedSize(es: seq<Pair>, n: nat)
    requires n <= |es| && forall e :: e in es ==> |e.key| <= MaxUint64 && |e.value| <= MaxUint64
    ensures |Encoded(es, n)| + 30 * n <= Cost(es[..n])
    decreases n
  {
    hide Chunk;
    if n > 0 {
      EncodedSize(es, n - 1);
      assert es[..n][..n - 1] == es[..n - 1];
      assert es[n - 1] in es;
      ChunkSize(es, n - 1);
    }
  }

  lemma ChunkSize(es: seq<Pair>, i: nat)
    requires i < |es| && |es[i].key| <= MaxUint64 && |es[i].value| <= MaxUint64
    ensures |Chunk(es, i)| <= |es[i].key| + |es[i].value| + 30
  {
    hide PutUvarint;
    VarintHolds64Bits();
    UvarintSize(SharedAt(es, i), 0);
    UvarintSize(|es[i].key| - SharedAt(es, i), 0);
    UvarintSize(|es[i].value|, 0);
  }

  lemma {:induction false} CostBounds(es: seq<Pair>, e: Pair)
    requires e in es
    ensures |e.key| + |e.value| + 64 <= Cost(es)
    decreases |es|
  {
    if e != es[|es| - 1] { assert e in es[..|es| - 1]; CostBounds(es[..|es| - 1], e); }
  }

  lemma BlockSize(es: seq<Pair>)
    requires Cost(es) <= 4 * CostLimit - 64
    ensures |Finished(es)| <= Cost(es) + 8 && Fits(es)
  {
    hide Encoded, Cost;
    forall e | e in es ensures |e.key| <= MaxUint64 && |e.value| <= MaxUint64 { CostBounds(es, e); }
    EncodedSize(es, |es|);
    assert es[..|es|] == es;
  }

  lemma {:induction false} LaidSize(c: Codec, blocks: seq<seq<Pair>>)
    requires NonEmpty(blocks) && Cost(Flat(blocks)) <= CostLimit
    ensures |Laid(c, blocks)| <= 2 * Cost(Flat(blocks))
    ensures forall i :: 0 <= i < |blocks| ==> Fits(blocks[i])
    decreases |blocks|
  {
    hide Cost, Finished, Stored, Fits;
    if blocks != [] {
      var n := |blocks| - 1;
      var last := blocks[n];
      assert last != [];
      CostConcat(Flat(blocks[..n]), last);
      LaidSize(c, blocks[..n]);
      BlockSize(last);
      StoredSize(c, Finished(last));
      CostBounds(last, last[0]);
      forall i | 0 <= i < |blocks| ensures Fits(blocks[i]) { if i < n { assert blocks[i] == blocks[..n][i]; } }
    }
  }

  lemma CostAppend(es: seq<Pair>, e: Pair)
    ensures Cost(es + [e]) == Cost(es) + |e.key| + |e.value| + 64
  {
    assert (es + [e])[..|es|] == es;
  }

  /** One index entry costs the last key of its block and a handle. */
  lemma IndexStep(c: Codec, blocks: seq<seq<Pair>>, n: nat)
    requires NonEmpty(blocks) && n < |blocks|
    ensures blocks[n] != []
    ensures Cost(IndexEntries(c, blocks, n + 1)) == Cost(IndexEntries(c, blocks, n)) + |blocks[n][|blocks[n]| - 1].key| + 80
  {
    hide HandleOf, Cost, Flat;
    CostAppend(IndexEntries(c, blocks, n), IndexEntry(c, blocks, n));
    assert IndexEntries(c, blocks, n + 1) == IndexEntries(c, blocks, n) + [IndexEntry(c, blocks, n)];
  }

  lemma FlatCost(blocks: seq<seq<Pair>>, n: nat)
    requires n < |blocks| && blocks[n] != []
    ensures Cost(Flat(blocks[..n + 1])) >= Cost(Flat(blocks[..n])) + |blocks[n][|blocks[n]| - 1].key| + 64
  {
    hide Cost;
    var last := blocks[n];
    assert blocks[..n + 1][..n] == blocks[..n];
    CostConcat(Flat(blocks[..n]), last);
    CostBounds(last, last[|last| - 1]);
  }

  lemma {:induction false} IndexCost(c: Codec, blocks: seq<seq<Pair>>, n: nat)
    requires NonEmpty(blocks) && n <= |blocks|
    ensures Cost(IndexEntries(c, blocks, n)) <= 2 * Cost(Flat(blocks[..n]))
    decreases n
  {
    if n == 0 {
      assert IndexEntries(c, blocks, 0) == [];
    } else {
      hide Cost, Flat, IndexEntries, NonEmpty;
      var m := n - 1;
      IndexCost(c, blocks, m);
      IndexStep(c, blocks, m);
      FlatCost(blocks, m);
      assert m + 1 == n;
    }
  }

  // ------------------------------------------------------------- a whole table

  const FilterName: bytes := [118, 101, 114, 110, 46, 102, 105, 108, 116, 101, 114, 46, 98, 108, 111, 111, 109]

  function MetaEntries(at: nat, filter: Option<bytes>): seq<Pair> {
    match filter
    case None => []
    case Some(f) => [Pair(FilterName, EncodeHandle(BlockHandle(at, |f|)))]
  }

  function FilterBytes(filter: Option<bytes>): bytes {
    match filter case None => [] case Some(f) => f
  }

  function FooterOf(c: Codec, data: bytes, filter: Option<bytes>, index: seq<Pair>): Footer {
    var m := |data| + |FilterBytes(filter)|;
    var n := |Stored(c, Finished(MetaEntries(|data|, filter)))|;
    Footer(BlockHandle(m, n), BlockHandle(m + n, |Stored(c, Finished(index))|))
  }

  /** Data blocks, filter, meta index, index, footer. */
  function Sealed(c: Codec, data: bytes, filter: Option<bytes>, index: seq<Pair>): bytes {
    data + FilterBytes(filter) + Stored(c, Finished(MetaEntries(|data|, filter)))
    + Stored(c, Finished(index)) + EncodeFooter(FooterOf(c, data, filter, index))
  }

  ghost function TableBytes(c: Codec, blocks: seq<seq<Pair>>, filter: Option<bytes>): bytes
    requires NonEmpty(blocks)
  {
    Sealed(c, Laid(c, blocks), filter, IndexEntries(c, blocks, |blocks|))
  }

  const BlockLimit: nat := 4096

  /** A block is cut by the first entry that brings it to the size limit. */
  ghost predicate Cut(es: seq<Pair>) {
    es != [] && Offset(es, |es| - 1) < BlockLimit <= Offset(es, |es|)
  }

  ghost predicate WellCut(blocks: seq<seq<Pair>>) {
    && (forall i :: 0 <= i < |blocks| - 1 ==> Cut(blocks[i]))
    && (blocks != [] ==> var last := blocks[|blocks| - 1]; last != [] && Offset(last, |last| - 1) < BlockLimit)
  }

  /** Full blocks and a last one that had not yet reached the limit. */
  lemma EndsWell(blocks: seq<seq<Pair>>, last: seq<Pair>, size: nat)
    requires (forall i :: 0 <= i < |blocks| ==> Cut(blocks[i])) && size < BlockLimit && size == Offset(last, |last|)
    ensures WellCut(if last == [] then blocks else blocks + [last])
  {
    if last != [] {
      OffsetsGrow(last, |last| - 1, |last|);
      hide Cut, Offset;
      var after := blocks + [last];
      assert after[|after| - 1] == last && forall i :: 0 <= i < |after| - 1 ==> after[i] == blocks[i];
    }
  }

  function UserKeys(es: seq<Pair>): (ks: seq<bytes>)
    ensures |ks| == |es|
  {
    seq(|es|, i requires 0 <= i < |es| => InternalKeys.ExtractUserKey(es[i].key))
  }

  lemma UserKeysAppend(es: seq<Pair>, e: Pair)
    ensures UserKeys(es + [e]) == UserKeys(es) + [InternalKeys.ExtractUserKey(e.key)]
  {
  }

  lemma Regrouped(a: seq<Pair>, b: seq<Pair>, e: Pair)
    ensures a + (b + [e]) == a + b + [e]
  {
  }

  lemma OneMoreBlock(c: Codec, blocks: seq<seq<Pair>>, b: seq<Pair>)
    requires NonEmpty(blocks) && b != []
    ensures var after := blocks + [b];
            && NonEmpty(after)
            && Laid(c, after) == Laid(c, blocks) + Stored(c, Finished(b))
            && Flat(after) == Flat(blocks) + b
            && HandleOf(c, after, |blocks|) == BlockHandle(|Laid(c, blocks)|, |Stored(c, Finished(b))|)
            && IndexEntries(c, after, |blocks|) == IndexEntries(c, blocks, |blocks|)
  {
    hide Stored, Finished, HandleOf, EncodeHandle;
    var after := blocks + [b];
    assert after[..|after| - 1] == blocks;
    forall i | 0 <= i <= |blocks|
      ensures i < |blocks| ==> HandleOf(c, after, i) == HandleOf(c, blocks, i)
      ensures HandleOf(c, after, |blocks|) == BlockHandle(|Laid(c, blocks)|, |Stored(c, Finished(b))|)
    {
      HandleOfAppended(c, blocks, b, i);
    }
    assert forall i :: 0 <= i < |blocks| ==> after[i] == blocks[i];
    assert IndexEntries(c, after, |blocks|) == IndexEntries(c, blocks, |blocks|);
  }

  class Builder {
    const codec: Codec
    const createFilter: seq<bytes> -> bytes
    var out: bytes
    var offset: nat
    var numEntries: nat
    var closed: bool
    var lastKey: bytes
    var pendingIndexEntry: bool
    var pendingHandle: BlockHandle
    var keys: seq<bytes>
    const dataBlock: BlockBuilder
    const indexBlock: BlockBuilder
    const metaIndexBlock: BlockBuilder
    /** The finished data blocks and everything added so far. */
    ghost var blocks: seq<seq<Pair>>
    ghost var contents: seq<Pair>

    ghost predicate Apart() {
      dataBlock != indexBlock && dataBlock != metaIndexBlock && indexBlock != metaIndexBlock
    }

    /** A pending index entry means the data block is empty and that entry is the
        only one the index lacks. */
    ghost predicate Pending()
      requires NonEmpty(blocks)
      reads this, dataBlock, indexBlock
    {
      && (pendingIndexEntry <==> blocks != [] && dataBlock.entries == [])
      && (pendingIndexEntry ==>
            && pendingHandle == HandleOf(codec, blocks, |blocks| - 1)
            && lastKey == blocks[|blocks| - 1][|blocks[|blocks| - 1]| - 1].key)
      && indexBlock.entries == IndexEntries(codec, blocks, if pendingIndexEntry then |blocks| - 1 else |blocks|)
    }

    ghost predicate Consistent()
      reads this, dataBlock, indexBlock, metaIndexBlock
    {
      && dataBlock.Valid() && indexBlock.Valid() && metaIndexBlock.Valid() && metaIndexBlock.entries == []
      && NonEmpty(blocks)
      && contents == Flat(blocks) + dataBlock.entries
      && out == Laid(codec, blocks) && offset == |out|
      && numEntries == |contents| && keys == UserKeys(contents)
      && (dataBlock.entries != [] ==> lastKey == dataBlock.entries[|dataBlock.entries| - 1].key)
    }

    ghost predicate AllCut()
      reads this
    {
      forall i :: 0 <= i < |blocks| ==> Cut(blocks[i])
    }

    ghost predicate Filling()
      reads this, dataBlock, indexBlock, metaIndexBlock
    {
      Consistent() && AllCut() && Pending() && |dataBlock.buf| < BlockLimit
    }

    ghost function Filter(): Option<bytes>
      reads this
    {
      if contents == [] then None else Some(createFilter(UserKeys(contents)))
    }

    ghost predicate Complete()
      reads this, dataBlock
    {
      && NonEmpty(blocks) && WellCut(blocks) && Flat(blocks) == contents
      && out == TableBytes(codec, blocks, Filter())
      && offset + FooterSize == |out| && dataBlock.buf == []
    }

    ghost predicate Valid()
      reads this, dataBlock, indexBlock, metaIndexBlock
    {
      Apart() && if closed then Complete() else Filling()
    }

    constructor (codec: Codec, createFilter: seq<bytes> -> bytes)
      ensures Valid() && !closed && contents == [] && this.codec == codec && this.createFilter == createFilter
      ensures fresh(dataBlock) && fresh(indexBlock) && fresh(metaIndexBlock)
    {
      this.codec, this.createFilter := codec, createFilter;
      dataBlock := new BlockBuilder();
      indexBlock := new BlockBuilder();
      metaIndexBlock := new BlockBuilder();
      out, offset, numEntries, closed, lastKey, keys := [], 0, 0, false, [], [];
      pendingIndexEntry, pendingHandle := false, BlockHandle(0, 0);
      blocks, contents := [], [];
      new;
      assert IndexEntries(codec, [], 0) == [];
    }

    /** False is the source's "builder closed" error. */
    method Add(key: bytes, value: bytes) returns (ok: bool)
      requires Valid()
      modifies this, dataBlock, indexBlock
      ensures Valid() && closed == old(closed) && ok == !closed
      ensures contents == if ok then old(contents) + [Pair(key, value)] else old(contents)
      ensures !ok ==> out == old(out)
    {
      hide Stored, Finished, Encoded, Restarts, Laid, Flat, UserKeys, HandleOf, EncodeHandle, IndexEntries,
           TableBytes, WellCut, BlockBuilder.Valid;
      if closed { return false; }
      AddIndexEntry();
      AddEntry(key, value);
      if |dataBlock.buf| >= BlockLimit { FlushDataBlock(); }
      return true;
    }

    method AddIndexEntry()
      requires Apart() && Consistent() && Pending()
      modifies this`pendingIndexEntry, indexBlock
      ensures Consistent() && !pendingIndexEntry
      ensures indexBlock.entries == IndexEntries(codec, blocks, |blocks|)
    {
      hide Stored, Finished, HandleOf, EncodeHandle, Encoded, Restarts, Laid, Flat, UserKeys;
      if pendingIndexEntry {
        ghost var n := |blocks| - 1;
        assert IndexEntries(codec, blocks, n) + [IndexEntry(codec, blocks, n)] == IndexEntries(codec, blocks, n + 1);
        indexBlock.Add(lastKey, EncodeHandle(pendingHandle));
        pendingIndexEntry := false;
      }
    }

    method AddEntry(key: bytes, value: bytes)
      requires Apart() && Consistent() && !pendingIndexEntry
      requires indexBlock.entries == IndexEntries(codec, blocks, |blocks|)
      modifies this`lastKey, this`keys, this`numEntries, this`contents, dataBlock
      ensures Consistent() && Pending() && dataBlock.entries == old(dataBlock.entries) + [Pair(key, value)]
      ensures contents == old(contents) + [Pair(key, value)]
      ensures Offset(dataBlock.entries, |dataBlock.entries| - 1) == |old(dataBlock.buf)|
      ensures Offset(dataBlock.entries, |dataBlock.entries|) == |dataBlock.buf|
    {
      hide Stored, Finished, Restarts, Laid, Flat, UserKeys, Encoded, HandleOf, EncodeHandle, IndexEntries;
      ghost var was := dataBlock.entries;
      dataBlock.Add(key, value);
      lastKey := key;
      keys := keys + [InternalKeys.ExtractUserKey(key)];
      numEntries := numEntries + 1;
      contents := contents + [Pair(key, value)];
      UserKeysAppend(old(contents), Pair(key, value));
      Regrouped(Flat(blocks), was, Pair(key, value));
      EncodedPrefix(was, Pair(key, value), |was|);
    }

    /** What has been written and what is still in the data block; once closed,
        all of the file but its footer. */
    function Size(): (n: nat)
      reads this, dataBlock
    {
      offset + |dataBlock.buf|
    }

    /** Compresses when it pays, then appends the type byte and the checksum. */
    method WriteBlock(content: bytes) returns (handle: BlockHandle)
      requires offset == |out|
      modifies this`out, this`offset
      ensures out == old(out) + Stored(codec, content) && offset == |out|
      ensures handle == BlockHandle(old(offset), |Stored(codec, content)|)
    {
      var final, kind: byte := content, 0;
      var z := codec.compress(content);
      if |z| < |content| - 2 { final, kind := z, 1; }
      var body := final + [kind];
      out := out + body;
      out := out + PutU32(codec.crc(body));
      handle := BlockHandle(offset, |final| + 5);
      offset := offset + |final| + 5;
      assert out == old(out) + (body + PutU32(codec.crc(body)));
    }

    method FlushDataBlock()
      requires Apart() && Consistent() && Pending()
      modifies this`out, this`offset, this`pendingHandle, this`pendingIndexEntry, this`blocks, dataBlock
      ensures Consistent() && Pending() && dataBlock.entries == [] && dataBlock.buf == []
      ensures blocks == if old(dataBlock.entries) == [] then old(blocks) else old(blocks) + [old(dataBlock.entries)]
    {
      hide Stored, Finished, Restarts, Laid, Flat, UserKeys, HandleOf, EncodeHandle, IndexEntries, Encoded;
      if dataBlock.buf == [] { return; }
      ghost var b := dataBlock.entries;
      assert b != [];
      var content := dataBlock.Finish();
      var handle := WriteBlock(content);
      dataBlock.Reset();
      pendingHandle := handle;
      pendingIndexEntry := true;
      OneMoreBlock(codec, blocks, b);
      blocks := blocks + [b];
      assert Flat(blocks) + [] == Flat(blocks);
    }

    method Close()
      requires Valid()
      modifies this, dataBlock, indexBlock, metaIndexBlock
      ensures Valid() && closed && contents == old(contents)
      ensures old(closed) ==> out == old(out)
    {
      hide Stored, Finished, Restarts, Laid, Flat, UserKeys, HandleOf, EncodeHandle, IndexEntries, Encoded, Sealed,
           EncodeFooter, WellCut;
      if closed { return; }
      CloseBlocks();
      var handles := WriteTail();
      out := out + EncodeFooter(handles);
      closed := true;
    }

    /** The last data block and its index entry. */
    method CloseBlocks()
      requires Apart() && Filling() && !closed
      modifies this`out, this`offset, this`pendingHandle, this`pendingIndexEntry, this`blocks, dataBlock, indexBlock
      ensures Consistent() && dataBlock.entries == [] && dataBlock.buf == [] && Flat(blocks) == contents
      ensures WellCut(blocks) && indexBlock.entries == IndexEntries(codec, blocks, |blocks|)
    {
      hide Stored, Finished, Restarts, Laid, Flat, UserKeys, HandleOf, EncodeHandle, IndexEntries, Encoded, WellCut,
           Builder.Filling, Builder.Consistent, Builder.Pending;
      LastBlockEndsWell();
      FlushDataBlock();
      if pendingIndexEntry { AddIndexEntry(); } else { NothingPending(); }
      AllFlat();
    }

    lemma LastBlockEndsWell()
      requires Filling()
      ensures Consistent() && Pending()
      ensures WellCut(if dataBlock.entries == [] then blocks else blocks + [dataBlock.entries])
    {
      assert |dataBlock.buf| == Offset(dataBlock.entries, |dataBlock.entries|);
      hide Stored, Finished, Restarts, Laid, Flat, UserKeys, HandleOf, EncodeHandle, IndexEntries, Encoded, WellCut,
           Cut, Offset;
      EndsWell(blocks, dataBlock.entries, |dataBlock.buf|);
    }

    lemma NothingPending()
      requires Consistent() && Pending() && !pendingIndexEntry
      ensures indexBlock.entries == IndexEntries(codec, blocks, |blocks|)
    {
    }

    lemma AllFlat()
      requires Consistent() && dataBlock.entries == []
      ensures Flat(blocks) == contents
    {
      hide Laid, Flat, UserKeys, IndexEntries;
      assert Flat(blocks) + [] == Flat(blocks);
    }

    /** Filter, meta index and index; the footer's two handles. */
    method WriteTail() returns (footer: Footer)
      requires Apart() && Consistent() && dataBlock.entries == []
      requires indexBlock.entries == IndexEntries(codec, blocks, |blocks|)
      modifies this`out, this`offset, indexBlock, metaIndexBlock
      ensures footer == FooterOf(codec, old(out), Filter(), IndexEntries(codec, blocks, |blocks|)) && offset == |out|
      ensures out + EncodeFooter(footer) == TableBytes(codec, blocks, Filter())
    {
      hide Stored, Finished, Restarts, Laid, Flat, UserKeys, HandleOf, EncodeHandle, IndexEntries, Encoded,
           EncodeFooter;
      assert Flat(blocks) + [] == Flat(blocks);
      assert keys == [] <==> contents == [];
      if |keys| > 0 {
        var filterData := createFilter(keys);
        var filterHandle := BlockHandle(offset, |filterData|);
        out := out + filterData;
        offset := offset + |filterData|;
        metaIndexBlock.Add(FilterName, EncodeHandle(filterHandle));
      }
      ghost var meta := MetaEntries(|old(out)|, Filter());
      assert metaIndexBlock.entries == meta;
      assert out == old(out) + FilterBytes(Filter());
      var metaIndexContent := metaIndexBlock.Finish();
      var metaIndexHandle := WriteBlock(metaIndexContent);
      var indexContent := indexBlock.Finish();
      var indexHandle := WriteBlock(indexContent);
      footer := Footer(metaIndexHandle, indexHandle);
      ghost var index := IndexEntries(codec, blocks, |blocks|);
      assert out == old(out) + FilterBytes(Filter()) + Stored(codec, Finished(meta)) + Stored(codec, Finished(index));
    }
  }
}
